/** The bounded max-heap of candidate neighbours.
    The source keeps distances and indices in two parallel vectors; here one array holds the pairs. */
module KdHeap {

  datatype Neighbor = Neighbor(dist: real, idx: int)

  function Parent(i: int): (p: int)
    ensures i > 0 ==> 0 <= p < i
  {
    (i - 1) / 2
  }

  /** Every entry is no farther than its parent entry. */
  ghost predicate Heap(s: seq<Neighbor>) {
    forall i {:trigger Parent(i)} :: 0 < i < |s| ==> s[Parent(i)].dist >= s[i].dist
  }

  /** Heap order, except that the entry at `j` may exceed its parent. */
  ghost predicate HeapBelow(s: seq<Neighbor>, j: int) {
    && 0 <= j < |s|
    && (forall i {:trigger Parent(i)} :: 0 < i < |s| && i != j ==> s[Parent(i)].dist >= s[i].dist)
    && (forall i {:trigger Parent(i)} :: 0 < j < i < |s| && Parent(i) == j ==> s[Parent(j)].dist >= s[i].dist)
  }

  /** Heap order, except that the entry at `j` may be exceeded by its children. */
  ghost predicate HeapAbove(s: seq<Neighbor>, j: int) {
    && 0 <= j < |s|
    && (forall i {:trigger Parent(i)} :: 0 < i < |s| && Parent(i) != j ==> s[Parent(i)].dist >= s[i].dist)
    && (forall i {:trigger Parent(i)} :: 0 < j < i < |s| && Parent(i) == j ==> s[Parent(j)].dist >= s[i].dist)
  }

  ghost function Swapped(s: seq<Neighbor>, j: int, k: int): (t: seq<Neighbor>)
    requires 0 <= j < |s| && 0 <= k < |s|
    ensures |t| == |s|
  {
    s[j := s[k]][k := s[j]]
  }

  lemma {:induction false} RootIsFarthest(s: seq<Neighbor>, i: int)
    requires Heap(s) && 0 <= i < |s|
    ensures s[0].dist >= s[i].dist
  {
    if i > 0 {
      RootIsFarthest(s, Parent(i));
    }
  }

  lemma {:induction false} SiftUpStep(s: seq<Neighbor>, j: int)
    requires HeapBelow(s, j) && j > 0 && s[Parent(j)].dist < s[j].dist
    ensures HeapBelow(Swapped(s, j, Parent(j)), Parent(j))
  {
    var k := Parent(j);
    var t := Swapped(s, j, k);
    forall i {:trigger Parent(i)} | 0 < i < |t| && i != k
      ensures t[Parent(i)].dist >= t[i].dist
    {
      if Parent(i) == j { assert s[Parent(j)].dist >= s[i].dist; }
    }
    forall i {:trigger Parent(i)} | 0 < k < i < |t| && Parent(i) == k
      ensures t[Parent(k)].dist >= t[i].dist
    {
      assert s[Parent(k)].dist >= s[k].dist;
      if i != j { assert s[Parent(i)].dist >= s[i].dist; }
    }
  }

  lemma {:induction false} SiftDownStep(s: seq<Neighbor>, j: int, k: int)
    requires HeapAbove(s, j) && j < k < |s| && Parent(k) == j && s[j].dist < s[k].dist
    requires forall i {:trigger Parent(i)} :: 0 < i < |s| && Parent(i) == j ==> s[i].dist <= s[k].dist
    ensures HeapAbove(Swapped(s, j, k), k)
  {
    var t := Swapped(s, j, k);
    forall i {:trigger Parent(i)} | 0 < i < |t| && Parent(i) != k
      ensures t[Parent(i)].dist >= t[i].dist
    {
      if i == j {
        assert s[Parent(j)].dist >= s[k].dist;
      }
    }
    forall i {:trigger Parent(i)} | 0 < k < i < |t| && Parent(i) == k
      ensures t[Parent(k)].dist >= t[i].dist
    {
      assert s[Parent(i)].dist >= s[i].dist;
    }
  }

  /** Where the entry at `j` ends up when it climbs. */
  ghost function SiftedUp(s: seq<Neighbor>, j: int): (t: seq<Neighbor>)
    requires 0 <= j < |s|
    ensures |t| == |s|
    decreases j
  {
    if j > 0 && s[Parent(j)].dist < s[j].dist then SiftedUp(Swapped(s, j, Parent(j)), Parent(j)) else s
  }

  /** The child the entry at `j` changes places with when it sinks, or `j` if it is in its place. */
  ghost function Heavier(s: seq<Neighbor>, j: int): (k: int)
    requires 0 <= j < |s|
    ensures j <= k < |s|
  {
    var k1, k2 := 2 * j + 1, 2 * j + 2;
    if k1 >= |s| then j
    else
      var k := if k2 >= |s| || s[k1].dist > s[k2].dist then k1 else k2;
      if s[j].dist < s[k].dist then k else j
  }

  ghost function SiftedDown(s: seq<Neighbor>, j: int): (t: seq<Neighbor>)
    requires 0 <= j < |s|
    ensures |t| == |s|
    decreases |s| - j
  {
    var k := Heavier(s, j);
    if k == j then s else SiftedDown(Swapped(s, j, k), k)
  }

  lemma {:induction false} SiftedUpIsHeap(s: seq<Neighbor>, j: int)
    requires HeapBelow(s, j)
    ensures Heap(SiftedUp(s, j)) && multiset(SiftedUp(s, j)) == multiset(s)
    decreases j
  {
    if j > 0 && s[Parent(j)].dist < s[j].dist {
      SiftUpStep(s, j);
      SiftedUpIsHeap(Swapped(s, j, Parent(j)), Parent(j));
    }
  }

  lemma {:induction false} SiftedDownIsHeap(s: seq<Neighbor>, j: int)
    requires HeapAbove(s, j)
    ensures Heap(SiftedDown(s, j)) && multiset(SiftedDown(s, j)) == multiset(s)
    decreases |s| - j
  {
    var k := Heavier(s, j);
    if k != j {
      SiftDownStep(s, j, k);
      SiftedDownIsHeap(Swapped(s, j, k), k);
    }
  }

  lemma {:induction false} PushedIsHeap(s: seq<Neighbor>, e: Neighbor)
    requires Heap(s)
    ensures Heap(SiftedUp(s + [e], |s|))
    ensures multiset(SiftedUp(s + [e], |s|)) == multiset(s) + multiset{e}
  {
    var t := s + [e];
    forall i {:trigger Parent(i)} | 0 < i < |t| && i != |s| ensures t[Parent(i)].dist >= t[i].dist {
      assert s[Parent(i)].dist >= s[i].dist;
    }
    SiftedUpIsHeap(t, |s|);
  }

  /** Adds `e` to the heap in `h[..n]`: the new entry climbs from the bottom, and is
      written only when its final place is known. */
  method Push(h: array<Neighbor>, n: nat, e: Neighbor)
    requires n < h.Length
    modifies h
    ensures h[..n + 1] == SiftedUp(old(h[..n]) + [e], n)
    ensures forall i :: n < i < h.Length ==> h[i] == old(h[i])
  {
    var j := n;
    ghost var start := h[..n] + [e];
    ghost var s := start;  // the heap as it will be once `e` is written at `j`
    while j > 0
      invariant 0 <= j <= n && |s| == n + 1 && s[j] == e
      invariant forall i :: 0 <= i <= n && i != j ==> h[i] == s[i]
      invariant SiftedUp(s, j) == SiftedUp(start, n)
      invariant forall i :: n < i < h.Length ==> h[i] == old(h[i])
    {
      var k := Parent(j);
      if h[k].dist < e.dist {
        s := Swapped(s, j, k);
        h[j] := h[k];
        j := k;
      } else {
        break;
      }
    }
    h[j] := e;
    assert h[..n + 1] == s;
  }

  /** Replaces the farthest entry by `e`, which sinks to its place.
      `ReplacedTopIsHeap` says what that place means. */
  method ReplaceTop(h: array<Neighbor>, n: nat, e: Neighbor)
    requires 1 <= n <= h.Length
    modifies h
    ensures h[..n] == SiftedDown(old(h[..n])[0 := e], 0)
    ensures forall i :: n <= i < h.Length ==> h[i] == old(h[i])
  {
    var j := 0;
    var k1, k2 := 1, 2;
    ghost var start := h[..n][0 := e];
    ghost var s := start;  // the heap as it will be once `e` is written at `j`
    while k1 < n
      invariant 0 <= j < n == |s| && k1 == 2 * j + 1 && k2 == 2 * j + 2 && s[j] == e
      invariant forall i :: 0 <= i < n && i != j ==> h[i] == s[i]
      invariant SiftedDown(s, j) == SiftedDown(start, 0)
      invariant forall i :: n <= i < h.Length ==> h[i] == old(h[i])
      decreases n - j
    {
      var k := if k2 >= n || h[k1].dist > h[k2].dist then k1 else k2;
      assert Heavier(s, j) == if e.dist < h[k].dist then k else j;
      if e.dist < h[k].dist {
        s := Swapped(s, j, k);
        h[j] := h[k];
        j := k;
        k1, k2 := 2 * j + 1, 2 * j + 2;
      } else {
        break;
      }
    }
    h[j] := e;
    assert h[..n] == s;
  }

  lemma {:induction false} ReplacedTopIsHeap(s: seq<Neighbor>, e: Neighbor)
    requires |s| >= 1 && Heap(s)
    ensures Heap(SiftedDown(s[0 := e], 0))
    ensures multiset(SiftedDown(s[0 := e], 0)) == multiset(s[1..]) + multiset{e}
  {
    SiftedDownIsHeap(s[0 := e], 0);
    assert s[0 := e] == [e] + s[1..];
  }

  /** A heap after one pop: the farthest entry last, a heap in front of it. */
  ghost function Popped(s: seq<Neighbor>): (t: seq<Neighbor>)
    requires |s| >= 1
    ensures |t| == |s|
  {
    var n := |s| - 1;
    if n == 0 then s else SiftedDown(s[..n][0 := s[n]], 0) + [s[0]]
  }

  lemma {:induction false} EndsApart(s: seq<Neighbor>)
    requires |s| >= 2
    ensures multiset(s) == multiset(s[1..|s| - 1]) + multiset{s[|s| - 1]} + multiset{s[0]}
  {
    assert s == [s[0]] + s[1..|s| - 1] + [s[|s| - 1]];
  }

  lemma {:induction false} PoppedIsHeap(s: seq<Neighbor>)
    requires |s| >= 1 && Heap(s)
    ensures Popped(s)[|s| - 1] == s[0]
    ensures Heap(Popped(s)[..|s| - 1])
    ensures multiset(Popped(s)) == multiset(s)
  {
    var n := |s| - 1;
    if n > 0 {
      var mid := s[1..n];
      HeapPrefix(s, n);
      ReplacedTopIsHeap(s[..n], s[n]);
      assert s[..n][1..] == mid;
      EndsApart(s);
      assert Popped(s)[..n] == SiftedDown(s[..n][0 := s[n]], 0);
    }
  }

  /** Moves the farthest entry of `h[..n]` to `h[n - 1]` and restores the heap in front of it. */
  method Pop(h: array<Neighbor>, n: nat)
    requires 1 <= n <= h.Length
    modifies h
    ensures h[..n] == Popped(old(h[..n]))
    ensures forall i :: n <= i < h.Length ==> h[i] == old(h[i])
  {
    if n == 1 {
      return;
    }
    ghost var before := h[..n];
    var e := h[n - 1];
    h[n - 1] := h[0];
    assert h[..n - 1] == before[..n - 1];
    ReplaceTop(h, n - 1, e);
    assert h[..n] == h[..n - 1] + [before[0]];
  }

  lemma {:induction false} HeapPrefix(s: seq<Neighbor>, n: nat)
    requires Heap(s) && n <= |s|
    ensures Heap(s[..n])
  {
    forall i {:trigger Parent(i)} | 0 < i < n ensures s[..n][Parent(i)].dist >= s[..n][i].dist {
      assert s[Parent(i)].dist >= s[i].dist;
    }
  }

  ghost predicate Ascending(s: seq<Neighbor>) {
    forall i, j :: 0 <= i < j < |s| ==> s[i].dist <= s[j].dist
  }

  /** Positions from `j` on hold entries at least as far as everything before them. */
  ghost predicate AscendingFrom(s: seq<Neighbor>, j: int) {
    forall i, k :: 0 <= i < k < |s| && j <= k ==> s[i].dist <= s[k].dist
  }

  lemma {:induction false} PopExtendsOrder(s: seq<Neighbor>, t: seq<Neighbor>, j: nat)
    requires 2 <= j <= |s| == |t|
    requires Heap(s[..j]) && t[..j] == Popped(s[..j]) && t[j..] == s[j..] && AscendingFrom(s, j)
    ensures Heap(t[..j - 1]) && AscendingFrom(t, j - 1) && multiset(t) == multiset(s)
  {
    PoppedIsHeap(s[..j]);
    assert t[..j - 1] == t[..j][..j - 1] && t[j - 1] == t[..j][j - 1];
    assert s == s[..j] + s[j..] && t == t[..j] + t[j..];
    forall i, k | 0 <= i < k < |t| && j - 1 <= k ensures t[i].dist <= t[k].dist {
      assert k >= j ==> t[k] == t[j..][k - j] == s[k];
      if i < j {
        assert t[i] == t[..j][i];
        assert t[i] in multiset(s[..j]);
        var m :| 0 <= m < j && s[..j][m] == t[i];
        RootIsFarthest(s[..j], m);
      } else {
        assert t[i] == t[j..][i - j] == s[i];
      }
    }
  }

  /** Popping all but the last entry leaves the array sorted by ascending distance. */
  method Drain(h: array<Neighbor>, n: nat)
    requires n <= h.Length && Heap(h[..n])
    modifies h
    ensures Ascending(h[..n])
    ensures multiset(h[..n]) == multiset(old(h[..n]))
    ensures forall i :: n <= i < h.Length ==> h[i] == old(h[i])
  {
    var j := n;
    while j >= 2
      invariant 0 <= j <= n
      invariant Heap(h[..j])
      invariant AscendingFrom(h[..n], j)
      invariant multiset(h[..n]) == multiset(old(h[..n]))
      invariant forall i :: n <= i < h.Length ==> h[i] == old(h[i])
    {
      ghost var s := h[..n];
      assert s[..j] == h[..j];
      Pop(h, j);
      ghost var t := h[..n];
      assert t[..j] == h[..j] && t[j..] == s[j..] && t[..j - 1] == h[..j - 1];
      PopExtendsOrder(s, t, j);
      j := j - 1;
    }
  }
}
