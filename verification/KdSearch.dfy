/** What a neighbour search has established about the rows it has dealt with. */
module KdSearch {
  import opened Sets
  import opened KdGeometry
  import opened KdHeap
  import opened KdShape

  /** The parameters of a query. `kneeded == 0` means no limit on the number of neighbours,
      `rneeded == 0.0` no limit on the distance. */
  datatype Request = Request(norm: Norm, x: Point, kneeded: nat, rneeded: real, selfmatch: bool, approxf: real)

  ghost predicate Legal(q: Request, a: seq<Row>) {
    0.0 < q.approxf <= 1.0 && q.rneeded >= 0.0 && forall i :: 0 <= i < |a| ==> |a[i].xy| >= |q.x|
  }

  function DistTo(q: Request, r: Row): real
    requires |r.xy| >= |q.x|
  {
    Dist(q.norm, r.xy, q.x)
  }

  /** Zero distances count only if self-matches are allowed, and the radius must be respected. */
  predicate Eligible(q: Request, r: Row)
    requires |r.xy| >= |q.x|
  {
    && (DistTo(q, r) != 0.0 || q.selfmatch)
    && (q.rneeded == 0.0 || DistTo(q, r) <= q.rneeded)
  }

  function Entry(q: Request, a: seq<Row>, i: int): Neighbor
    requires 0 <= i < |a| && |a[i].xy| >= |q.x|
  {
    Neighbor(DistTo(q, a[i]), i)
  }

  predicate Full(q: Request, h: seq<Neighbor>) {
    q.kneeded > 0 && |h| >= q.kneeded
  }

  /** Row `i` could not improve the result: k neighbours are held and none is farther than
      the distance of `i` allows. */
  ghost predicate Beaten(q: Request, a: seq<Row>, h: seq<Neighbor>, i: int)
    requires 0 <= i < |a| && |a[i].xy| >= |q.x|
  {
    Full(q, h) && |h| > 0 && h[0].dist * q.approxf <= DistTo(q, a[i])
  }

  ghost predicate Held(q: Request, a: seq<Row>, h: seq<Neighbor>, seen: set<int>, e: Neighbor) {
    && 0 <= e.idx < |a| && |a[e.idx].xy| >= |q.x| && e == Entry(q, a, e.idx) && Eligible(q, a[e.idx])
    && e.idx in seen && multiset(h)[e] == 1
  }

  ghost predicate Settled(q: Request, a: seq<Row>, h: seq<Neighbor>, i: int) {
    && 0 <= i < |a| && |a[i].xy| >= |q.x|
    && (Eligible(q, a[i]) ==> Entry(q, a, i) in multiset(h) || Beaten(q, a, h, i))
  }

  /** The heap `h` is right for the rows in `seen`: it holds eligible rows of `seen`, each once, with their
      distances; every eligible row of `seen` is held or beaten; and there are at most k entries. */
  ghost predicate Tracks(q: Request, a: seq<Row>, h: seq<Neighbor>, seen: set<int>) {
    && (q.kneeded > 0 ==> |h| <= q.kneeded)
    && (forall e :: e in multiset(h) ==> Held(q, a, h, seen, e))
    && (forall i :: i in seen ==> Settled(q, a, h, i))
  }

  lemma {:induction false} DistNonNegative(q: Request, r: Row)
    requires |r.xy| >= |q.x|
    ensures DistTo(q, r) >= 0.0
  {
    FoldMono(q.norm, PointGaps(r.xy, q.x), PointGaps(r.xy, q.x));
  }

  ghost predicate Hopeless(q: Request, a: seq<Row>, h: seq<Neighbor>, i: int) {
    0 <= i < |a| && |a[i].xy| >= |q.x| && (Eligible(q, a[i]) ==> Beaten(q, a, h, i))
  }

  /** Rows that are not eligible, or beaten already, need not be looked at. */
  lemma {:induction false} TracksSkip(q: Request, a: seq<Row>, h: seq<Neighbor>, seen: set<int>, more: set<int>)
    requires Tracks(q, a, h, seen)
    requires forall i :: i in more ==> Hopeless(q, a, h, i)
    ensures Tracks(q, a, h, seen + more)
  {
    forall e | e in multiset(h) ensures Held(q, a, h, seen + more, e) {
      assert Held(q, a, h, seen, e);
    }
    forall i | i in seen + more ensures Settled(q, a, h, i) {
      assert i in seen ==> Settled(q, a, h, i);
    }
  }

  /** A new eligible row is added while there is room. */
  lemma {:induction false} TracksPush(q: Request, a: seq<Row>, h: seq<Neighbor>, h': seq<Neighbor>, seen: set<int>,
                                      i: int)
    requires Tracks(q, a, h, seen) && !Full(q, h)
    requires i !in seen && 0 <= i < |a| && |a[i].xy| >= |q.x| && Eligible(q, a[i])
    requires |h'| == |h| + 1 && multiset(h') == multiset(h) + multiset{Entry(q, a, i)}
    ensures Tracks(q, a, h', seen + {i})
  {
    var e0 := Entry(q, a, i);
    assert e0 in multiset(h) ==> Held(q, a, h, seen, e0);
    forall e | e in multiset(h') ensures Held(q, a, h', seen + {i}, e) {
      if e != e0 { assert Held(q, a, h, seen, e); }
    }
    forall j | j in seen + {i} ensures Settled(q, a, h', j) {
      if j != i { assert Settled(q, a, h, j); }
    }
  }

  /** Entries only get nearer when the farthest one is replaced by a nearer one. */
  lemma {:induction false} ReplacedTopIsNearer(h: seq<Neighbor>, h': seq<Neighbor>, e: Neighbor)
    requires |h| >= 1 && Heap(h) && |h'| == |h| && e.dist <= h[0].dist
    requires multiset(h') == multiset(h[1..]) + multiset{e}
    ensures h'[0].dist <= h[0].dist
  {
    assert h'[0] in multiset(h');
    if h'[0] != e {
      assert h'[0] in multiset(h[1..]);
      var k :| 0 <= k < |h[1..]| && h[1..][k] == h'[0];
      RootIsFarthest(h, k + 1);
    }
  }

  lemma {:induction false} ScaledMono(x: real, y: real, f: real)
    requires x <= y && f >= 0.0
    ensures x * f <= y * f
  {
    assert (y - x) * f >= 0.0;
  }

  /** What was beaten stays beaten when the farthest entry gets nearer. */
  lemma {:induction false} StillBeaten(q: Request, a: seq<Row>, h: seq<Neighbor>, h': seq<Neighbor>, i: int)
    requires Legal(q, a) && 0 <= i < |a| && |h'| == |h| >= 1 && h'[0].dist <= h[0].dist
    ensures Beaten(q, a, h, i) ==> Beaten(q, a, h', i)
  {
    ScaledMono(h'[0].dist, h[0].dist, q.approxf);
  }

  /** The entry that was dropped is beaten by the ones that stay. */
  lemma {:induction false} DroppedIsBeaten(q: Request, a: seq<Row>, h: seq<Neighbor>, h': seq<Neighbor>, j: int)
    requires Legal(q, a) && 0 <= j < |a| && Full(q, h') && |h'| >= 1
    requires 1 <= |h| && h'[0].dist <= h[0].dist && h[0] == Entry(q, a, j)
    ensures Beaten(q, a, h', j)
  {
    DistNonNegative(q, a[j]);
    ScaledChain(h'[0].dist, h[0].dist, q.approxf);
  }

  lemma {:induction false} ScaledChain(x: real, y: real, f: real)
    requires x <= y && 0.0 <= y && 0.0 < f <= 1.0
    ensures x * f <= y
  {
    ScaledMono(x, y, f);
    ScaledBelow(y, f);
  }

  lemma {:induction false} ReplaceKeepsHeld(q: Request, a: seq<Row>, h: seq<Neighbor>, h': seq<Neighbor>,
                                            seen: set<int>, i: int, e: Neighbor)
    requires Tracks(q, a, h, seen) && |h| >= 1
    requires i !in seen && 0 <= i < |a| && |a[i].xy| >= |q.x| && Eligible(q, a[i])
    requires multiset(h) == multiset(h[1..]) + multiset{h[0]}
    requires multiset(h') == multiset(h[1..]) + multiset{Entry(q, a, i)}
    requires e in multiset(h')
    ensures Held(q, a, h', seen + {i}, e)
  {
    assert Entry(q, a, i) in multiset(h) ==> Held(q, a, h, seen, Entry(q, a, i));
    assert e in multiset(h) ==> Held(q, a, h, seen, e);
  }

  /** A nearer row takes the place of the farthest of k neighbours. */
  lemma {:induction false} TracksReplace(q: Request, a: seq<Row>, h: seq<Neighbor>, h': seq<Neighbor>, seen: set<int>,
                                         i: int)
    requires Legal(q, a) && Tracks(q, a, h, seen) && Full(q, h) && |h'| == |h| && h'[0].dist <= h[0].dist
    requires i !in seen && 0 <= i < |a| && Eligible(q, a[i])
    requires multiset(h) == multiset(h[1..]) + multiset{h[0]}
    requires multiset(h') == multiset(h[1..]) + multiset{Entry(q, a, i)}
    ensures Tracks(q, a, h', seen + {i})
  {
    forall e | e in multiset(h') ensures Held(q, a, h', seen + {i}, e) {
      ReplaceKeepsHeld(q, a, h, h', seen, i, e);
    }
    forall j | j in seen + {i} ensures Settled(q, a, h', j) {
      if j != i {
        assert Settled(q, a, h, j);
        StillBeaten(q, a, h, h', j);
        if Entry(q, a, j) == h[0] {
          DroppedIsBeaten(q, a, h, h', j);
        }
      }
    }
  }

  lemma {:induction false} ScaledBelow(x: real, f: real)
    requires x >= 0.0 && 0.0 < f <= 1.0
    ensures x * f <= x
  {
    assert x * (1.0 - f) >= 0.0;
  }

  /** A row at least as far as the farthest of k neighbours is beaten. */
  lemma {:induction false} FartherIsBeaten(q: Request, a: seq<Row>, h: seq<Neighbor>, i: int)
    requires Legal(q, a) && 0 <= i < |a| && Full(q, h) && |h| >= 1
    requires 0.0 <= h[0].dist <= DistTo(q, a[i])
    ensures Beaten(q, a, h, i)
  {
    ScaledBelow(h[0].dist, q.approxf);
  }

  function Range(lo: int, hi: int): (s: set<int>)
    ensures forall i :: i in s <==> lo <= i < hi
    ensures lo <= hi ==> |s| == hi - lo
    decreases hi - lo
  {
    if lo >= hi then {} else Range(lo, hi - 1) + {hi - 1}
  }

  lemma {:induction false} OccursTwice(h: seq<Neighbor>, i: int, j: int)
    requires 0 <= i < j < |h| && h[i] == h[j]
    ensures multiset(h)[h[i]] >= 2
  {
    assert h == h[..j] + [h[j]] + h[j + 1..];
    assert h[..j][i] in multiset(h[..j]);
  }

  lemma {:induction false} DistinctCount(h: seq<Neighbor>, s: set<int>)
    requires forall i, j :: 0 <= i < j < |h| ==> h[i].idx != h[j].idx
    requires forall i :: 0 <= i < |h| ==> h[i].idx in s
    ensures |h| <= |s|
  {
    if |h| > 0 {
      var k := |h| - 1;
      DistinctCount(h[..k], s - {h[k].idx});
    }
  }

  /** No row is held twice. */
  lemma {:induction false} TracksDistinct(q: Request, a: seq<Row>, h: seq<Neighbor>, seen: set<int>)
    requires Tracks(q, a, h, seen)
    ensures forall i, j :: 0 <= i < j < |h| ==> h[i].idx != h[j].idx
    ensures |h| <= |seen|
  {
    forall i, j | 0 <= i < j < |h| ensures h[i].idx != h[j].idx {
      assert h[i] in multiset(h) && h[j] in multiset(h);
      assert Held(q, a, h, seen, h[i]) && Held(q, a, h, seen, h[j]);
      if h[i] == h[j] { OccursTwice(h, i, j); }
    }
    forall i | 0 <= i < |h| ensures h[i].idx in seen {
      assert h[i] in multiset(h);
      assert Held(q, a, h, seen, h[i]);
    }
    DistinctCount(h, seen);
  }

  /** There is room for one more row in a buffer of `n` entries. */
  lemma {:induction false} TracksHasRoom(q: Request, a: seq<Row>, h: seq<Neighbor>, seen: set<int>, i: int)
    requires Tracks(q, a, h, seen) && seen <= Range(0, |a|) && i !in seen && 0 <= i < |a|
    ensures |h| < |a|
  {
    TracksDistinct(q, a, h, seen);
    SubsetSize(seen + {i}, Range(0, |a|));
  }
}
