/** The tree that the flat `nodes` and `splits` vectors encode, and the row order it relies on. */
module KdShape {
  import opened KdGeometry

  /** One stored row: the working copy of the coordinates, the original row after it, and the tag. */
  datatype Row = Row(xy: seq<real>, tag: int)

  datatype Tree =
    | Leaf(first: nat, count: nat)
    | Split(d: nat, s: real, left: Tree, right: Tree)

  const SPLIT_NODE_SIZE := 6

  /** A tree covers the rows [Lo, Hi). */
  function Lo(t: Tree): nat { if t.Leaf? then t.first else Lo(t.left) }
  function Hi(t: Tree): nat { if t.Leaf? then t.first + t.count else Hi(t.right) }

  /** Cells of `nodes` and of `splits` that a tree occupies. */
  function NodeCells(t: Tree): nat {
    if t.Leaf? then 2 else SPLIT_NODE_SIZE + NodeCells(t.left) + NodeCells(t.right)
  }
  function SplitCells(t: Tree): nat {
    if t.Leaf? then 0 else 1 + SplitCells(t.left) + SplitCells(t.right)
  }

  /** `nodes` from `o` on holds tree `t`, children packed one after the other; its thresholds are
      numbered from `p` on. */
  ghost predicate EncodesNodes(nodes: seq<int>, o: int, p: int, t: Tree)
    decreases t
  {
    && 0 <= o && o + NodeCells(t) <= |nodes|
    && match t
       case Leaf(first, count) => nodes[o] == count && nodes[o + 1] == first && count > 0
       case Split(d, s, left, right) =>
         && nodes[o] == 0 && nodes[o + 1] == d && nodes[o + 2] == p
         && nodes[o + 3] == o + SPLIT_NODE_SIZE
         && nodes[o + 4] == o + SPLIT_NODE_SIZE + NodeCells(left)
         && EncodesNodes(nodes, o + SPLIT_NODE_SIZE, p + 1, left)
         && EncodesNodes(nodes, o + SPLIT_NODE_SIZE + NodeCells(left), p + 1 + SplitCells(left), right)
  }

  /** `splits` from `p` on holds the thresholds of `t` in the same order. */
  ghost predicate EncodesSplits(splits: seq<real>, p: int, t: Tree)
    decreases t
  {
    && 0 <= p && p + SplitCells(t) <= |splits|
    && (t.Split? ==>
      && splits[p] == t.s
      && EncodesSplits(splits, p + 1, t.left)
      && EncodesSplits(splits, p + 1 + SplitCells(t.left), t.right))
  }

  /** The leaves of `t` are non-empty, adjacent and in order, and every split keeps the rows on its
      left at or below the threshold and the rows on its right at or above it. */
  ghost predicate Separates(t: Tree, rows: seq<Row>, nx: nat) {
    && Lo(t) < Hi(t) <= |rows|
    && match t
       case Leaf(_, _) => true
       case Split(d, s, left, right) =>
         && d < nx && Hi(left) == Lo(right)
         && Separates(left, rows, nx) && Separates(right, rows, nx)
         && (forall i :: Lo(left) <= i < Hi(left) ==> d < |rows[i].xy| && rows[i].xy[d] <= s)
         && (forall i :: Lo(right) <= i < Hi(right) ==> d < |rows[i].xy| && rows[i].xy[d] >= s)
  }

  /** Every threshold lies inside the box its node covers. */
  ghost predicate SplitsInside(t: Tree, lo: Point, hi: Point) {
    t.Split? ==>
      && t.d < |lo| == |hi| && lo[t.d] <= t.s <= hi[t.d]
      && SplitsInside(t.left, lo, hi[t.d := t.s])
      && SplitsInside(t.right, lo[t.d := t.s], hi)
  }

  /** Each leaf costs 2 cells and each split 6, and there are at most as many leaves as rows. */
  lemma {:induction false} CellsBound(t: Tree, rows: seq<Row>, nx: nat)
    requires Separates(t, rows, nx)
    ensures NodeCells(t) <= 8 * (Hi(t) - Lo(t)) - 6
    ensures SplitCells(t) <= Hi(t) - Lo(t) - 1
  {
    if t.Split? {
      CellsBound(t.left, rows, nx);
      CellsBound(t.right, rows, nx);
    }
  }

  /** An encoding depends on its own cells only. */
  lemma {:induction false} EncodesNodesFrame(nodes: seq<int>, nodes': seq<int>, o: int, p: int, t: Tree)
    requires EncodesNodes(nodes, o, p, t) && |nodes'| == |nodes|
    requires forall i :: o <= i < o + NodeCells(t) ==> nodes'[i] == nodes[i]
    ensures EncodesNodes(nodes', o, p, t)
    decreases t
  {
    if t.Split? {
      EncodesNodesFrame(nodes, nodes', o + SPLIT_NODE_SIZE, p + 1, t.left);
      EncodesNodesFrame(nodes, nodes', o + SPLIT_NODE_SIZE + NodeCells(t.left), p + 1 + SplitCells(t.left), t.right);
    }
  }

  lemma {:induction false} EncodesSplitsFrame(splits: seq<real>, splits': seq<real>, p: int, t: Tree)
    requires EncodesSplits(splits, p, t) && |splits'| == |splits|
    requires forall i :: p <= i < p + SplitCells(t) ==> splits'[i] == splits[i]
    ensures EncodesSplits(splits', p, t)
    decreases t
  {
    if t.Split? {
      EncodesSplitsFrame(splits, splits', p + 1, t.left);
      EncodesSplitsFrame(splits, splits', p + 1 + SplitCells(t.left), t.right);
    }
  }

  lemma {:induction false} SeparatesFrame(t: Tree, rows: seq<Row>, rows': seq<Row>, nx: nat)
    requires Separates(t, rows, nx) && |rows'| == |rows|
    requires forall i :: Lo(t) <= i < Hi(t) ==> rows'[i] == rows[i]
    ensures Separates(t, rows', nx)
  {
    if t.Split? {
      SeparatesFrame(t.left, rows, rows', nx);
      SeparatesFrame(t.right, rows, rows', nx);
    }
  }

  predicate Agree(r: Row, r0: Row, nx: nat) {
    nx <= |r.xy| && nx <= |r0.xy| && r.xy[..nx] == r0.xy[..nx]
  }

  /** Rows [i1, i2) have the same first nx coordinates. */
  ghost predicate SamePoint(rows: seq<Row>, i1: int, i2: int, nx: nat) {
    0 <= i1 < i2 <= |rows| && forall i :: i1 <= i < i2 ==> Agree(rows[i], rows[i1], nx)
  }

  /** No leaf has more than `limit` rows, unless its rows cannot be told apart. */
  ghost predicate SmallLeaves(t: Tree, rows: seq<Row>, nx: nat, limit: int) {
    match t
    case Leaf(first, count) => count <= limit || SamePoint(rows, first, first + count, nx)
    case Split(_, _, left, right) => SmallLeaves(left, rows, nx, limit) && SmallLeaves(right, rows, nx, limit)
  }

  /** Thresholds that fit a box fit every larger box. */
  lemma {:induction false} SplitsInsideLarger(t: Tree, lo: Point, hi: Point, lo2: Point, hi2: Point)
    requires SplitsInside(t, lo, hi) && SubBox(lo, hi, lo2, hi2)
    ensures SplitsInside(t, lo2, hi2)
  {
    if t.Split? {
      SplitsInsideLarger(t.left, lo, hi[t.d := t.s], lo2, hi2[t.d := t.s]);
      SplitsInsideLarger(t.right, lo[t.d := t.s], hi, lo2[t.d := t.s], hi2);
    }
  }

  /** `b` is `a` with the rows of [lo, hi) rearranged. */
  ghost predicate Shuffled(a: seq<Row>, b: seq<Row>, lo: int, hi: int) {
    && 0 <= lo <= hi <= |a| == |b|
    && (forall i :: 0 <= i < |a| && !(lo <= i < hi) ==> b[i] == a[i])
    && multiset(b) == multiset(a)
  }

  function Exchanged(a: seq<Row>, i: int, j: int): (b: seq<Row>)
    requires 0 <= i < |a| && 0 <= j < |a|
    ensures |b| == |a|
  {
    a[i := a[j]][j := a[i]]
  }

  lemma {:induction false} ExchangedKeepsRows(a: seq<Row>, i: int, j: int)
    requires 0 <= i < |a| && 0 <= j < |a|
    ensures multiset(Exchanged(a, i, j)) == multiset(a)
  {
  }

  lemma {:induction false} Cancel(p: multiset<Row>, x: multiset<Row>, y: multiset<Row>, q: multiset<Row>)
    requires p + x + q == p + y + q
    ensures x == y
  {
    forall r ensures x[r] == y[r] {
      assert (p + x + q)[r] == (p + y + q)[r];
    }
  }

  /** The rearranged range holds the same rows. */
  lemma {:induction false} ShuffledRange(a: seq<Row>, b: seq<Row>, lo: int, hi: int)
    requires Shuffled(a, b, lo, hi)
    ensures multiset(b[lo..hi]) == multiset(a[lo..hi])
  {
    assert a == a[..lo] + a[lo..hi] + a[hi..];
    assert b == b[..lo] + b[lo..hi] + b[hi..];
    assert b[..lo] == a[..lo] && b[hi..] == a[hi..];
    Cancel(multiset(a[..lo]), multiset(a[lo..hi]), multiset(b[lo..hi]), multiset(a[hi..]));
  }

  /** Each rearranged row was somewhere in the range before. */
  lemma {:induction false} ShuffledOrigin(a: seq<Row>, b: seq<Row>, lo: int, hi: int, i: int) returns (j: int)
    requires Shuffled(a, b, lo, hi) && lo <= i < hi
    ensures lo <= j < hi && a[j] == b[i]
  {
    ShuffledRange(a, b, lo, hi);
    assert b[i] == b[lo..hi][i - lo];
    assert b[i] in multiset(a[lo..hi]);
    var k :| 0 <= k < hi - lo && a[lo..hi][k] == b[i];
    j := lo + k;
  }

  lemma {:induction false} ShuffledInBox(a: seq<Row>, b: seq<Row>, from: int, to: int, lo: Point, hi: Point)
    requires Shuffled(a, b, from, to)
    requires forall i :: from <= i < to ==> InBox(a[i].xy, lo, hi)
    ensures forall i :: from <= i < to ==> InBox(b[i].xy, lo, hi)
  {
    forall i | from <= i < to ensures InBox(b[i].xy, lo, hi) {
      var j := ShuffledOrigin(a, b, from, to, i);
    }
  }
}
