/** The reference for box queries: list the rows inside a box by scanning. */
module KdBoxScan {
  import opened KdGeometry
  import opened KdHeap
  import opened KdShape
  import opened KdBuild
  import opened KdNode

  /** Rows of [i1, i2) inside box [lo, hi], in row order, as a scan would list them. */
  function Inside(a: seq<Row>, i1: int, i2: int, lo: Point, hi: Point): (r: seq<Neighbor>)
    requires 0 <= i1 <= i2 <= |a|
    ensures |r| <= i2 - i1
    decreases i2 - i1
  {
    if i1 == i2 then []
    else Inside(a, i1, i2 - 1, lo, hi) + if InBox(a[i2 - 1].xy, lo, hi) then [Neighbor(0.0, i2 - 1)] else []
  }

  /** The list holds exactly the rows inside the box, each once. */
  lemma {:induction false} InsideIsExact(a: seq<Row>, i1: int, i2: int, lo: Point, hi: Point)
    requires 0 <= i1 <= i2 <= |a|
    ensures forall m :: 0 <= m < |Inside(a, i1, i2, lo, hi)| ==>
              var i := Inside(a, i1, i2, lo, hi)[m].idx; i1 <= i < i2 && InBox(a[i].xy, lo, hi)
    ensures forall i :: i1 <= i < i2 && InBox(a[i].xy, lo, hi) ==> Neighbor(0.0, i) in Inside(a, i1, i2, lo, hi)
    ensures forall m, m' :: 0 <= m < m' < |Inside(a, i1, i2, lo, hi)| ==>
              Inside(a, i1, i2, lo, hi)[m].idx < Inside(a, i1, i2, lo, hi)[m'].idx
    decreases i2 - i1
  {
    if i1 < i2 {
      InsideIsExact(a, i1, i2 - 1, lo, hi);
    }
  }

  lemma {:induction false} InsideConcat(a: seq<Row>, i: int, j: int, k: int, lo: Point, hi: Point)
    requires 0 <= i <= j <= k <= |a|
    ensures Inside(a, i, k, lo, hi) == Inside(a, i, j, lo, hi) + Inside(a, j, k, lo, hi)
    decreases k - j
  {
    if j < k {
      InsideConcat(a, i, j, k - 1, lo, hi);
    }
  }

  lemma {:induction false} InsideNone(a: seq<Row>, i1: int, i2: int, lo: Point, hi: Point)
    requires 0 <= i1 <= i2 <= |a|
    requires forall i :: i1 <= i < i2 ==> !InBox(a[i].xy, lo, hi)
    ensures Inside(a, i1, i2, lo, hi) == []
    decreases i2 - i1
  {
    if i1 < i2 {
      InsideNone(a, i1, i2 - 1, lo, hi);
    }
  }

  lemma {:induction false} ConcatAssoc<T>(a: seq<T>, b: seq<T>, c: seq<T>)
    ensures (a + b) + c == a + (b + c)
  {
  }

  /** Nothing lies inside an inverted box. */
  lemma {:induction false} InsideInverted(a: seq<Row>, i1: int, i2: int, lo: Point, hi: Point, j: int)
    requires 0 <= i1 <= i2 <= |a| && |lo| == |hi| && 0 <= j < |lo| && lo[j] > hi[j]
    ensures Inside(a, i1, i2, lo, hi) == []
  {
    InsideNone(a, i1, i2, lo, hi);
  }

  /** Rows whose coordinate `d` misses the query box are not inside it. */
  lemma {:induction false} SkipRange(a: seq<Row>, i1: int, i2: int, d: nat, lo: Point, hi: Point)
    requires 0 <= i1 <= i2 <= |a| && d < |lo| == |hi|
    requires forall i :: i1 <= i < i2 ==> d < |a[i].xy| && (a[i].xy[d] < lo[d] || a[i].xy[d] > hi[d])
    ensures Inside(a, i1, i2, lo, hi) == []
  {
    InsideNone(a, i1, i2, lo, hi);
  }

  /** The rows found in a subtree, by the descent of the box query. */
  function Descended(a: seq<Row>, t: Tree, lo: Point, hi: Point): (r: seq<Neighbor>)
    requires Separates(t, a, |lo|) && |lo| == |hi|
    ensures r == Inside(a, Lo(t), Hi(t), lo, hi)
    decreases t, 0
  {
    match t
    case Leaf(_, _) => Inside(a, Lo(t), Hi(t), lo, hi)
    case Split(d, s, l, r) =>
      assert Separates(l, a, |lo|) && Separates(r, a, |lo|);
      InsideConcat(a, Lo(t), Hi(l), Hi(t), lo, hi);
      assert s < lo[d] ==> Inside(a, Lo(l), Hi(l), lo, hi) == [] by {
        if s < lo[d] { SkipRange(a, Lo(l), Hi(l), d, lo, hi); }
      }
      assert s > hi[d] ==> Inside(a, Lo(r), Hi(r), lo, hi) == [] by {
        if s > hi[d] { SkipRange(a, Lo(r), Hi(r), d, lo, hi); }
      }
      DescendedIf(s >= lo[d], a, l, lo, hi) + DescendedIf(s <= hi[d], a, r, lo, hi)
  }

  function DescendedIf(meets: bool, a: seq<Row>, t: Tree, lo: Point, hi: Point): (r: seq<Neighbor>)
    requires Separates(t, a, |lo|) && |lo| == |hi|
    ensures r == if meets then Inside(a, Lo(t), Hi(t), lo, hi) else []
    decreases t, 1
  {
    if meets then Descended(a, t, lo, hi) else []
  }

  /** What the left and the right child of a split node contribute. */
  function LeftPart(a: seq<Row>, t: Tree, lo: Point, hi: Point): (r: seq<Neighbor>)
    requires Separates(t, a, |lo|) && |lo| == |hi| && t.Split?
    ensures |r| <= Hi(t.left) - Lo(t.left)
  {
    DescendedIf(t.s >= lo[t.d], a, t.left, lo, hi)
  }

  function RightPart(a: seq<Row>, t: Tree, lo: Point, hi: Point): (r: seq<Neighbor>)
    requires Separates(t, a, |lo|) && |lo| == |hi| && t.Split?
    ensures |r| <= Hi(t.right) - Lo(t.right)
  {
    DescendedIf(t.s <= hi[t.d], a, t.right, lo, hi)
  }

  lemma {:induction false} DescendedSplit(a: seq<Row>, t: Tree, lo: Point, hi: Point, h: seq<Neighbor>)
    requires Separates(t, a, |lo|) && |lo| == |hi| && t.Split?
    ensures (h + LeftPart(a, t, lo, hi)) + RightPart(a, t, lo, hi) == h + Descended(a, t, lo, hi)
    ensures Hi(t) - Lo(t) == (Hi(t.left) - Lo(t.left)) + (Hi(t.right) - Lo(t.right))
    ensures Lo(t.left) < Hi(t.left) && Lo(t.right) < Hi(t.right)
  {
    ConcatAssoc(h, LeftPart(a, t, lo, hi), RightPart(a, t, lo, hi));
  }

  /** The coordinate loop of the leaf case. */
  method RowInBox(p: Point, lo: Point, hi: Point) returns (inbox: bool)
    requires |lo| == |hi| <= |p|
    ensures inbox == InBox(p, lo, hi)
  {
    inbox := true;
    for j := 0 to |lo|
      invariant inbox == forall k :: 0 <= k < j ==> lo[k] <= p[k] <= hi[k]
    {
      inbox := inbox && p[j] >= lo[j];
      inbox := inbox && p[j] <= hi[j];
    }
  }

  /** Whether two boxes have no common point, judged face by face. */
  method BoxesMiss(lo: Point, hi: Point, lo2: Point, hi2: Point) returns (miss: bool)
    requires |lo| == |hi| == |lo2| == |hi2|
    ensures miss <==> exists j :: 0 <= j < |lo| && (lo[j] > hi2[j] || hi[j] < lo2[j])
  {
    for j := 0 to |lo|
      invariant forall k :: 0 <= k < j ==> !(lo[k] > hi2[k] || hi[k] < lo2[k])
    {
      if lo[j] > hi2[j] {
        return true;
      }
      if hi[j] < lo2[j] {
        return true;
      }
    }
    return false;
  }
}
