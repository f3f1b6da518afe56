/** The sliding-midpoint rule: where a node is split, and when it is a leaf. */
module KdSliding {
  import opened KdGeometry
  import opened KdShape

  /** Coordinate d of a row. */
  function Coord(r: Row, d: nat): real { if d < |r.xy| then r.xy[d] else 0.0 }

  /** Some row of [i1, i2) is below v in dimension d. */
  ghost predicate SomeBelow(a: seq<Row>, i1: int, i2: int, d: nat, v: real) {
    exists i :: 0 <= i1 <= i < i2 <= |a| && Coord(a[i], d) < v
  }

  /** Some row of [i1, i2) is above v in dimension d. */
  ghost predicate SomeAbove(a: seq<Row>, i1: int, i2: int, d: nat, v: real) {
    exists i :: 0 <= i1 <= i < i2 <= |a| && Coord(a[i], d) > v
  }

  /** The rows of [i1, i2) do not all agree in dimension d. */
  ghost predicate Differ(a: seq<Row>, i1: int, i2: int, d: nat) {
    exists i, k :: 0 <= i1 <= i < i2 <= |a| && i1 <= k < i2 && Coord(a[i], d) < Coord(a[k], d)
  }

  /** Dimension d is the first of the widest among those in which the rows do not all agree. */
  ghost predicate WidestDiffering(a: seq<Row>, i1: int, i2: int, lo: Point, hi: Point, d: nat) {
    && d < |lo| == |hi| && Differ(a, i1, i2, d)
    && forall j: nat {:trigger Differ(a, i1, i2, j)} :: j < |lo| && Differ(a, i1, i2, j) ==> NoWider(lo, hi, j, d)
  }

  /** Dimension j is no wider than d, and narrower if it comes before d. */
  predicate NoWider(lo: Point, hi: Point, j: nat, d: nat) {
    && j < |lo| == |hi| && d < |lo|
    && hi[j] - lo[j] <= hi[d] - lo[d] && (j < d ==> hi[j] - lo[j] < hi[d] - lo[d])
  }

  /** Rows [i1, i2) are cut at i3 with threshold s: at the middle if there are rows on both sides of it; else with one
      row of the least value on the left if there is none below the middle; else with one of the greatest value on the
      right. */
  ghost predicate SlidingCut(a: seq<Row>, i1: int, i3: int, i2: int, d: nat, s: real, middle: real) {
    && 0 <= i1 < i3 < i2 <= |a|
    && if SomeBelow(a, i1, i2, d, middle) && SomeAbove(a, i1, i2, d, middle) then
         s == middle && !SomeAbove(a, i1, i3, d, s) && forall i :: i3 <= i < i2 ==> Coord(a[i], d) > s
       else if !SomeBelow(a, i1, i2, d, middle) then
         i3 == i1 + 1 && Coord(a[i1], d) == s && !SomeBelow(a, i1, i2, d, s)
       else i3 == i2 - 1 && Coord(a[i3], d) == s && !SomeAbove(a, i1, i2, d, s)
  }

  /** More than `limit` rows [i1, i2) are cut at i3, in the first of the widest dimensions in which they differ. */
  ghost predicate Ruled(a: seq<Row>, i1: int, i3: int, i2: int, d: nat, s: real, lo: Point, hi: Point, limit: int) {
    && i2 - i1 > limit && WidestDiffering(a, i1, i2, lo, hi, d)
    && SlidingCut(a, i1, i3, i2, d, s, (lo[d] + hi[d]) / 2.0)
  }

  /** The tree follows the rule: a node is a leaf exactly if it has few rows or they cannot be told apart, and otherwise
      is cut in the first of the widest dimensions in which its rows differ, and its box with it. */
  ghost predicate Sliding(t: Tree, a: seq<Row>, lo: Point, hi: Point, limit: int) {
    match t
    case Leaf(first, count) => count <= limit || SamePoint(a, first, first + count, |lo|)
    case Split(d, s, left, right) =>
      && Ruled(a, Lo(t), Hi(left), Hi(t), d, s, lo, hi, limit)
      && Sliding(left, a, lo, hi[d := s], limit) && Sliding(right, a, lo[d := s], hi, limit)
  }

  /** A cut with rows on both sides of the middle is at the same distance from both faces of the box. */
  lemma {:induction false} TwoSidedIsHalfway(t: Tree, a: seq<Row>, lo: Point, hi: Point, limit: int)
    requires Sliding(t, a, lo, hi, limit) && t.Split?
    ensures t.d < |lo| == |hi|
    ensures SomeBelow(a, Lo(t), Hi(t), t.d, t.s) && SomeAbove(a, Lo(t), Hi(t), t.d, t.s) ==>
      t.s - lo[t.d] == hi[t.d] - t.s
  {
  }

  lemma {:induction false} SlidingSmallLeaves(t: Tree, a: seq<Row>, lo: Point, hi: Point, limit: int)
    requires Sliding(t, a, lo, hi, limit)
    ensures SmallLeaves(t, a, |lo|, limit)
  {
    if t.Split? {
      SlidingSmallLeaves(t.left, a, lo, hi[t.d := t.s], limit);
      SlidingSmallLeaves(t.right, a, lo[t.d := t.s], hi, limit);
    }
  }

  // ---------------------------------------------------------------- rearranged rows

  lemma {:induction false} ShuffledBelow(a: seq<Row>, b: seq<Row>, i1: int, i2: int, d: nat, v: real)
    requires Shuffled(a, b, i1, i2)
    ensures SomeBelow(a, i1, i2, d, v) ==> SomeBelow(b, i1, i2, d, v)
    ensures SomeAbove(a, i1, i2, d, v) ==> SomeAbove(b, i1, i2, d, v)
  {
    if SomeBelow(a, i1, i2, d, v) {
      var i :| i1 <= i < i2 && Coord(a[i], d) < v;
      var j := ShuffledOrigin(b, a, i1, i2, i);
    }
    if SomeAbove(a, i1, i2, d, v) {
      var i :| i1 <= i < i2 && Coord(a[i], d) > v;
      var j := ShuffledOrigin(b, a, i1, i2, i);
    }
  }

  lemma {:induction false} ShuffledDiffer(a: seq<Row>, b: seq<Row>, i1: int, i2: int, d: nat)
    requires Shuffled(a, b, i1, i2) && Differ(a, i1, i2, d)
    ensures Differ(b, i1, i2, d)
  {
    var i, k :| i1 <= i < i2 && i1 <= k < i2 && Coord(a[i], d) < Coord(a[k], d);
    var j := ShuffledOrigin(b, a, i1, i2, i);
    var m := ShuffledOrigin(b, a, i1, i2, k);
  }

  lemma {:induction false} ShuffledWidest(a: seq<Row>, b: seq<Row>, i1: int, i2: int, lo: Point, hi: Point, d: nat)
    requires Shuffled(a, b, i1, i2) && WidestDiffering(a, i1, i2, lo, hi, d)
    ensures WidestDiffering(b, i1, i2, lo, hi, d)
  {
    ShuffledDiffer(a, b, i1, i2, d);
    forall j: nat | j < |lo| && Differ(b, i1, i2, j) ensures NoWider(lo, hi, j, d) { ShuffledDiffer(b, a, i1, i2, j); }
  }

  lemma {:induction false} WiderShuffle(a: seq<Row>, b: seq<Row>, i1: int, i2: int, j1: int, j2: int)
    requires Shuffled(a, b, i1, i2) && 0 <= j1 <= i1 && i2 <= j2 <= |a|
    ensures Shuffled(a, b, j1, j2) && Shuffled(b, a, j1, j2)
  {
  }

  /** Rearranging either part keeps the cut. */
  lemma {:induction false} ShuffledCut(a: seq<Row>, b: seq<Row>, i1: int, i3: int, i2: int, d: nat, s: real,
                                       middle: real, j1: int, j2: int)
    requires (j1 == i1 && j2 == i3) || (j1 == i3 && j2 == i2)
    ensures SlidingCut(a, i1, i3, i2, d, s, middle) && Shuffled(a, b, j1, j2) ==>
      SlidingCut(b, i1, i3, i2, d, s, middle)
  {
    if SlidingCut(a, i1, i3, i2, d, s, middle) && Shuffled(a, b, j1, j2) {
      WiderShuffle(a, b, j1, j2, i1, i2);
      ShuffledBelow(a, b, i1, i2, d, middle);
      ShuffledBelow(b, a, i1, i2, d, middle);
      ShuffledBelow(b, a, i1, i2, d, s);
      SidesKept(a, b, i1, i3, i2, d, s, j1, j2);
      LoneRowStays(a, b, j1, j2);
    }
  }

  lemma {:induction false} SidesKept(a: seq<Row>, b: seq<Row>, i1: int, i3: int, i2: int, d: nat, s: real, j1: int,
                                     j2: int)
    requires 0 <= i1 < i3 < i2 <= |a| && ((j1 == i1 && j2 == i3) || (j1 == i3 && j2 == i2)) && Shuffled(a, b, j1, j2)
    ensures SomeAbove(b, i1, i3, d, s) ==> SomeAbove(a, i1, i3, d, s)
    ensures (forall i :: i3 <= i < i2 ==> Coord(a[i], d) > s) ==> forall i :: i3 <= i < i2 ==> Coord(b[i], d) > s
  {
    if j1 == i1 && j2 == i3 {
      WiderShuffle(a, b, i1, i3, i1, i3);
      ShuffledBelow(b, a, i1, i3, d, s);
    } else if forall i :: i3 <= i < i2 ==> Coord(a[i], d) > s {
      forall i | i3 <= i < i2 ensures Coord(b[i], d) > s { var j := ShuffledOrigin(a, b, i3, i2, i); }
    }
  }

  lemma {:induction false} LoneRowStays(a: seq<Row>, b: seq<Row>, i: int, k: int)
    requires Shuffled(a, b, i, k)
    ensures k == i + 1 ==> b[i] == a[i]
  {
    if k == i + 1 { var j := ShuffledOrigin(a, b, i, k, i); }
  }

  /** Generating both parts, one after the other, keeps what their node was cut by. */
  lemma {:induction false} ShuffledRuled(a: seq<Row>, b: seq<Row>, c: seq<Row>, i1: int, i3: int, i2: int, d: nat,
                                         s: real, lo: Point, hi: Point, limit: int)
    requires Ruled(a, i1, i3, i2, d, s, lo, hi, limit) && Shuffled(a, b, i1, i3) && Shuffled(b, c, i3, i2)
    ensures Ruled(c, i1, i3, i2, d, s, lo, hi, limit)
  {
    var middle := (lo[d] + hi[d]) / 2.0;
    WiderShuffle(a, b, i1, i3, i1, i2);
    WiderShuffle(b, c, i3, i2, i1, i2);
    ShuffledWidest(a, b, i1, i2, lo, hi, d);
    ShuffledWidest(b, c, i1, i2, lo, hi, d);
    ShuffledCut(a, b, i1, i3, i2, d, s, middle, i1, i3);
    ShuffledCut(b, c, i1, i3, i2, d, s, middle, i3, i2);
  }

  // ---------------------------------------------------------------- other rows, other boxes

  /** Whether a tree follows the rule depends on its own rows only. */
  lemma {:induction false} SlidingFrame(t: Tree, a: seq<Row>, b: seq<Row>, lo: Point, hi: Point, limit: int)
    requires Sliding(t, a, lo, hi, limit) && Separates(t, a, |lo|) && |a| == |b|
    requires forall i :: Lo(t) <= i < Hi(t) ==> b[i] == a[i]
    ensures Sliding(t, b, lo, hi, limit)
  {
    if t.Split? {
      SlidingFrame(t.left, a, b, lo, hi[t.d := t.s], limit);
      SlidingFrame(t.right, a, b, lo[t.d := t.s], hi, limit);
      RuledFrame(a, b, Lo(t), Hi(t.left), Hi(t), t.d, t.s, lo, hi, limit);
    }
  }

  lemma {:induction false} RuledFrame(a: seq<Row>, b: seq<Row>, i1: int, i3: int, i2: int, d: nat, s: real, lo: Point,
                                      hi: Point, limit: int)
    requires |a| == |b| && forall i :: 0 <= i1 <= i < i2 <= |a| ==> b[i] == a[i]
    ensures Ruled(a, i1, i3, i2, d, s, lo, hi, limit) ==> Ruled(b, i1, i3, i2, d, s, lo, hi, limit)
  {
    if Ruled(a, i1, i3, i2, d, s, lo, hi, limit) {
      forall j: nat | j < |lo| && Differ(b, i1, i2, j) ensures Differ(a, i1, i2, j) {}
    }
  }

  /** Two boxes have the same faces in every dimension in which the rows differ. */
  ghost predicate SameWhereDiffer(a: seq<Row>, i1: int, i2: int, lo: Point, hi: Point, lo2: Point, hi2: Point) {
    && |lo| == |hi| == |lo2| == |hi2|
    && forall j: nat {:trigger Differ(a, i1, i2, j)} :: j < |lo| && Differ(a, i1, i2, j) ==>
      SameFaces(lo, hi, lo2, hi2, j)
  }

  predicate SameFaces(lo: Point, hi: Point, lo2: Point, hi2: Point, j: nat) {
    j < |lo| == |hi| == |lo2| == |hi2| && lo[j] == lo2[j] && hi[j] == hi2[j]
  }

  /** Dimensions in which the rows agree have no say, so making the box flat there changes nothing. */
  lemma {:induction false} FlatteningUnseen(t: Tree, a: seq<Row>, lo: Point, hi: Point, lo2: Point, hi2: Point,
                                            limit: int)
    requires Sliding(t, a, lo, hi, limit) && Separates(t, a, |lo|)
      && SameWhereDiffer(a, Lo(t), Hi(t), lo, hi, lo2, hi2)
    ensures Sliding(t, a, lo2, hi2, limit)
  {
    if t.Split? {
      var d, s := t.d, t.s;
      assert SameFaces(lo, hi, lo2, hi2, d);
      HalfSame(a, Lo(t), Hi(t), Lo(t), Hi(t.left), lo, hi, lo2, hi2, lo, hi[d := s], lo2, hi2[d := s], d);
      HalfSame(a, Lo(t), Hi(t), Lo(t.right), Hi(t), lo, hi, lo2, hi2, lo[d := s], hi, lo2[d := s], hi2, d);
      FlatteningUnseen(t.left, a, lo, hi[d := s], lo2, hi2[d := s], limit);
      FlatteningUnseen(t.right, a, lo[d := s], hi, lo2[d := s], hi2, limit);
      forall j: nat | j < |lo2| && Differ(a, Lo(t), Hi(t), j) ensures NoWider(lo2, hi2, j, d) {
        assert NoWider(lo, hi, j, d) && SameFaces(lo, hi, lo2, hi2, j);
      }
    }
  }

  lemma {:induction false} HalfSame(a: seq<Row>, i1: int, i2: int, j1: int, j2: int, lo: Point, hi: Point, lo2: Point,
                                    hi2: Point, l: Point, h: Point, l2: Point, h2: Point, d: nat)
    requires SameWhereDiffer(a, i1, i2, lo, hi, lo2, hi2) && 0 <= i1 <= j1 <= j2 <= i2 <= |a|
    requires |l| == |h| == |l2| == |h2| == |lo| && d < |lo| && SameFaces(l, h, l2, h2, d)
    requires forall j :: 0 <= j < |lo| && j != d ==>
      l[j] == lo[j] && h[j] == hi[j] && l2[j] == lo2[j] && h2[j] == hi2[j]
    ensures SameWhereDiffer(a, j1, j2, l, h, l2, h2)
  {
    forall j: nat | j < |l| && Differ(a, j1, j2, j) ensures SameFaces(l, h, l2, h2, j) {
      if j != d {
        DifferWider(a, i1, i2, j1, j2, j);
        assert SameFaces(lo, hi, lo2, hi2, j);
      }
    }
  }

  lemma {:induction false} DifferWider(a: seq<Row>, i1: int, i2: int, j1: int, j2: int, d: nat)
    requires Differ(a, j1, j2, d) && 0 <= i1 <= j1 <= j2 <= i2 <= |a|
    ensures Differ(a, i1, i2, d)
  {
    var i, k :| j1 <= i < j2 && j1 <= k < j2 && Coord(a[i], d) < Coord(a[k], d);
  }

  /** A tree that follows the rule for the flattened box does so for the box itself. */
  lemma {:induction false} FlattenedSliding(t: Tree, a: seq<Row>, b: seq<Row>, lo: Point, hi: Point, d: nat, v: real,
                                            limit: int)
    requires d < |lo| == |hi| && Shuffled(a, b, Lo(t), Hi(t)) && Separates(t, b, |lo|)
    requires forall i :: Lo(t) <= i < Hi(t) ==> Coord(a[i], d) == v
    ensures Sliding(t, b, lo[d := v], hi[d := v], limit) ==> Sliding(t, b, lo, hi, limit)
  {
    if Sliding(t, b, lo[d := v], hi[d := v], limit) {
      if Differ(b, Lo(t), Hi(t), d) {
        WiderShuffle(a, b, Lo(t), Hi(t), Lo(t), Hi(t));
        ShuffledDiffer(b, a, Lo(t), Hi(t), d);
        assert false;
      }
      FlatteningUnseen(t, b, lo[d := v], hi[d := v], lo, hi, limit);
    }
  }

  /** A node whose rows were cut by the rule, over two trees that follow it. */
  lemma {:induction false} JoinSliding(b: seq<Row>, b1: seq<Row>, b2: seq<Row>, i1: int, i3: int, i2: int, d: nat,
                                       s: real, l: Tree, r: Tree, lo: Point, hi: Point, limit: int)
    requires d < |lo| == |hi| && Lo(l) == i1 && Hi(l) == i3 && Lo(r) == i3 && Hi(r) == i2
    ensures && Ruled(b, i1, i3, i2, d, s, lo, hi, limit)
            && Shuffled(b, b1, i1, i3) && Separates(l, b1, |lo|) && Sliding(l, b1, lo, hi[d := s], limit)
            && Shuffled(b1, b2, i3, i2) && Sliding(r, b2, lo[d := s], hi, limit)
            ==> Sliding(Split(d, s, l, r), b2, lo, hi, limit)
  {
    if && Ruled(b, i1, i3, i2, d, s, lo, hi, limit)
       && Shuffled(b, b1, i1, i3) && Separates(l, b1, |lo|) && Sliding(l, b1, lo, hi[d := s], limit)
       && Shuffled(b1, b2, i3, i2) {
      ShuffledRuled(b, b1, b2, i1, i3, i2, d, s, lo, hi, limit);
      SlidingFrame(l, b1, b2, lo, hi[d := s], limit);
    }
  }
}
