/** Building the kd-tree: rows are rearranged in place while the tree is packed into flat vectors. */
module KdBuild {
  import opened Reals
  import opened KdGeometry
  import opened KdShape
  import opened KdSliding

  /** Dimensions in which the box still has width: the second part of the termination measure. */
  function WideDims(lo: Point, hi: Point): nat
    requires |lo| == |hi|
  {
    if |lo| == 0 then 0
    else
      var k := |lo| - 1;
      WideDims(lo[..k], hi[..k]) + if lo[k] != hi[k] then 1 else 0
  }

  lemma {:induction false} FlattenDim(lo: Point, hi: Point, d: nat, v: real)
    requires |lo| == |hi| && d < |lo| && lo[d] != hi[d]
    ensures WideDims(lo[d := v], hi[d := v]) == WideDims(lo, hi) - 1
  {
    var k := |lo| - 1;
    if d == k {
      assert lo[d := v][..k] == lo[..k] && hi[d := v][..k] == hi[..k];
    } else {
      assert lo[d := v][..k] == lo[..k][d := v] && hi[d := v][..k] == hi[..k][d := v];
      FlattenDim(lo[..k], hi[..k], d, v);
    }
  }

  /** The first position of a greatest value. */
  function FirstMax(vals: seq<real>): (m: nat)
    requires vals != []
    ensures m < |vals|
  {
    var k := |vals| - 1;
    if k == 0 then 0
    else
      var m := FirstMax(vals[..k]);
      if vals[k] > vals[m] then k else m
  }

  /** The first position of a least value. */
  function FirstMin(vals: seq<real>): (m: nat)
    requires vals != []
    ensures m < |vals|
  {
    var k := |vals| - 1;
    if k == 0 then 0
    else
      var m := FirstMin(vals[..k]);
      if vals[k] < vals[m] then k else m
  }

  function CountBelow(vals: seq<real>, s: real): nat {
    if vals == [] then 0
    else
      var k := |vals| - 1;
      (if vals[k] < s then 1 else 0) + CountBelow(vals[..k], s)
  }

  function CountAbove(vals: seq<real>, s: real): nat {
    if vals == [] then 0
    else
      var k := |vals| - 1;
      (if vals[k] > s then 1 else 0) + CountAbove(vals[..k], s)
  }

  lemma {:induction false} FirstMaxCorrect(vals: seq<real>)
    requires vals != []
    ensures forall i :: 0 <= i < |vals| ==> vals[i] <= vals[FirstMax(vals)]
    ensures forall i :: 0 <= i < FirstMax(vals) ==> vals[i] < vals[FirstMax(vals)]
  {
    if |vals| > 1 {
      FirstMaxCorrect(vals[..|vals| - 1]);
    }
  }

  lemma {:induction false} FirstMinCorrect(vals: seq<real>)
    requires vals != []
    ensures forall i :: 0 <= i < |vals| ==> vals[FirstMin(vals)] <= vals[i]
    ensures forall i :: 0 <= i < FirstMin(vals) ==> vals[FirstMin(vals)] < vals[i]
  {
    if |vals| > 1 {
      FirstMinCorrect(vals[..|vals| - 1]);
    }
  }

  lemma {:induction false} CountsCorrect(vals: seq<real>, s: real)
    ensures CountBelow(vals, s) == 0 <==> forall i :: 0 <= i < |vals| ==> vals[i] >= s
    ensures CountAbove(vals, s) == 0 <==> forall i :: 0 <= i < |vals| ==> vals[i] <= s
  {
    if vals != [] {
      CountsCorrect(vals[..|vals| - 1], s);
    }
  }

  /** One pass over a coordinate: where the extremes occur, and how many values lie on each side of `s`. */
  method Survey(vals: seq<real>, s: real)
    returns (minv: real, maxv: real, minidx: nat, maxidx: nat, cntless: nat, cntgreater: nat)
    requires vals != []
    ensures minidx == FirstMin(vals) && minv == vals[minidx]
    ensures maxidx == FirstMax(vals) && maxv == vals[maxidx]
    ensures cntless == CountBelow(vals, s) && cntgreater == CountAbove(vals, s)
  {
    minv, maxv, minidx, maxidx := vals[0], vals[0], 0, 0;
    cntless, cntgreater := 0, 0;
    for i := 0 to |vals|
      invariant minidx == (if i == 0 then 0 else FirstMin(vals[..i])) && minv == vals[minidx]
      invariant maxidx == (if i == 0 then 0 else FirstMax(vals[..i])) && maxv == vals[maxidx]
      invariant cntless == CountBelow(vals[..i], s) && cntgreater == CountAbove(vals[..i], s)
    {
      var v := vals[i];
      assert vals[..i + 1][..i] == vals[..i];
      if v < minv {
        minv, minidx := v, i;
      }
      if v > maxv {
        maxv, maxidx := v, i;
      }
      if v < s {
        cntless := cntless + 1;
      }
      if v > s {
        cntgreater := cntgreater + 1;
      }
    }
    assert vals[..|vals|] == vals;
  }

  /** Two-pointer partition of the unprocessed rows [l, r] around `s` in dimension `d`. */
  ghost function Parted(a: seq<Row>, l: int, r: int, d: nat, s: real): (seq<Row>, int)
    requires 0 <= l <= r < |a| && forall i :: l <= i <= r ==> d < |a[i].xy|
    decreases r - l
  {
    if a[l].xy[d] <= s then
      if l == r then (a, l + 1) else Parted(a, l + 1, r, d, s)
    else
      if l == r then (a, l) else Parted(Exchanged(a, l, r), l, r - 1, d, s)
  }

  lemma {:induction false} PartedOrders(a: seq<Row>, l: int, r: int, d: nat, s: real)
    requires 0 <= l <= r < |a| && forall i :: l <= i <= r ==> d < |a[i].xy|
    ensures var (b, m) := Parted(a, l, r, d, s);
            && l <= m <= r + 1 && |b| == |a|
            && (forall i :: 0 <= i < |a| && !(l <= i <= r) ==> b[i] == a[i])
            && (forall i :: l <= i < m ==> d < |b[i].xy| && b[i].xy[d] <= s)
            && (forall i :: m <= i <= r ==> d < |b[i].xy| && b[i].xy[d] > s)
    decreases r - l
  {
    if l < r {
      if a[l].xy[d] <= s {
        PartedOrders(a, l + 1, r, d, s);
      } else {
        PartedOrders(Exchanged(a, l, r), l, r - 1, d, s);
      }
    }
  }

  lemma {:induction false} PartedKeepsRows(a: seq<Row>, l: int, r: int, d: nat, s: real)
    requires 0 <= l <= r < |a| && forall i :: l <= i <= r ==> d < |a[i].xy|
    ensures multiset(Parted(a, l, r, d, s).0) == multiset(a)
    decreases r - l
  {
    if l < r {
      if a[l].xy[d] <= s {
        PartedKeepsRows(a, l + 1, r, d, s);
      } else {
        PartedKeepsRows(Exchanged(a, l, r), l, r - 1, d, s);
        ExchangedKeepsRows(a, l, r);
      }
    }
  }

  /** A midpoint split with rows strictly on both sides of `s` leaves neither part empty. */
  lemma {:induction false} PartedCorrect(a: seq<Row>, i1: int, i2: int, d: nat, s: real, below: int, above: int)
    requires 0 <= i1 < i2 <= |a| && forall i :: i1 <= i < i2 ==> d < |a[i].xy|
    requires i1 <= below < i2 && a[below].xy[d] < s
    requires i1 <= above < i2 && a[above].xy[d] > s
    ensures var (b, m) := Parted(a, i1, i2 - 1, d, s);
            && i1 < m < i2 && Shuffled(a, b, i1, i2)
            && (forall i :: i1 <= i < m ==> d < |b[i].xy| && b[i].xy[d] <= s)
            && (forall i :: m <= i < i2 ==> d < |b[i].xy| && b[i].xy[d] > s)
  {
    var b := Parted(a, i1, i2 - 1, d, s).0;
    PartedOrders(a, i1, i2 - 1, d, s);
    PartedKeepsRows(a, i1, i2 - 1, d, s);
    var j := ShuffledOrigin(b, a, i1, i2, below);
    var k := ShuffledOrigin(b, a, i1, i2, above);
  }

  /** `s` splits rows [i1, i2) at `i3` into two non-empty parts, left at most and right at least `s`. */
  ghost predicate GoodSplit(a: seq<Row>, i1: int, i3: int, i2: int, d: nat, s: real) {
    && 0 <= i1 < i3 < i2 <= |a|
    && (forall i :: i1 <= i < i3 ==> d < |a[i].xy| && a[i].xy[d] <= s)
    && (forall i :: i3 <= i < i2 ==> d < |a[i].xy| && a[i].xy[d] >= s)
  }

  lemma {:induction false} SlideToMin(a: seq<Row>, i1: int, i2: int, d: nat, k: int)
    requires 0 <= i1 < i2 - 1 < |a| && i1 <= k < i2
    requires forall i :: i1 <= i < i2 ==> d < |a[i].xy|
    requires forall i :: i1 <= i < i2 ==> a[k].xy[d] <= a[i].xy[d]
    ensures Shuffled(a, Exchanged(a, k, i1), i1, i2)
    ensures GoodSplit(Exchanged(a, k, i1), i1, i1 + 1, i2, d, a[k].xy[d])
    ensures k == i1 ==> Exchanged(a, k, i1) == a
  {
    ExchangedKeepsRows(a, k, i1);
  }

  lemma {:induction false} SlideToMax(a: seq<Row>, i1: int, i2: int, d: nat, k: int)
    requires 0 <= i1 < i2 - 1 < |a| && i1 <= k < i2
    requires forall i :: i1 <= i < i2 ==> d < |a[i].xy|
    requires forall i :: i1 <= i < i2 ==> a[k].xy[d] >= a[i].xy[d]
    ensures Shuffled(a, Exchanged(a, k, i2 - 1), i1, i2)
    ensures GoodSplit(Exchanged(a, k, i2 - 1), i1, i2 - 1, i2, d, a[k].xy[d])
    ensures k == i2 - 1 ==> Exchanged(a, k, i2 - 1) == a
  {
    ExchangedKeepsRows(a, k, i2 - 1);
  }

  /** All rows carry at least `nx` coordinates. */
  ghost predicate Wide(a: seq<Row>, nx: nat) {
    forall i :: 0 <= i < |a| ==> |a[i].xy| >= nx
  }

  lemma {:induction false} ShuffledWide(a: seq<Row>, b: seq<Row>, lo: int, hi: int, nx: nat)
    requires Shuffled(a, b, lo, hi) && Wide(a, nx)
    ensures Wide(b, nx)
  {
    forall i | 0 <= i < |b| ensures |b[i].xy| >= nx {
      if lo <= i < hi {
        var j := ShuffledOrigin(a, b, lo, hi, i);
      }
    }
  }

  /** Coordinate `d` of rows [i1, i2). */
  function Column(a: seq<Row>, i1: int, i2: int, d: nat): (c: seq<real>)
    requires 0 <= i1 < i2 <= |a| && Wide(a, d + 1)
    ensures |c| == i2 - i1 && forall i {:trigger c[i]} :: 0 <= i < i2 - i1 ==> c[i] == a[i1 + i].xy[d]
  {
    seq(i2 - i1, i requires 0 <= i < i2 - i1 => a[i1 + i].xy[d])
  }

  /** What one pass over a column finds out: positions of the extremes, and the counts around `mid`. */
  datatype Summary = Summary(kmin: int, kmax: int, less: nat, greater: nat)

  function Summarize(a: seq<Row>, i1: int, i2: int, d: nat, mid: real): (y: Summary)
    requires 0 <= i1 < i2 <= |a| && Wide(a, d + 1)
  {
    var vals := Column(a, i1, i2, d);
    Summary(i1 + FirstMin(vals), i1 + FirstMax(vals), CountBelow(vals, mid), CountAbove(vals, mid))
  }

  ghost predicate Surveyed(a: seq<Row>, i1: int, i2: int, d: nat, mid: real, y: Summary) {
    && 0 <= i1 <= y.kmin < i2 <= |a| && i1 <= y.kmax < i2
    && (forall i :: i1 <= i < i2 ==> d < |a[i].xy|)
    && (forall i :: i1 <= i < i2 ==> a[y.kmin].xy[d] <= a[i].xy[d] <= a[y.kmax].xy[d])
    && (y.less == 0 <==> a[y.kmin].xy[d] >= mid) && (y.greater == 0 <==> a[y.kmax].xy[d] <= mid)
  }

  lemma {:induction false} SummarizeCorrect(a: seq<Row>, i1: int, i2: int, d: nat, mid: real)
    requires 0 <= i1 < i2 <= |a| && Wide(a, d + 1)
    ensures Surveyed(a, i1, i2, d, mid, Summarize(a, i1, i2, d, mid))
  {
    var vals := Column(a, i1, i2, d);
    var lo, hi := FirstMin(vals), FirstMax(vals);
    FirstMinCorrect(vals);
    FirstMaxCorrect(vals);
    CountsCorrect(vals, mid);
    assert vals[lo] == a[i1 + lo].xy[d] && vals[hi] == a[i1 + hi].xy[d];
    forall i | i1 <= i < i2 ensures vals[lo] <= a[i].xy[d] <= vals[hi] {
      assert vals[i - i1] == a[i].xy[d];
    }
  }

  /** The sliding-midpoint rule: rows, boundary and threshold after the split around `mid`. */
  ghost function Divided(a: seq<Row>, i1: int, i2: int, d: nat, mid: real, y: Summary): (seq<Row>, int, real)
    requires Surveyed(a, i1, i2, d, mid, y)
  {
    if y.less > 0 && y.greater > 0 then
      var (b, m) := Parted(a, i1, i2 - 1, d, mid);
      (b, m, mid)
    else if y.less == 0 then (Exchanged(a, y.kmin, i1), i1 + 1, a[y.kmin].xy[d])
    else (Exchanged(a, y.kmax, i2 - 1), i2 - 1, a[y.kmax].xy[d])
  }

  lemma {:induction false} DividedCorrect(a: seq<Row>, i1: int, i2: int, d: nat, mid: real, y: Summary)
    requires Surveyed(a, i1, i2, d, mid, y) && a[y.kmin].xy[d] != a[y.kmax].xy[d]
    ensures var (b, i3, s) := Divided(a, i1, i2, d, mid, y);
            Shuffled(a, b, i1, i2) && GoodSplit(b, i1, i3, i2, d, s) && a[y.kmin].xy[d] <= s <= a[y.kmax].xy[d]
  {
    if y.less > 0 && y.greater > 0 {
      PartedCorrect(a, i1, i2, d, mid, y.kmin, y.kmax);
    } else if y.less == 0 {
      SlideToMin(a, i1, i2, d, y.kmin);
    } else {
      SlideToMax(a, i1, i2, d, y.kmax);
    }
  }

  function Widths(lo: Point, hi: Point): (w: seq<real>)
    requires |lo| == |hi|
    ensures |w| == |lo| && forall j {:trigger w[j]} :: 0 <= j < |lo| ==> w[j] == hi[j] - lo[j]
  {
    seq(|lo|, j requires 0 <= j < |lo| => hi[j] - lo[j])
  }

  /** Rearranging the two parts separately keeps the threshold between them. */
  lemma {:induction false} GoodSplitKept(b: seq<Row>, b1: seq<Row>, b2: seq<Row>, i1: int, i3: int, i2: int, d: nat,
                                         s: real)
    requires GoodSplit(b, i1, i3, i2, d, s)
    requires Shuffled(b, b1, i1, i3) && Shuffled(b1, b2, i3, i2)
    ensures GoodSplit(b2, i1, i3, i2, d, s)
  {
    forall i | i1 <= i < i3 ensures d < |b2[i].xy| && b2[i].xy[d] <= s {
      var j := ShuffledOrigin(b, b1, i1, i3, i);
    }
    forall i | i3 <= i < i2 ensures d < |b2[i].xy| && b2[i].xy[d] >= s {
      var j := ShuffledOrigin(b1, b2, i3, i2, i);
    }
  }

  ghost predicate AllInBox(a: seq<Row>, i1: int, i2: int, lo: Point, hi: Point) {
    && 0 <= i1 < i2 <= |a| && |lo| == |hi| && Wide(a, |lo|)
    && forall i :: i1 <= i < i2 ==> InBox(a[i].xy, lo, hi)
  }

  /** After a good split the threshold lies in the box and the rows of each part in their half of it. */
  lemma {:induction false} HalvesInBox(a: seq<Row>, b: seq<Row>, i1: int, i3: int, i2: int, d: nat, s: real, lo: Point,
                                       hi: Point)
    requires d < |lo| == |hi|
    ensures AllInBox(a, i1, i2, lo, hi) && Shuffled(a, b, i1, i2) && GoodSplit(b, i1, i3, i2, d, s)
            ==>
            && lo[d] <= s <= hi[d]
            && AllInBox(b, i1, i3, lo, hi[d := s]) && AllInBox(b, i3, i2, lo[d := s], hi)
  {
    if AllInBox(a, i1, i2, lo, hi) && Shuffled(a, b, i1, i2) && GoodSplit(b, i1, i3, i2, d, s) {
      ShuffledInBox(a, b, i1, i2, lo, hi);
      ShuffledWide(a, b, i1, i2, |lo|);
      assert InBox(b[i1].xy, lo, hi) && InBox(b[i3].xy, lo, hi);
    }
  }

  /** A box made flat at the common value still holds the rows. */
  lemma {:induction false} FlatInBox(a: seq<Row>, i1: int, i2: int, d: nat, v: real, lo: Point, hi: Point)
    requires d < |lo| && AllInBox(a, i1, i2, lo, hi)
    requires forall i :: i1 <= i < i2 ==> a[i].xy[d] == v
    ensures AllInBox(a, i1, i2, lo[d := v], hi[d := v]) && SubBox(lo[d := v], hi[d := v], lo, hi)
  {
    assert InBox(a[i1].xy, lo, hi);
  }

  lemma {:induction false} ShuffledStillInBox(a: seq<Row>, b: seq<Row>, i1: int, i2: int, lo: Point, hi: Point)
    requires AllInBox(a, i1, i2, lo, hi) && Shuffled(a, b, i1, i2)
    ensures AllInBox(b, i1, i2, lo, hi)
  {
    ShuffledInBox(a, b, i1, i2, lo, hi);
    ShuffledWide(a, b, i1, i2, |lo|);
  }

  /** Rows of the upper part stay in their half box while the lower part is rearranged. */
  lemma {:induction false} OtherHalfInBox(b: seq<Row>, b1: seq<Row>, i1: int, i3: int, i2: int, lo: Point, hi: Point)
    ensures AllInBox(b, i3, i2, lo, hi) && Shuffled(b, b1, i1, i3) ==> AllInBox(b1, i3, i2, lo, hi)
  {
    if AllInBox(b, i3, i2, lo, hi) && Shuffled(b, b1, i1, i3) {
      ShuffledWide(b, b1, i1, i3, |lo|);
    }
  }

  /** Tree `t` covers rows [i1, i2) of `a`, separates them, and its thresholds fit box [lo, hi]. */
  ghost predicate TreeFor(t: Tree, a: seq<Row>, i1: int, i2: int, lo: Point, hi: Point) {
    Lo(t) == i1 && Hi(t) == i2 && Separates(t, a, |lo|) && SplitsInside(t, lo, hi)
  }

  /** The two generated parts and the threshold make up the tree of the whole range. */
  lemma {:induction false} JoinHalves(b: seq<Row>, b1: seq<Row>, b2: seq<Row>, i1: int, i3: int, i2: int, d: nat,
                                      s: real,
                   l: Tree, r: Tree, lo: Point, hi: Point)
    requires d < |lo| == |hi|
    ensures && GoodSplit(b, i1, i3, i2, d, s) && lo[d] <= s <= hi[d]
            && Shuffled(b, b1, i1, i3) && TreeFor(l, b1, i1, i3, lo, hi[d := s])
            && Shuffled(b1, b2, i3, i2) && TreeFor(r, b2, i3, i2, lo[d := s], hi)
            ==> TreeFor(Split(d, s, l, r), b2, i1, i2, lo, hi)
  {
    if && GoodSplit(b, i1, i3, i2, d, s) && Shuffled(b, b1, i1, i3) && Shuffled(b1, b2, i3, i2)
       && TreeFor(l, b1, i1, i3, lo, hi[d := s]) {
      SeparatesFrame(l, b1, b2, |lo|);
      GoodSplitKept(b, b1, b2, i1, i3, i2, d, s);
    }
  }

  /** What the sliding-midpoint division does is what the rule says. */
  lemma {:induction false} DividedSlides(a: seq<Row>, i1: int, i2: int, d: nat, mid: real, y: Summary)
    requires Surveyed(a, i1, i2, d, mid, y) && a[y.kmin].xy[d] != a[y.kmax].xy[d]
    ensures var (b, i3, s) := Divided(a, i1, i2, d, mid, y); SlidingCut(b, i1, i3, i2, d, s, mid)
  {
    DividedCorrect(a, i1, i2, d, mid, y);
    var b := Divided(a, i1, i2, d, mid, y).0;
    SidesOfMiddle(a, b, i1, i2, d, mid, y);
    if y.less > 0 && y.greater > 0 {
      PartedCorrect(a, i1, i2, d, mid, y.kmin, y.kmax);
    } else if y.less == 0 {
      ExtremesKept(a, b, i1, i2, d, mid, y);
    } else {
      ExtremesKept(a, b, i1, i2, d, mid, y);
    }
  }

  lemma {:induction false} SidesOfMiddle(a: seq<Row>, b: seq<Row>, i1: int, i2: int, d: nat, mid: real, y: Summary)
    requires Surveyed(a, i1, i2, d, mid, y) && Shuffled(a, b, i1, i2)
    ensures y.less > 0 <==> SomeBelow(b, i1, i2, d, mid)
    ensures y.greater > 0 <==> SomeAbove(b, i1, i2, d, mid)
  {
    WiderShuffle(a, b, i1, i2, i1, i2);
    ShuffledBelow(a, b, i1, i2, d, mid);
    ShuffledBelow(b, a, i1, i2, d, mid);
    assert y.less > 0 ==> Coord(a[y.kmin], d) < mid;
    assert y.greater > 0 ==> Coord(a[y.kmax], d) > mid;
  }

  lemma {:induction false} ExtremesKept(a: seq<Row>, b: seq<Row>, i1: int, i2: int, d: nat, mid: real, y: Summary)
    requires Surveyed(a, i1, i2, d, mid, y) && Shuffled(a, b, i1, i2)
    ensures !SomeBelow(b, i1, i2, d, a[y.kmin].xy[d]) && !SomeAbove(b, i1, i2, d, a[y.kmax].xy[d])
  {
    WiderShuffle(a, b, i1, i2, i1, i2);
    ShuffledBelow(b, a, i1, i2, d, a[y.kmin].xy[d]);
    ShuffledBelow(b, a, i1, i2, d, a[y.kmax].xy[d]);
  }

  /** The first of the widest dimensions is also the first of the widest in which the rows differ, if they do. */
  lemma {:induction false} WidestOfAll(a: seq<Row>, i1: int, i2: int, lo: Point, hi: Point, d: nat, j: int, k: int)
    requires AllInBox(a, i1, i2, lo, hi) && d < |lo| && d == FirstMax(Widths(lo, hi))
    requires i1 <= j < i2 && i1 <= k < i2 && a[j].xy[d] < a[k].xy[d]
    ensures WidestDiffering(a, i1, i2, lo, hi, d)
  {
    FirstMaxCorrect(Widths(lo, hi));
    assert Coord(a[j], d) < Coord(a[k], d);
    forall m: nat | m < |lo| ensures NoWider(lo, hi, m, d) {
      assert Widths(lo, hi)[m] == hi[m] - lo[m] && Widths(lo, hi)[d] == hi[d] - lo[d];
    }
  }

  /** Rows in a box without width cannot be told apart. */
  lemma {:induction false} FlatBoxSame(a: seq<Row>, i1: int, i2: int, lo: Point, hi: Point, d: nat)
    requires AllInBox(a, i1, i2, lo, hi) && d < |lo| == |hi| && d == FirstMax(Widths(lo, hi)) && hi[d] - lo[d] == 0.0
    ensures SamePoint(a, i1, i2, |lo|)
  {
    FirstMaxCorrect(Widths(lo, hi));
    forall i | i1 <= i < i2 ensures Agree(a[i], a[i1], |lo|) {
      assert InBox(a[i].xy, lo, hi) && InBox(a[i1].xy, lo, hi);
      forall j | 0 <= j < |lo| ensures a[i].xy[j] == a[i1].xy[j] { assert Widths(lo, hi)[j] <= Widths(lo, hi)[d]; }
    }
  }

  /** `b` differs from `a` in the cells [from, to) only. */
  ghost predicate SameOutside<T>(a: seq<T>, b: seq<T>, from: int, to: int) {
    |b| == |a| && forall i :: 0 <= i < |a| && !(from <= i < to) ==> b[i] == a[i]
  }

  /** The first cells of a split node; cell 4 is filled in after the left child is generated. */
  ghost predicate IsHeader(nodes: seq<int>, o: int, p: int, d: int) {
    && 0 <= o && o + SPLIT_NODE_SIZE <= |nodes|
    && nodes[o] == 0 && nodes[o + 1] == d && nodes[o + 2] == p && nodes[o + 3] == o + SPLIT_NODE_SIZE
  }

  /** Header, left child, link to the right child, right child: together they encode the split. */
  lemma {:induction false} JoinNodes(h: seq<int>, n1: seq<int>, n2: seq<int>, n3: seq<int>, o: int, o1: int, o2: int,
                                     o3: int,
                  p: int, p1: int, p2: int, d: nat, s: real, l: Tree, r: Tree)
    requires o1 == o + SPLIT_NODE_SIZE && o2 == o1 + NodeCells(l) && o3 == o2 + NodeCells(r)
    requires p1 == p + 1 && p2 == p1 + SplitCells(l)
    ensures && IsHeader(h, o, p, d)
            && EncodesNodes(n1, o1, p1, l) && SameOutside(h, n1, o1, o2)
            && SameOutside(n1, n2, o + 4, o + 5) && n2[o + 4] == o2
            && EncodesNodes(n3, o2, p2, r) && SameOutside(n2, n3, o2, o3)
            ==> EncodesNodes(n3, o, p, Split(d, s, l, r)) && SameOutside(h, n3, o, o3)
  {
    if && IsHeader(h, o, p, d)
       && EncodesNodes(n1, o1, p1, l) && SameOutside(h, n1, o1, o2)
       && SameOutside(n1, n2, o + 4, o + 5) && n2[o + 4] == o2
       && SameOutside(n2, n3, o2, o3) {
      EncodesNodesFrame(n1, n3, o1, p1, l);
    }
  }

  lemma {:induction false} JoinSplits(h: seq<real>, s1: seq<real>, s2: seq<real>, p: int, p1: int, p2: int, p3: int,
                   d: nat, s: real, l: Tree, r: Tree)
    requires 0 <= p < |h| && h[p] == s
    requires p1 == p + 1 && p2 == p1 + SplitCells(l) && p3 == p2 + SplitCells(r)
    ensures && EncodesSplits(s1, p1, l) && SameOutside(h, s1, p1, p2)
            && EncodesSplits(s2, p2, r) && SameOutside(s1, s2, p2, p3)
            ==> EncodesSplits(s2, p, Split(d, s, l, r)) && SameOutside(h, s2, p, p3)
  {
    if EncodesSplits(s1, p1, l) && SameOutside(h, s1, p1, p2) && SameOutside(s1, s2, p2, p3) {
      EncodesSplitsFrame(s1, s2, p1, l);
    }
  }

  /** The row the tree stores for input row `row`: the coordinates, then the row itself. */
  function Stored(row: seq<real>, tag: int, nx: nat, ny: nat): Row
    requires |row| >= nx + ny
  {
    Row(row[..nx] + row[..nx + ny], tag)
  }

  function StoredRows(xy: seq<seq<real>>, tags: seq<int>, n: nat, nx: nat, ny: nat): (r: seq<Row>)
    requires |xy| >= n && |tags| >= n && forall i :: 0 <= i < n ==> |xy[i]| >= nx + ny
    ensures |r| == n && forall i :: 0 <= i < n ==> r[i] == Stored(xy[i], tags[i], nx, ny)
  {
    seq(n, i requires 0 <= i < n => Stored(xy[i], tags[i], nx, ny))
  }

  /** The tight bounding box of a non-empty set of rows. */
  method BoundingBox(a: seq<Row>, nx: nat) returns (lo: Point, hi: Point)
    requires |a| >= 1 && Wide(a, nx)
    ensures |lo| == |hi| == nx && forall i :: 0 <= i < |a| ==> InBox(a[i].xy, lo, hi)
    ensures forall j :: 0 <= j < nx ==> (exists i :: 0 <= i < |a| && a[i].xy[j] == lo[j])
    ensures forall j :: 0 <= j < nx ==> (exists i :: 0 <= i < |a| && a[i].xy[j] == hi[j])
  {
    lo, hi := a[0].xy[..nx], a[0].xy[..nx];
    for i := 1 to |a|
      invariant |lo| == |hi| == nx && forall k :: 0 <= k < i ==> InBox(a[k].xy, lo, hi)
      invariant forall j :: 0 <= j < nx ==> (exists k :: 0 <= k < |a| && a[k].xy[j] == lo[j])
      invariant forall j :: 0 <= j < nx ==> (exists k :: 0 <= k < |a| && a[k].xy[j] == hi[j])
    {
      lo, hi := ExtendBox(lo, hi, a[i].xy);
    }
  }

  /** Extends a box by one point, coordinate by coordinate. */
  method ExtendBox(lo: Point, hi: Point, p: Point) returns (lo': Point, hi': Point)
    requires |lo| == |hi| <= |p|
    ensures |lo'| == |hi'| == |lo|
    ensures forall j :: 0 <= j < |lo| ==> lo'[j] == Min(lo[j], p[j]) && hi'[j] == Max(hi[j], p[j])
  {
    lo', hi' := lo, hi;
    for j := 0 to |lo|
      invariant |lo'| == |hi'| == |lo|
      invariant forall k :: 0 <= k < j ==> lo'[k] == Min(lo[k], p[k]) && hi'[k] == Max(hi[k], p[k])
      invariant forall k :: j <= k < |lo| ==> lo'[k] == lo[k] && hi'[k] == hi[k]
    {
      lo', hi' := lo'[j := Min(lo'[j], p[j])], hi'[j := Max(hi'[j], p[j])];
    }
  }

  class KdTree {
    var n: nat
    var nx: nat
    var ny: nat
    var norm: Norm
    var rows: array<Row>
    var boxmin: Point
    var boxmax: Point
    var nodes: seq<int>
    var splits: seq<real>
    // bounding box of the node being generated, restored on return
    var curboxmin: Point
    var curboxmax: Point
    ghost var tree: Tree

    /** What the queries rely on. */
    ghost predicate Valid()
      reads this, rows
    {
      && nx >= 1 && rows.Length == n && Wide(rows[..], nx)
      && (n > 0 ==>
        && |boxmin| == |boxmax| == nx
        && EncodesNodes(nodes, 0, 0, tree) && EncodesSplits(splits, 0, tree)
        && TreeFor(tree, rows[..], 0, n, boxmin, boxmax)
        && AllInBox(rows[..], 0, n, boxmin, boxmax))
    }

    /** The first of the widest dimensions of the current box, and its width. */
    method WidestDim() returns (d: nat, ds: real)
      requires |curboxmin| == |curboxmax| == nx >= 1
      ensures d == FirstMax(Widths(curboxmin, curboxmax)) && ds == curboxmax[d] - curboxmin[d]
    {
      d, ds := 0, curboxmax[0] - curboxmin[0];
      ghost var w := Widths(curboxmin, curboxmax);
      for i := 1 to nx
        invariant d < nx && d == FirstMax(w[..i]) && ds == w[d]
      {
        assert w[..i + 1][..i] == w[..i];
        var v := curboxmax[i] - curboxmin[i];
        if v > ds {
          ds, d := v, i;
        }
      }
      assert w[..nx] == w;
    }

    method SwapRows(i: int, j: int)
      requires 0 <= i < rows.Length && 0 <= j < rows.Length
      modifies rows
      ensures rows[..] == Exchanged(old(rows[..]), i, j)
    {
      var t := rows[i];
      rows[i] := rows[j];
      rows[j] := t;
    }

    /** Rearranges [i1, i2) so that rows at or below `s` come first; returns the boundary. */
    method PartitionRows(i1: int, i2: int, d: nat, s: real) returns (i3: int)
      requires 0 <= i1 < i2 <= rows.Length
      requires forall i :: i1 <= i < i2 ==> d < |rows[i].xy|
      modifies rows
      ensures (rows[..], i3) == Parted(old(rows[..]), i1, i2 - 1, d, s)
    {
      var ileft, iright := i1, i2 - 1;
      while ileft < iright
        invariant i1 <= ileft <= iright < i2
        invariant forall i :: i1 <= i < i2 ==> d < |rows[i].xy|
        invariant Parted(rows[..], ileft, iright, d, s) == Parted(old(rows[..]), i1, i2 - 1, d, s)
      {
        if rows[ileft].xy[d] <= s {
          ileft := ileft + 1;
        } else {
          SwapRows(ileft, iright);
          iright := iright - 1;
        }
      }
      if rows[ileft].xy[d] <= s {
        ileft := ileft + 1;
      }
      i3 := ileft;
    }

    /** Chooses the threshold by the sliding-midpoint rule and rearranges the rows around it. */
    method DivideRows(i1: int, i2: int, d: nat, mid: real, y: Summary) returns (i3: int, s: real)
      requires Surveyed(rows[..], i1, i2, d, mid, y)
      modifies rows
      ensures (rows[..], i3, s) == Divided(old(rows[..]), i1, i2, d, mid, y)
    {
      if y.less > 0 && y.greater > 0 {
        s := mid;
        i3 := PartitionRows(i1, i2, d, s);
      } else if y.less == 0 {
        s, i3 := rows[y.kmin].xy[d], i1 + 1;
        if y.kmin != i1 {
          SwapRows(y.kmin, i1);
        }
        assert rows[..] == Exchanged(old(rows[..]), y.kmin, i1);
      } else {
        s, i3 := rows[y.kmax].xy[d], i2 - 1;
        if y.kmax != i2 - 1 {
          SwapRows(y.kmax, i2 - 1);
        }
        assert rows[..] == Exchanged(old(rows[..]), y.kmax, i2 - 1);
      }
    }

    /** Writes a leaf node. */
    method WriteLeaf(o: int, i1: nat, count: nat)
      requires 0 <= o && o + 2 <= |nodes| && count > 0
      modifies `nodes
      ensures EncodesNodes(nodes, o, 0, Leaf(i1, count)) && SameOutside(old(nodes), nodes, o, o + 2)
    {
      nodes := nodes[o := count][o + 1 := i1];
    }

    /** Writes the first cells of a split node and its threshold. */
    method WriteHeader(o: int, p: int, d: int, s: real)
      requires 0 <= o && o + SPLIT_NODE_SIZE <= |nodes| && 0 <= p < |splits|
      modifies `nodes, `splits
      ensures IsHeader(nodes, o, p, d) && SameOutside(old(nodes), nodes, o, o + SPLIT_NODE_SIZE)
      ensures |splits| == |old(splits)| && splits[p] == s && SameOutside(old(splits), splits, p, p + 1)
    {
      nodes := nodes[o := 0][o + 1 := d][o + 2 := p][o + 3 := o + SPLIT_NODE_SIZE];
      splits := splits[p := s];
    }

    /** Stores the offset of the right child. */
    method LinkRight(o: int, o2: int)
      requires 0 <= o && o + SPLIT_NODE_SIZE <= |nodes|
      modifies `nodes
      ensures SameOutside(old(nodes), nodes, o + 4, o + 5) && nodes[o + 4] == o2
    {
      nodes := nodes[o + 4 := o2];
    }

    /** Enough free cells for every tree over `count` rows. */
    ghost predicate Room(o: int, p: int, count: int)
      reads this
    {
      && 0 <= o && o + 8 * count - 6 <= |nodes|
      && 0 <= p && p + count - 1 <= |splits|
    }

    /** Surveys coordinate `d` of rows [i1, i2) against `mid`. */
    method SurveyRows(i1: nat, i2: nat, d: nat, mid: real) returns (minv: real, maxv: real, y: Summary)
      requires d < nx == |curboxmin| && AllInBox(rows[..], i1, i2, curboxmin, curboxmax)
      ensures Surveyed(rows[..], i1, i2, d, mid, y)
      ensures minv == rows[y.kmin].xy[d] && maxv == rows[y.kmax].xy[d]
    {
      var vals := Column(rows[..], i1, i2, d);
      var minidx, maxidx, less, greater;
      minv, maxv, minidx, maxidx, less, greater := Survey(vals, mid);
      y := Summary(i1 + minidx, i1 + maxidx, less, greater);
      SummarizeCorrect(rows[..], i1, i2, d, mid);
    }

    /** Generates the tree of rows [i1, i2) at `nodes[o..]` and `splits[p..]`; returns the next free offsets. */
    method GenerateTreeRec(o: int, p: int, i1: nat, i2: nat, maxleafsize: int)
      returns (o': int, p': int, ghost t: Tree)
      requires 1 <= nx == |curboxmin| == |curboxmax| && AllInBox(rows[..], i1, i2, curboxmin, curboxmax)
        && Room(o, p, i2 - i1)
      modifies `nodes, `splits, `curboxmin, `curboxmax, rows
      ensures curboxmin == old(curboxmin) && curboxmax == old(curboxmax)
      ensures Shuffled(old(rows[..]), rows[..], i1, i2)
      ensures TreeFor(t, rows[..], i1, i2, curboxmin, curboxmax)
      ensures Sliding(t, rows[..], curboxmin, curboxmax, maxleafsize)
      ensures o' == o + NodeCells(t) && EncodesNodes(nodes, o, p, t) && SameOutside(old(nodes), nodes, o, o')
      ensures p' == p + SplitCells(t) && EncodesSplits(splits, p, t) && SameOutside(old(splits), splits, p, p')
      decreases i2 - i1, WideDims(curboxmin, curboxmax), 3
    {
      if i2 - i1 <= maxleafsize {
        WriteLeaf(o, i1, i2 - i1);
        return o + 2, p, Leaf(i1, i2 - i1);
      }
      var d, ds := WidestDim();
      if ds == 0.0 {
        FlatBoxSame(rows[..], i1, i2, curboxmin, curboxmax, d);
        WriteLeaf(o, i1, i2 - i1);
        return o + 2, p, Leaf(i1, i2 - i1);
      }
      var mid := curboxmin[d] + 0.5 * ds;
      var minv, maxv, y := SurveyRows(i1, i2, d, mid);
      if minv == maxv {
        o', p', t := FlattenBox(o, p, i1, i2, maxleafsize, d, minv);
      } else {
        WidestOfAll(rows[..], i1, i2, curboxmin, curboxmax, d, y.kmin, y.kmax);
        o', p', t := SplitNode(o, p, i1, i2, maxleafsize, d, mid, y);
      }
    }

    /** All rows agree on coordinate `d`: the box is made flat there and generation is repeated. */
    method FlattenBox(o: int, p: int, i1: nat, i2: nat, maxleafsize: int, d: nat, v: real)
      returns (o': int, p': int, ghost t: Tree)
      requires 1 <= nx == |curboxmin| == |curboxmax| && AllInBox(rows[..], i1, i2, curboxmin, curboxmax)
        && Room(o, p, i2 - i1)
      requires d < nx && curboxmin[d] != curboxmax[d]
      requires forall i :: i1 <= i < i2 ==> d < |rows[i].xy| && rows[i].xy[d] == v
      modifies `nodes, `splits, `curboxmin, `curboxmax, rows
      ensures curboxmin == old(curboxmin) && curboxmax == old(curboxmax)
      ensures Shuffled(old(rows[..]), rows[..], i1, i2)
      ensures TreeFor(t, rows[..], i1, i2, curboxmin, curboxmax)
      ensures Sliding(t, rows[..], curboxmin, curboxmax, maxleafsize)
      ensures o' == o + NodeCells(t) && EncodesNodes(nodes, o, p, t) && SameOutside(old(nodes), nodes, o, o')
      ensures p' == p + SplitCells(t) && EncodesSplits(splits, p, t) && SameOutside(old(splits), splits, p, p')
      decreases i2 - i1, WideDims(curboxmin, curboxmax), 0
    {
      var v0, v1 := curboxmin[d], curboxmax[d];
      FlattenDim(curboxmin, curboxmax, d, v);
      FlatInBox(rows[..], i1, i2, d, v, curboxmin, curboxmax);
      curboxmin, curboxmax := curboxmin[d := v], curboxmax[d := v];
      o', p', t := GenerateTreeRec(o, p, i1, i2, maxleafsize);
      SplitsInsideLarger(t, curboxmin, curboxmax, old(curboxmin), old(curboxmax));
      FlattenedSliding(t, old(rows[..]), rows[..], old(curboxmin), old(curboxmax), d, v, maxleafsize);
      curboxmin, curboxmax := curboxmin[d := v0], curboxmax[d := v1];
      assert curboxmin == old(curboxmin) && curboxmax == old(curboxmax);
    }

    /** Generates the rows at or below `s` with the upper face of the box moved to `s`, then restores it. */
    method LowerChild(o: int, p: int, i1: nat, i2: nat, maxleafsize: int, d: nat, s: real, ghost size: nat)
      returns (o': int, p': int, ghost t: Tree)
      requires d < |curboxmax| && i2 - i1 < size
      requires 1 <= nx == |curboxmin| == |curboxmax| && AllInBox(rows[..], i1, i2, curboxmin, curboxmax[d := s])
        && Room(o, p, i2 - i1)
      modifies `nodes, `splits, `curboxmin, `curboxmax, rows
      ensures curboxmin == old(curboxmin) && curboxmax == old(curboxmax)
      ensures Shuffled(old(rows[..]), rows[..], i1, i2)
      ensures TreeFor(t, rows[..], i1, i2, curboxmin, curboxmax[d := s])
      ensures Sliding(t, rows[..], curboxmin, curboxmax[d := s], maxleafsize)
      ensures o' == o + NodeCells(t) && EncodesNodes(nodes, o, p, t) && SameOutside(old(nodes), nodes, o, o')
      ensures p' == p + SplitCells(t) && EncodesSplits(splits, p, t) && SameOutside(old(splits), splits, p, p')
      decreases size, 0, 0
    {
      var v := curboxmax[d];
      curboxmax := curboxmax[d := s];
      o', p', t := GenerateTreeRec(o, p, i1, i2, maxleafsize);
      curboxmax := curboxmax[d := v];
      assert curboxmax == old(curboxmax);
    }

    /** Generates the rows at or above `s` with the lower face of the box moved to `s`, then restores it. */
    method UpperChild(o: int, p: int, i1: nat, i2: nat, maxleafsize: int, d: nat, s: real, ghost size: nat)
      returns (o': int, p': int, ghost t: Tree)
      requires d < |curboxmin| && i2 - i1 < size
      requires 1 <= nx == |curboxmin| == |curboxmax| && AllInBox(rows[..], i1, i2, curboxmin[d := s], curboxmax)
        && Room(o, p, i2 - i1)
      modifies `nodes, `splits, `curboxmin, `curboxmax, rows
      ensures curboxmin == old(curboxmin) && curboxmax == old(curboxmax)
      ensures Shuffled(old(rows[..]), rows[..], i1, i2)
      ensures TreeFor(t, rows[..], i1, i2, curboxmin[d := s], curboxmax)
      ensures Sliding(t, rows[..], curboxmin[d := s], curboxmax, maxleafsize)
      ensures o' == o + NodeCells(t) && EncodesNodes(nodes, o, p, t) && SameOutside(old(nodes), nodes, o, o')
      ensures p' == p + SplitCells(t) && EncodesSplits(splits, p, t) && SameOutside(old(splits), splits, p, p')
      decreases size, 0, 0
    {
      var v := curboxmin[d];
      curboxmin := curboxmin[d := s];
      o', p', t := GenerateTreeRec(o, p, i1, i2, maxleafsize);
      curboxmin := curboxmin[d := v];
      assert curboxmin == old(curboxmin);
    }

    /** Splits the rows, writes the split node and generates both children. */
    method SplitNode(o: int, p: int, i1: nat, i2: nat, maxleafsize: int, d: nat, mid: real, y: Summary)
      returns (o': int, p': int, ghost t: Tree)
      requires 1 <= nx == |curboxmin| == |curboxmax| && AllInBox(rows[..], i1, i2, curboxmin, curboxmax)
        && Room(o, p, i2 - i1)
      requires d < nx && Surveyed(rows[..], i1, i2, d, mid, y) && rows[y.kmin].xy[d] != rows[y.kmax].xy[d]
      requires i2 - i1 > maxleafsize && WidestDiffering(rows[..], i1, i2, curboxmin, curboxmax, d)
      requires mid == (curboxmin[d] + curboxmax[d]) / 2.0
      modifies `nodes, `splits, `curboxmin, `curboxmax, rows
      ensures curboxmin == old(curboxmin) && curboxmax == old(curboxmax)
      ensures Shuffled(old(rows[..]), rows[..], i1, i2)
      ensures TreeFor(t, rows[..], i1, i2, curboxmin, curboxmax)
      ensures Sliding(t, rows[..], curboxmin, curboxmax, maxleafsize)
      ensures o' == o + NodeCells(t) && EncodesNodes(nodes, o, p, t) && SameOutside(old(nodes), nodes, o, o')
      ensures p' == p + SplitCells(t) && EncodesSplits(splits, p, t) && SameOutside(old(splits), splits, p, p')
      decreases i2 - i1, 0, 2
    {
      var i3, s := CutRows(i1, i2, maxleafsize, d, mid, y);
      WriteHeader(o, p, d, s);
      o', p', t := GenerateChildren(o, p, i1, i3, i2, maxleafsize, d, s);
    }

    /** Cuts rows that do not all agree on coordinate `d` into two non-empty parts inside their half boxes. */
    method CutRows(i1: nat, i2: nat, maxleafsize: int, d: nat, mid: real, y: Summary) returns (i3: int, s: real)
      requires d < |curboxmin| && AllInBox(rows[..], i1, i2, curboxmin, curboxmax)
      requires Surveyed(rows[..], i1, i2, d, mid, y) && rows[y.kmin].xy[d] != rows[y.kmax].xy[d]
      requires i2 - i1 > maxleafsize && WidestDiffering(rows[..], i1, i2, curboxmin, curboxmax, d)
      requires mid == (curboxmin[d] + curboxmax[d]) / 2.0
      modifies rows
      ensures Shuffled(old(rows[..]), rows[..], i1, i2) && GoodSplit(rows[..], i1, i3, i2, d, s)
      ensures curboxmin[d] <= s <= curboxmax[d]
      ensures AllInBox(rows[..], i1, i3, curboxmin, curboxmax[d := s])
      ensures AllInBox(rows[..], i3, i2, curboxmin[d := s], curboxmax)
      ensures Ruled(rows[..], i1, i3, i2, d, s, curboxmin, curboxmax, maxleafsize)
    {
      ghost var a := rows[..];
      DividedCorrect(a, i1, i2, d, mid, y);
      DividedSlides(a, i1, i2, d, mid, y);
      i3, s := DivideRows(i1, i2, d, mid, y);
      ShuffledWidest(a, rows[..], i1, i2, curboxmin, curboxmax, d);
      HalvesInBox(a, rows[..], i1, i3, i2, d, s, curboxmin, curboxmax);
    }

    /** Generates both children of a split node whose header has been written. */
    method GenerateChildren(o: int, p: int, i1: nat, i3: nat, i2: nat, maxleafsize: int, d: nat, s: real)
      returns (o': int, p': int, ghost t: Tree)
      requires d < nx == |curboxmin| == |curboxmax| && curboxmin[d] <= s <= curboxmax[d]
      requires GoodSplit(rows[..], i1, i3, i2, d, s)
      requires AllInBox(rows[..], i1, i3, curboxmin, curboxmax[d := s])
      requires AllInBox(rows[..], i3, i2, curboxmin[d := s], curboxmax)
      requires Room(o, p, i2 - i1) && IsHeader(nodes, o, p, d) && splits[p] == s
      requires Ruled(rows[..], i1, i3, i2, d, s, curboxmin, curboxmax, maxleafsize)
      modifies `nodes, `splits, `curboxmin, `curboxmax, rows
      ensures curboxmin == old(curboxmin) && curboxmax == old(curboxmax)
      ensures Shuffled(old(rows[..]), rows[..], i1, i2)
      ensures TreeFor(t, rows[..], i1, i2, curboxmin, curboxmax)
      ensures Sliding(t, rows[..], curboxmin, curboxmax, maxleafsize)
      ensures o' == o + NodeCells(t) && EncodesNodes(nodes, o, p, t) && SameOutside(old(nodes), nodes, o, o')
      ensures p' == p + SplitCells(t) && EncodesSplits(splits, p, t) && SameOutside(old(splits), splits, p, p')
      ensures t.Split?
      decreases i2 - i1, 0, 1
    {
      ghost var b, n1, s1 := rows[..], nodes, splits;
      ghost var l, r;
      ghost var o1, p1 := o + SPLIT_NODE_SIZE, p + 1;
      o', p', l := LowerChild(o + SPLIT_NODE_SIZE, p + 1, i1, i3, maxleafsize, d, s, i2 - i1);
      ghost var b1, n2, s2, o2, p2 := rows[..], nodes, splits, o', p';
      CellsBound(l, b1, nx);
      OtherHalfInBox(b, b1, i1, i3, i2, curboxmin[d := s], curboxmax);
      LinkRight(o, o');
      ghost var n3 := nodes;
      o', p', r := UpperChild(o', p', i3, i2, maxleafsize, d, s, i2 - i1);
      t := Split(d, s, l, r);
      JoinNodes(n1, n2, n3, nodes, o, o1, o2, o', p, p1, p2, d, s, l, r);
      JoinSplits(s1, s2, splits, p, p1, p2, p', d, s, l, r);
      JoinHalves(b, b1, rows[..], i1, i3, i2, d, s, l, r, curboxmin, curboxmax);
      JoinSliding(b, b1, rows[..], i1, i3, i2, d, s, l, r, curboxmin, curboxmax, maxleafsize);
    }

    /** Builds the tree of the first `n` rows of `xy`. */
    constructor Build(xy: seq<seq<real>>, tags: seq<int>, n: nat, nx: nat, ny: nat, norm: Norm)
      requires nx >= 1 && |xy| >= n && |tags| >= n
      requires forall i :: 0 <= i < n ==> |xy[i]| >= nx + ny
      ensures Valid() && fresh(rows)
      ensures this.n == n && this.nx == nx && this.ny == ny && this.norm == norm
      ensures multiset(rows[..]) == multiset(StoredRows(xy, tags, n, nx, ny))
      ensures n > 0 ==> Sliding(tree, rows[..], boxmin, boxmax, 8)
    {
      this.n, this.nx, this.ny, this.norm := n, nx, ny, norm;
      var stored := StoredRows(xy, tags, n, nx, ny);
      rows := new Row[n](i requires 0 <= i < n => stored[i]);
      boxmin, boxmax, nodes, splits := [], [], [], [];
      curboxmin, curboxmax := [], [];
      new;
      assert rows[..] == stored;
      if n > 0 {
        BuildIndex();
      }
    }

    /** Bounding box, allocation of the vectors, and generation from the root. */
    method BuildIndex()
      requires n == rows.Length > 0 && nx >= 1 && Wide(rows[..], nx)
      modifies `boxmin, `boxmax, `nodes, `splits, `curboxmin, `curboxmax, `tree, rows
      ensures Valid() && multiset(rows[..]) == multiset(old(rows[..]))
      ensures |nodes| == 12 * n && |splits| == 2 * n && Sliding(tree, rows[..], boxmin, boxmax, 8)
    {
      boxmin, boxmax := BoundingBox(rows[..], nx);
      nodes, splits := seq(SPLIT_NODE_SIZE * 2 * n, _ => 0), seq(2 * n, _ => 0.0);
      curboxmin, curboxmax := boxmin, boxmax;
      var o, p;
      o, p, tree := GenerateTreeRec(0, 0, 0, n, 8);
      ShuffledStillInBox(old(rows[..]), rows[..], 0, n, boxmin, boxmax);
    }
  }
}
