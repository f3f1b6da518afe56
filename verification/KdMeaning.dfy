/** What distances, radii and self-matches mean, coordinate by coordinate. */
module KdMeaning {
  import opened Reals
  import opened KdGeometry
  import opened KdShape
  import opened KdSearch
  import opened KdBruteForce

  // ---------------------------------------------------------------- distances

  function Total(s: seq<real>): real {
    if s == [] then 0.0 else s[0] + Total(s[1..])
  }

  /** The coordinate differences, and their squares. */
  function Differences(p: Point, x: Point): (s: seq<real>)
    requires |p| >= |x|
    ensures |s| == |x| && forall j :: 0 <= j < |x| ==> s[j] == if p[j] < x[j] then x[j] - p[j] else p[j] - x[j]
  {
    seq(|x|, j requires 0 <= j < |x| => if p[j] < x[j] then x[j] - p[j] else p[j] - x[j])
  }

  function Squares(p: Point, x: Point): (s: seq<real>)
    requires |p| >= |x|
    ensures |s| == |x| && forall j :: 0 <= j < |x| ==> s[j] == (p[j] - x[j]) * (p[j] - x[j])
  {
    seq(|x|, j requires 0 <= j < |x| => (p[j] - x[j]) * (p[j] - x[j]))
  }

  /** v is the largest coordinate difference, their sum, or the sum of their squares. */
  ghost predicate IsDistance(norm: Norm, p: Point, x: Point, v: real)
    requires |p| >= |x|
  {
    match norm
    case Infinity =>
      && (forall j :: 0 <= j < |x| ==> Differences(p, x)[j] <= v)
      && (if x == [] then v == 0.0 else exists j :: 0 <= j < |x| && Differences(p, x)[j] == v)
    case One => v == Total(Differences(p, x))
    case Two => v == Total(Squares(p, x))
  }

  lemma {:induction false} TotalSnoc(s: seq<real>, v: real)
    ensures Total(s + [v]) == Total(s) + v
  {
    if s == [] {
      assert [v][1..] == [];
    } else {
      assert (s + [v])[1..] == s[1..] + [v];
      TotalSnoc(s[1..], v);
    }
  }

  lemma {:induction false} FoldIsTotal(norm: Norm, gaps: seq<real>, terms: seq<real>)
    requires !norm.Infinity? && |gaps| == |terms| && forall j :: 0 <= j < |gaps| ==> terms[j] == Term(norm, gaps[j])
    ensures Fold(norm, gaps) == Total(terms)
  {
    if gaps != [] {
      var k := |gaps| - 1;
      FoldIsTotal(norm, gaps[..k], terms[..k]);
      TotalSnoc(terms[..k], terms[k]);
      assert terms == terms[..k] + [terms[k]];
    }
  }

  lemma {:induction false} FoldIsLargest(gaps: seq<real>)
    requires forall j :: 0 <= j < |gaps| ==> gaps[j] >= 0.0
    ensures forall j :: 0 <= j < |gaps| ==> gaps[j] <= Fold(Infinity, gaps)
    ensures if gaps == [] then Fold(Infinity, gaps) == 0.0
      else exists j :: 0 <= j < |gaps| && gaps[j] == Fold(Infinity, gaps)
  {
    if gaps != [] {
      var k := |gaps| - 1;
      FoldIsLargest(gaps[..k]);
      assert Fold(Infinity, gaps) == Max(Fold(Infinity, gaps[..k]), gaps[k]);
      if Fold(Infinity, gaps[..k]) >= gaps[k] && k > 0 {
        var j :| 0 <= j < k && gaps[..k][j] == Fold(Infinity, gaps[..k]);
        assert gaps[j] == Fold(Infinity, gaps);
      } else {
        assert gaps[k] == Fold(Infinity, gaps);
      }
    }
  }

  lemma {:induction false} GapsAreDifferences(p: Point, x: Point)
    requires |p| >= |x|
    ensures PointGaps(p, x) == Differences(p, x)
  {
  }

  lemma {:induction false} SquareOfGap(norm: Norm, p: real, x: real)
    requires norm == Two
    ensures Term(norm, Abs(p - x)) == (p - x) * (p - x)
  {
  }

  /** The distance of the search is the distance of its norm. */
  lemma {:induction false} DistIsDistance(norm: Norm, p: Point, x: Point)
    requires |p| >= |x|
    ensures IsDistance(norm, p, x, Dist(norm, p, x))
  {
    GapsAreDifferences(p, x);
    match norm {
      case Infinity => FoldIsLargest(Differences(p, x));
      case One => FoldIsTotal(One, PointGaps(p, x), Differences(p, x));
      case Two =>
        forall j | 0 <= j < |x| ensures Squares(p, x)[j] == Term(Two, PointGaps(p, x)[j]) {
          SquareOfGap(Two, p[j], x[j]);
        }
        FoldIsTotal(Two, PointGaps(p, x), Squares(p, x));
    }
  }

  // ---------------------------------------------------------------- equal points

  /** The row agrees with the query point in all its coordinates. */
  ghost predicate Same(p: Point, x: Point) {
    |p| >= |x| && forall j :: 0 <= j < |x| ==> p[j] == x[j]
  }

  lemma {:induction false} FoldZero(norm: Norm, gaps: seq<real>)
    requires forall j :: 0 <= j < |gaps| ==> gaps[j] >= 0.0
    ensures Fold(norm, gaps) >= 0.0
    ensures Fold(norm, gaps) == 0.0 <==> forall j :: 0 <= j < |gaps| ==> gaps[j] == 0.0
  {
    if gaps != [] {
      var k := |gaps| - 1;
      FoldZero(norm, gaps[..k]);
      TermZero(norm, gaps[k]);
      assert forall j :: 0 <= j < k ==> gaps[..k][j] == gaps[j];
    }
  }

  lemma {:induction false} TermZero(norm: Norm, v: real)
    requires v >= 0.0
    ensures Term(norm, v) >= 0.0 && (Term(norm, v) == 0.0 <==> v == 0.0)
  {
    PositiveProduct(v, v, Sqr(v));
  }

  lemma {:induction false} PositiveProduct(x: real, y: real, p: real)
    requires p == x * y
    ensures x > 0.0 && y > 0.0 ==> p > 0.0
    ensures x == 0.0 ==> p == 0.0
  {
  }

  /** A distance is positive, or zero for equal coordinates. */
  lemma {:induction false} DistZero(norm: Norm, p: Point, x: Point)
    requires |p| >= |x|
    ensures Dist(norm, p, x) >= 0.0
    ensures Dist(norm, p, x) == 0.0 <==> Same(p, x)
  {
    var g := PointGaps(p, x);
    FoldZero(norm, g);
    assert forall j :: 0 <= j < |x| ==> (g[j] == 0.0 <==> p[j] == x[j]);
  }

  // ---------------------------------------------------------------- radii

  /** The row is within the radius of the point. */
  ghost predicate WithinRadius(norm: Norm, p: Point, x: Point, r: real)
    requires |p| >= |x|
  {
    match norm
    case Infinity => forall j :: 0 <= j < |x| ==> Differences(p, x)[j] <= r
    case One => Total(Differences(p, x)) <= r
    case Two => Total(Squares(p, x)) <= r * r
  }

  lemma {:induction false} RadiusIsDistance(norm: Norm, p: Point, x: Point, r: real)
    requires |p| >= |x| && r > 0.0
    ensures WithinRadius(norm, p, x, r) <==> Dist(norm, p, x) <= if norm.Two? then Sqr(r) else r
  {
    DistIsDistance(norm, p, x);
  }

  /** The row differs from the point in one coordinate only. */
  ghost predicate DiffersOnly(p: Point, x: Point, j: nat)
    requires |p| >= |x|
  {
    j < |x| && p[j] != x[j] && forall i :: 0 <= i < |x| && i != j ==> p[i] == x[i]
  }

  lemma {:induction false} TotalOfZeros(s: seq<real>)
    requires forall i :: 0 <= i < |s| ==> s[i] == 0.0
    ensures Total(s) == 0.0
  {
    if s != [] { TotalOfZeros(s[1..]); }
  }

  lemma {:induction false} TotalOfOne(s: seq<real>, j: nat)
    requires j < |s| && forall i :: 0 <= i < |s| && i != j ==> s[i] == 0.0
    ensures Total(s) == s[j]
  {
    if j == 0 { TotalOfZeros(s[1..]); } else { TotalOfOne(s[1..], j - 1); }
  }

  lemma {:induction false} SquareOrder(d: real, r: real, dd: real, rr: real)
    requires r > 0.0 && dd == d * d && rr == r * r
    ensures dd <= rr <==> -r <= d <= r
  {
    assert rr - dd == (r - d) * (r + d);
    assert -r <= d <= r ==> (r - d) * (r + d) >= 0.0;
    assert d > r ==> (d - r) * (d + r) > 0.0;
    assert d < -r ==> (-d - r) * (r - d) > 0.0;
  }

  /** In a single coordinate every norm measures the plain difference. */
  lemma {:induction false} RadiusInOneCoordinate(norm: Norm, p: Point, x: Point, j: nat, r: real)
    requires |p| >= |x| && DiffersOnly(p, x, j) && r > 0.0
    ensures WithinRadius(norm, p, x, r) <==> x[j] - r <= p[j] <= x[j] + r
  {
    match norm {
      case Infinity => assert WithinRadius(norm, p, x, r) <==> Differences(p, x)[j] <= r;
      case One => TotalOfOne(Differences(p, x), j);
      case Two =>
        TotalOfOne(Squares(p, x), j);
        SquareOrder(p[j] - x[j], r, Squares(p, x)[j], r * r);
    }
  }

  function Stretched(p: Point, c: real): (s: Point)
    ensures |s| == |p| && forall j :: 0 <= j < |p| ==> s[j] == c * p[j]
  {
    seq(|p|, j requires 0 <= j < |p| => c * p[j])
  }

  ghost predicate Multiple(t: seq<real>, s: seq<real>, c: real) {
    |t| == |s| && forall j :: 0 <= j < |s| ==> t[j] == c * s[j]
  }

  lemma {:induction false} TotalStretched(s: seq<real>, t: seq<real>, c: real)
    ensures Multiple(t, s, c) ==> Total(t) == Times(Total(s), c)
  {
    if s != [] && Multiple(t, s, c) {
      assert Multiple(t[1..], s[1..], c);
      TotalStretched(s[1..], t[1..], c);
      TimesAdds(s[0], Total(s[1..]), c);
    }
  }

  lemma {:induction false} TimesAdds(x: real, y: real, c: real)
    ensures Times(x + y, c) == c * x + Times(y, c)
  {
  }

  /** A total and a bound, both stretched. */
  lemma {:induction false} TotalOrder(total: real, bound: real, c: real, total': real, bound': real)
    requires c > 0.0 && total' == Times(total, c) && bound' == c * bound
    ensures total' <= bound' <==> total <= bound
  {
    ScaledOrder(total, bound, c);
  }

  lemma {:induction false} StretchedDifference(p: real, x: real, c: real, a: real, b: real)
    requires c > 0.0 && a == (if p < x then x - p else p - x)
    requires b == if c * p < c * x then c * x - c * p else c * p - c * x
    ensures b == c * a
  {
    assert c * (x - p) == c * x - c * p;
    assert p < x ==> c * (x - p) > 0.0;
    assert p > x ==> c * (p - x) > 0.0;
  }

  lemma {:induction false} StretchedSquare(p: real, x: real, c: real, cc: real, sq: real, stretched: real)
    requires cc == c * c && sq == (p - x) * (p - x) && stretched == (c * p - c * x) * (c * p - c * x)
    ensures stretched == cc * sq
  {
    var d, e := p - x, c * p - c * x;
    assert e == c * d;
    SquareOfProduct(c, d, e, cc, sq);
  }

  lemma {:induction false} SquareOfProduct(c: real, d: real, e: real, cc: real, dd: real)
    requires e == c * d && cc == c * c && dd == d * d
    ensures e * e == cc * dd
  {
    assert (c * d) * (c * d) == (c * c) * (d * d);
  }

  lemma {:induction false} ScaledOrder(a: real, b: real, c: real)
    requires c > 0.0
    ensures c * a <= c * b <==> a <= b
  {
    assert a < b ==> c * (b - a) > 0.0;
    assert a > b ==> c * (a - b) > 0.0;
  }

  /** Stretching the space together with the radius changes nothing. */
  lemma {:induction false} RadiusStretched(norm: Norm, p: Point, x: Point, r: real, c: real)
    requires |p| >= |x| && c > 0.0
    ensures WithinRadius(norm, Stretched(p, c), Stretched(x, c), c * r) <==> WithinRadius(norm, p, x, r)
    ensures Same(Stretched(p, c), Stretched(x, c)) <==> Same(p, x)
  {
    SameStretched(p, x, c);
    match norm {
      case Infinity => LargestStretched(p, x, r, c);
      case One => SumStretched(p, x, r, c);
      case Two => SquaresStretched(p, x, r, c);
    }
  }

  lemma {:induction false} DifferencesAreStretched(p: Point, x: Point, c: real)
    requires |p| >= |x| && c > 0.0
    ensures Multiple(Differences(Stretched(p, c), Stretched(x, c)), Differences(p, x), c)
  {
    var d, e := Differences(p, x), Differences(Stretched(p, c), Stretched(x, c));
    forall j | 0 <= j < |x| ensures e[j] == c * d[j] { StretchedDifference(p[j], x[j], c, d[j], e[j]); }
  }

  lemma {:induction false} MultipleBounded(t: seq<real>, s: seq<real>, c: real, r: real)
    requires Multiple(t, s, c) && c > 0.0
    ensures (forall j :: 0 <= j < |t| ==> t[j] <= c * r) <==> forall j :: 0 <= j < |s| ==> s[j] <= r
  {
    forall j | 0 <= j < |s| ensures t[j] <= c * r <==> s[j] <= r { ScaledOrder(s[j], r, c); }
  }

  lemma {:induction false} LargestStretched(p: Point, x: Point, r: real, c: real)
    requires |p| >= |x| && c > 0.0
    ensures WithinRadius(Infinity, Stretched(p, c), Stretched(x, c), c * r) <==> WithinRadius(Infinity, p, x, r)
  {
    DifferencesAreStretched(p, x, c);
    MultipleBounded(Differences(Stretched(p, c), Stretched(x, c)), Differences(p, x), c, r);
  }

  lemma {:induction false} SumStretched(p: Point, x: Point, r: real, c: real)
    requires |p| >= |x| && c > 0.0
    ensures WithinRadius(One, Stretched(p, c), Stretched(x, c), c * r) <==> WithinRadius(One, p, x, r)
  {
    DifferencesAreStretched(p, x, c);
    TotalStretched(Differences(p, x), Differences(Stretched(p, c), Stretched(x, c)), c);
    TotalOrder(Total(Differences(p, x)), r, c, Total(Differences(Stretched(p, c), Stretched(x, c))), c * r);
  }

  lemma {:induction false} SameStretched(p: Point, x: Point, c: real)
    requires |p| >= |x| && c > 0.0
    ensures Same(Stretched(p, c), Stretched(x, c)) <==> Same(p, x)
  {
    forall j | 0 <= j < |x| ensures Stretched(p, c)[j] == Stretched(x, c)[j] <==> p[j] == x[j] {
      ScaledOrder(p[j], x[j], c);
      ScaledOrder(x[j], p[j], c);
    }
  }

  lemma {:induction false} SquaresAreStretched(p: Point, x: Point, c: real, cc: real)
    requires |p| >= |x| && cc == c * c
    ensures Multiple(Squares(Stretched(p, c), Stretched(x, c)), Squares(p, x), cc)
  {
    var s, t := Squares(p, x), Squares(Stretched(p, c), Stretched(x, c));
    forall j | 0 <= j < |x| ensures t[j] == cc * s[j] {
      StretchedSquare(p[j], x[j], c, cc, s[j], t[j]);
    }
  }

  lemma {:induction false} RadiusSquares(c: real, r: real, cc: real, rr: real, stretched: real)
    requires c > 0.0 && cc == c * c && rr == r * r && stretched == (c * r) * (c * r)
    ensures cc > 0.0 && stretched == cc * rr
  {
    PositiveProduct(c, c, cc);
    SquareOfProduct(c, r, c * r, cc, rr);
  }

  lemma {:induction false} SquaresStretched(p: Point, x: Point, r: real, c: real)
    requires |p| >= |x| && c > 0.0
    ensures WithinRadius(Two, Stretched(p, c), Stretched(x, c), c * r) <==> WithinRadius(Two, p, x, r)
  {
    var s, t, cc, rr, bound := Squares(p, x), Squares(Stretched(p, c), Stretched(x, c)), c * c, r * r,
      (c * r) * (c * r);
    SquaresAreStretched(p, x, c, cc);
    TotalStretched(s, t, cc);
    RadiusSquares(c, r, cc, rr, bound);
    TotalOrder(Total(s), rr, cc, Total(t), bound);
  }

  // ---------------------------------------------------------------- what a nearest-neighbour scan lists

  /** The rows a query may return: all, or those that differ from the query point. */
  ghost function Admitted(a: seq<Row>, x: Point, selfmatch: bool): (s: set<int>)
    ensures forall i :: i in s <==> 0 <= i < |a| && (selfmatch || !Same(a[i].xy, x))
  {
    set i | 0 <= i < |a| && (selfmatch || !Same(a[i].xy, x))
  }

  /** Those of them at a distance below v, or at most v. */
  ghost function Nearer(norm: Norm, a: seq<Row>, x: Point, selfmatch: bool, v: real, strict: bool): (s: set<int>)
    requires forall i :: 0 <= i < |a| ==> |a[i].xy| >= |x|
    ensures forall i :: i in s <==>
      i in Admitted(a, x, selfmatch) && (Dist(norm, a[i].xy, x) < v || (!strict && Dist(norm, a[i].xy, x) == v))
  {
    set i | i in Admitted(a, x, selfmatch) && (Dist(norm, a[i].xy, x) < v || (!strict && Dist(norm, a[i].xy, x) == v))
  }

  /** v is the m-th smallest distance, from 0: at most m rows are nearer, and more than m are no farther. */
  ghost predicate HasRank(norm: Norm, a: seq<Row>, x: Point, selfmatch: bool, v: real, m: nat)
    requires forall i :: 0 <= i < |a| ==> |a[i].xy| >= |x|
  {
    |Nearer(norm, a, x, selfmatch, v, true)| <= m < |Nearer(norm, a, x, selfmatch, v, false)|
  }

  lemma {:induction false} AdmittedIsEligible(q: Request, a: seq<Row>)
    requires (forall i :: 0 <= i < |a| ==> |a[i].xy| >= |q.x|) && q.rneeded == 0.0
    ensures AllEligible(Profile(q, a)) == Admitted(a, q.x, q.selfmatch)
  {
    forall i | 0 <= i < |a| ensures Eligible(q, a[i]) <==> q.selfmatch || !Same(a[i].xy, q.x) {
      DistZero(q.norm, a[i].xy, q.x);
    }
  }

  lemma {:induction false} NearerIsNear(q: Request, a: seq<Row>, v: real, strict: bool)
    requires (forall i :: 0 <= i < |a| ==> |a[i].xy| >= |q.x|) && q.rneeded == 0.0
    ensures Near(Profile(q, a), v, strict) == Nearer(q.norm, a, q.x, q.selfmatch, v, strict)
  {
    forall i | 0 <= i < |a| ensures Eligible(q, a[i]) <==> q.selfmatch || !Same(a[i].xy, q.x) {
      DistZero(q.norm, a[i].xy, q.x);
    }
  }

  /** The scan lists the distances of the admitted rows, each at its rank. */
  lemma {:induction false} ScanRanks(q: Request, a: seq<Row>)
    requires (forall i :: 0 <= i < |a| ==> |a[i].xy| >= |q.x|) && q.rneeded == 0.0
    ensures |BruteForce(q, a)| == |Admitted(a, q.x, q.selfmatch)|
    ensures forall m :: 0 <= m < |BruteForce(q, a)| ==> HasRank(q.norm, a, q.x, q.selfmatch, BruteForce(q, a)[m], m)
  {
    var b, p := BruteForce(q, a), Profile(q, a);
    CountPerm(b, Kept(p), 0.0, true);
    EligibleCount(p);
    AdmittedIsEligible(q, a);
    forall m | 0 <= m < |b| ensures HasRank(q.norm, a, q.x, q.selfmatch, b[m], m) {
      RankAt(q, a, b, m, true);
      RankAt(q, a, b, m, false);
    }
  }

  lemma {:induction false} RankAt(q: Request, a: seq<Row>, b: seq<real>, m: nat, strict: bool)
    requires (forall i :: 0 <= i < |a| ==> |a[i].xy| >= |q.x|) && q.rneeded == 0.0
    requires b == BruteForce(q, a) && m < |b|
    ensures strict ==> |Nearer(q.norm, a, q.x, q.selfmatch, b[m], strict)| <= m
    ensures !strict ==> m < |Nearer(q.norm, a, q.x, q.selfmatch, b[m], strict)|
  {
    var p := Profile(q, a);
    CountPerm(b, Kept(p), b[m], strict);
    CountIsNear(p, b[m], strict);
    NearerIsNear(q, a, b[m], strict);
    CountSorted(b, b[m], strict, m);
  }

  /** A value with a rank is the distance of an admitted row. */
  lemma {:induction false} RankedIsDistance(norm: Norm, a: seq<Row>, x: Point, selfmatch: bool, v: real, m: nat)
    returns (i: int)
    requires (forall i :: 0 <= i < |a| ==> |a[i].xy| >= |x|) && HasRank(norm, a, x, selfmatch, v, m)
    ensures i in Admitted(a, x, selfmatch) && v == Dist(norm, a[i].xy, x)
  {
    var s, t := Nearer(norm, a, x, selfmatch, v, true), Nearer(norm, a, x, selfmatch, v, false);
    assert s != t;
    assert s <= t;
    i :| i in t && i !in s;
  }

  /** How self-matches show in a list of distances: with them every row counts, and an equal row comes first; without
      them only the other rows count, and no distance is zero. */
  ghost predicate ObeysSelfmatch(a: seq<Row>, x: Point, selfmatch: bool, dists: seq<real>, k: nat) {
    var others := Admitted(a, x, false);
    && (selfmatch ==> |dists| == if |a| <= k then |a| else k)
    && (selfmatch && dists != [] && (exists i :: 0 <= i < |a| && Same(a[i].xy, x)) ==> dists[0] == 0.0)
    && (!selfmatch ==> |dists| == (if |others| <= k then |others| else k))
    && (!selfmatch ==> forall m :: 0 <= m < |dists| ==> dists[m] > 0.0)
  }

  lemma {:induction false} AllAdmitted(a: seq<Row>, x: Point)
    ensures |Admitted(a, x, true)| == |a|
  {
    var s := Range(0, |a|);
    assert Admitted(a, x, true) == s;
  }

  lemma {:induction false} SelfIsFirst(norm: Norm, a: seq<Row>, x: Point, v: real, i: int)
    requires (forall i :: 0 <= i < |a| ==> |a[i].xy| >= |x|) && HasRank(norm, a, x, true, v, 0)
    requires 0 <= i < |a| && Same(a[i].xy, x)
    ensures v == 0.0
  {
    DistZero(norm, a[i].xy, x);
    var j := RankedIsDistance(norm, a, x, true, v, 0);
    DistZero(norm, a[j].xy, x);
    assert Nearer(norm, a, x, true, v, true) == {};
    assert i !in Nearer(norm, a, x, true, v, true);
  }

  /** Each distance lies between the one of its rank and a multiple of it. */
  ghost predicate Bounded(b: seq<real>, dists: seq<real>, k: nat, factor: real) {
    && |dists| == (if |b| <= k then |b| else k)
    && forall m :: 0 <= m < |dists| ==> b[m] <= dists[m] <= Times(b[m], factor)
  }

  lemma {:induction false} OthersArePositive(norm: Norm, a: seq<Row>, x: Point, v: real, m: nat)
    requires (forall i :: 0 <= i < |a| ==> |a[i].xy| >= |x|) && HasRank(norm, a, x, false, v, m)
    ensures v > 0.0
  {
    var i := RankedIsDistance(norm, a, x, false, v, m);
    DistZero(norm, a[i].xy, x);
  }

  lemma {:induction false} TimesZero(v: real, d: real, factor: real)
    requires v == 0.0 && v <= d <= Times(v, factor)
    ensures d == 0.0
  {
  }

  /** Such distances obey the rule. */
  lemma {:induction false} ScanObeys(q: Request, a: seq<Row>, b: seq<real>, dists: seq<real>, k: nat, factor: real)
    requires (forall i :: 0 <= i < |a| ==> |a[i].xy| >= |q.x|) && q.rneeded == 0.0
    requires b == BruteForce(q, a) && Bounded(b, dists, k, factor)
    ensures ObeysSelfmatch(a, q.x, q.selfmatch, dists, k)
  {
    ScanRanks(q, a);
    AllAdmitted(a, q.x);
    if q.selfmatch {
      if dists != [] && exists i :: 0 <= i < |a| && Same(a[i].xy, q.x) {
        var i :| 0 <= i < |a| && Same(a[i].xy, q.x);
        SelfIsFirst(q.norm, a, q.x, b[0], i);
        TimesZero(b[0], dists[0], factor);
      }
    } else {
      forall m | 0 <= m < |dists| ensures dists[m] > 0.0 { OthersArePositive(q.norm, a, q.x, b[m], m); }
    }
  }
}
