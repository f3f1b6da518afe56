/** Points, axis-parallel boxes and the three norms of the kd-tree.
    `double` is modelled by exact `real`; the 2-norm is kept squared, as the source keeps it. */
module KdGeometry {
  import opened Reals

  type Point = seq<real>

  /** The source's NormType 0, 1 and 2. */
  datatype Norm = Infinity | One | Two


  /** What one coordinate gap contributes to a distance. */
  function Term(norm: Norm, v: real): real {
    if norm.Two? then Sqr(v) else v
  }

  function Join(norm: Norm, a: real, b: real): real {
    if norm.Infinity? then Max(a, b) else a + b
  }

  /** The norm of a vector of coordinate gaps. */
  function Fold(norm: Norm, gaps: seq<real>): real {
    if |gaps| == 0 then 0.0
    else Join(norm, Fold(norm, gaps[..|gaps| - 1]), Term(norm, gaps[|gaps| - 1]))
  }

  function PointGaps(p: Point, q: Point): (g: seq<real>)
    requires |p| >= |q|
    ensures |g| == |q|
  {
    seq(|q|, j requires 0 <= j < |q| => Abs(p[j] - q[j]))
  }

  function Dist(norm: Norm, p: Point, q: Point): real
    requires |p| >= |q|
  {
    Fold(norm, PointGaps(p, q))
  }

  /** How far coordinate `v` is from the interval [lo, hi]. */
  function Gap(v: real, lo: real, hi: real): real {
    if v < lo then lo - v else if v > hi then v - hi else 0.0
  }

  function BoxGaps(lo: Point, hi: Point, q: Point): (g: seq<real>)
    requires |lo| == |hi| == |q|
    ensures |g| == |q|
  {
    seq(|q|, j requires 0 <= j < |q| => Gap(q[j], lo[j], hi[j]))
  }

  /** Exact distance from `q` to the box. */
  function BoxDist(norm: Norm, lo: Point, hi: Point, q: Point): real
    requires |lo| == |hi| == |q|
  {
    Fold(norm, BoxGaps(lo, hi, q))
  }

  predicate InBox(p: Point, lo: Point, hi: Point) {
    |lo| == |hi| <= |p| && forall j :: 0 <= j < |lo| ==> lo[j] <= p[j] <= hi[j]
  }

  predicate IsBox(lo: Point, hi: Point) {
    |lo| == |hi| && forall j :: 0 <= j < |lo| ==> lo[j] <= hi[j]
  }

  /** Box [lo,hi] lies inside box [lo2,hi2]. */
  predicate SubBox(lo: Point, hi: Point, lo2: Point, hi2: Point) {
    |lo| == |hi| == |lo2| == |hi2| && forall j :: 0 <= j < |lo| ==> lo2[j] <= lo[j] && hi[j] <= hi2[j]
  }

  lemma {:induction false} SqrMono(a: real, b: real)
    requires 0.0 <= a <= b
    ensures 0.0 <= Sqr(a) <= Sqr(b)
  {
    assert b * b - a * a == (b - a) * (b + a);
  }

  lemma {:induction false} TermMono(norm: Norm, a: real, b: real)
    requires 0.0 <= a <= b
    ensures 0.0 <= Term(norm, a) <= Term(norm, b)
  {
    SqrMono(a, b);
  }

  /** A norm grows with every gap. */
  lemma {:induction false} FoldMono(norm: Norm, g: seq<real>, h: seq<real>)
    requires |g| == |h|
    requires forall j :: 0 <= j < |g| ==> 0.0 <= g[j] <= h[j]
    ensures 0.0 <= Fold(norm, g) <= Fold(norm, h)
  {
    if |g| > 0 {
      var k := |g| - 1;
      FoldMono(norm, g[..k], h[..k]);
      TermMono(norm, g[k], h[k]);
    }
  }

  /** Widening one gap changes the norm by exactly the amount the search adds to `curdist`. */
  lemma {:induction false} FoldUpdate(norm: Norm, g: seq<real>, d: nat, v: real)
    requires d < |g|
    requires forall j :: 0 <= j < |g| ==> 0.0 <= g[j]
    requires g[d] <= v
    ensures norm.Infinity? ==> Fold(norm, g[d := v]) == Max(Fold(norm, g), v)
    ensures !norm.Infinity? ==> Fold(norm, g[d := v]) == Fold(norm, g) - Term(norm, g[d]) + Term(norm, v)
  {
    var k := |g| - 1;
    var h := g[d := v];
    if d == k {
      assert h[..k] == g[..k];
    } else {
      assert h[..k] == g[..k][d := v];
      FoldUpdate(norm, g[..k], d, v);
    }
  }

  /** No point of a box is nearer to the query than the box itself. */
  lemma {:induction false} BoxDistIsLowerBound(norm: Norm, lo: Point, hi: Point, q: Point, p: Point)
    requires |lo| == |hi| == |q| && InBox(p, lo, hi)
    ensures 0.0 <= BoxDist(norm, lo, hi, q) <= Dist(norm, p, q)
  {
    FoldMono(norm, BoxGaps(lo, hi, q), PointGaps(p, q));
  }

  /** The nearest point of a box: each coordinate of `q` clamped to the box. */
  function Clamp(lo: Point, hi: Point, q: Point): (p: Point)
    requires |lo| == |hi| == |q|
    ensures |p| == |q|
  {
    seq(|q|, j requires 0 <= j < |q| => if q[j] < lo[j] then lo[j] else if q[j] > hi[j] then hi[j] else q[j])
  }

  /** The bound is tight: `BoxDist` really is the distance from the query to the box. */
  lemma {:induction false} BoxDistIsAttained(norm: Norm, lo: Point, hi: Point, q: Point)
    requires IsBox(lo, hi) && |lo| == |q|
    ensures InBox(Clamp(lo, hi, q), lo, hi)
    ensures Dist(norm, Clamp(lo, hi, q), q) == BoxDist(norm, lo, hi, q)
  {
    assert PointGaps(Clamp(lo, hi, q), q) == BoxGaps(lo, hi, q);
  }

  /** Moving the lower face of dimension `d` up to `s`: the three formulas of the search. */
  lemma {:induction false} RaiseLower(norm: Norm, lo: Point, hi: Point, q: Point, d: nat, s: real)
    requires |lo| == |hi| == |q| && d < |q|
    requires lo[d] <= s <= hi[d]
    ensures q[d] > s ==> BoxDist(norm, lo[d := s], hi, q) == BoxDist(norm, lo, hi, q)
    ensures q[d] <= s && norm.Infinity? ==>
              BoxDist(norm, lo[d := s], hi, q) == Max(BoxDist(norm, lo, hi, q), s - q[d])
    ensures q[d] <= s && !norm.Infinity? ==>
              BoxDist(norm, lo[d := s], hi, q)
              == BoxDist(norm, lo, hi, q) - Term(norm, Max(lo[d] - q[d], 0.0)) + Term(norm, s - q[d])
  {
    var g := BoxGaps(lo, hi, q);
    assert BoxGaps(lo[d := s], hi, q) == g[d := Gap(q[d], s, hi[d])];
    assert q[d] > s ==> BoxGaps(lo[d := s], hi, q) == g;
    FoldUpdate(norm, g, d, Gap(q[d], s, hi[d]));
  }

  /** Moving the upper face of dimension `d` down to `s`. */
  lemma {:induction false} LowerUpper(norm: Norm, lo: Point, hi: Point, q: Point, d: nat, s: real)
    requires |lo| == |hi| == |q| && d < |q|
    requires lo[d] <= s <= hi[d]
    ensures q[d] < s ==> BoxDist(norm, lo, hi[d := s], q) == BoxDist(norm, lo, hi, q)
    ensures q[d] >= s && norm.Infinity? ==>
              BoxDist(norm, lo, hi[d := s], q) == Max(BoxDist(norm, lo, hi, q), q[d] - s)
    ensures q[d] >= s && !norm.Infinity? ==>
              BoxDist(norm, lo, hi[d := s], q)
              == BoxDist(norm, lo, hi, q) - Term(norm, Max(q[d] - hi[d], 0.0)) + Term(norm, q[d] - s)
  {
    var g := BoxGaps(lo, hi, q);
    assert BoxGaps(lo, hi[d := s], q) == g[d := Gap(q[d], lo[d], s)];
    assert q[d] < s ==> BoxGaps(lo, hi[d := s], q) == g;
    FoldUpdate(norm, g, d, Gap(q[d], lo[d], s));
  }
}
