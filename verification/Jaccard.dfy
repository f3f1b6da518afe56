/** The Jaccard distance between finite sets, and why it is a metric. */
module Jaccard {
  import opened Sets

  /** One minus shared over combined elements. */
  ghost function Distance<T>(a: set<T>, b: set<T>): real
    requires a + b != {}
  {
    1.0 - |a * b| as real / |a + b| as real
  }

  lemma {:induction false} InclusionExclusion<T>(a: set<T>, b: set<T>)
    ensures |a + b| + |a * b| == |a| + |b|
  {
    assert a + b == a + (b - a) && b == a * b + (b - a);
    DisjointSizes(a, b - a);
    DisjointSizes(a * b, b - a);
  }

  /** The number of elements in exactly one of the two sets, over the number in either, is the distance. */
  lemma {:induction false} DistanceIsFraction<T>(a: set<T>, b: set<T>)
    requires a + b != {}
    ensures Distance(a, b) == (|a + b| - |a * b|) as real / |a + b| as real
  {
    FractionComplement(|a * b| as real, |a + b| as real);
  }

  lemma {:induction false} FractionComplement(x: real, y: real)
    requires y > 0.0
    ensures 1.0 - x / y == (y - x) / y
  {
    var f, g := x / y, (y - x) / y;
    assert f * y == x && g * y == y - x;
    Cancel(g, 1.0 - f, y);
  }

  lemma {:induction false} Cancel(f: real, g: real, y: real)
    requires y > 0.0
    ensures f * y == g * y ==> f == g
    ensures f * y <= g * y ==> f <= g
    ensures f * y < g * y ==> f < g
  {
    assert f > g ==> (f - g) * y > 0.0;
    assert f < g ==> (g - f) * y > 0.0;
  }

  lemma {:induction false} FractionRange(p: real, q: real)
    requires 0.0 <= p <= q && 0.0 < q
    ensures 0.0 <= p / q <= 1.0
    ensures p / q == 0.0 <==> p == 0.0
    ensures p / q == 1.0 <==> p == q
  {
    var f := p / q;
    assert f * q == p && (f - 1.0) * q == p - q;
    assert f < 0.0 ==> f * q < 0.0;
    assert f - 1.0 > 0.0 ==> (f - 1.0) * q > 0.0;
  }

  /** Enlarging numerator and denominator alike enlarges a fraction that is at most one. */
  lemma {:induction false} FractionGrows(p: real, q: real, x: real)
    requires 0.0 <= p <= q && 0.0 < q && 0.0 <= x
    ensures p / q <= (p + x) / (q + x)
  {
    var f := p / q;
    FractionRange(p, q);
    assert f * q == p;
    assert f * (q + x) == p + f * x;
    assert f * x <= x;
    var g := (p + x) / (q + x);
    assert g * (q + x) == p + x;
    assert f * (q + x) <= g * (q + x);
    Cancel(f, g, q + x);
  }

  lemma {:induction false} FractionShrinks(p: real, q: real, n: real)
    requires 0.0 <= p && 0.0 < q <= n
    ensures p / q >= p / n
  {
    var f, g := p / q, p / n;
    assert f * q == p && g * n == p && g >= 0.0;
    assert g * n >= g * q;
    Cancel(g, f, q);
  }

  lemma {:induction false} FractionsAdd(p: real, q: real, n: real, r: real)
    requires n > 0.0 && r <= p + q
    ensures r / n <= p / n + q / n
  {
    assert p / n + q / n == (p + q) / n;
    var f, g := r / n, (p + q) / n;
    assert f * n == r && g * n == p + q;
    Cancel(f, g, n);
  }

  /** Distances are symmetric, lie between zero and one, and are zero exactly between equal sets. */
  lemma {:induction false} DistanceBasics<T>(a: set<T>, b: set<T>)
    requires a + b != {}
    ensures Distance(a, b) == Distance(b, a)
    ensures 0.0 <= Distance(a, b) <= 1.0
    ensures Distance(a, b) == 0.0 <==> a == b
    ensures Distance(a, b) == 1.0 <==> a !! b
  {
    assert a + b == b + a && a * b == b * a;
    SubsetSize(a * b, a + b);
    var u, i := |a + b| as real, |a * b| as real;
    if a == b {
      assert a * b == a && a + b == a;
    } else {
      var x :| x in a + b && x !in a * b;
      assert x in (a + b) - (a * b);
      assert a + b == a * b + ((a + b) - (a * b));
      DisjointSizes(a * b, (a + b) - (a * b));
    }
    FractionRange(i, u);
    assert a !! b <==> a * b == {};
  }

  /** The counting fact behind the triangle inequality. */
  lemma {:induction false} ThreeSets<T>(a: set<T>, b: set<T>, c: set<T>)
    ensures |a + b + c| + |a * b| + |b * c| <= |a + b| + |b + c| + |a * c|
  {
    InclusionExclusion(a + b, b + c);
    assert (a + b) + (b + c) == a + b + c && (a + b) * (b + c) == b + a * c;
    InclusionExclusion(a * b, b * c);
    assert a * b + b * c == b * (a + c) && (a * b) * (b * c) == b * (a * c);
    InclusionExclusion(b, a * c);
    SubsetSize(b * (a + c), b);
    SubsetSize(b * (a * c), a * c);
  }

  /** The triangle inequality. */
  lemma {:induction false} Triangle<T>(a: set<T>, b: set<T>, c: set<T>)
    requires a + b != {} && b + c != {} && a + c != {}
    ensures Distance(a, c) <= Distance(a, b) + Distance(b, c)
  {
    DistanceIsFraction(a, b);
    DistanceIsFraction(b, c);
    DistanceIsFraction(a, c);
    SubsetSize(a + b, a + b + c);
    SubsetSize(b + c, a + b + c);
    SubsetSize(a + c, a + b + c);
    SubsetSize(a * b, a + b);
    SubsetSize(b * c, b + c);
    SubsetSize(a * c, a + c);
    ThreeSets(a, b, c);
    TriangleOfCounts(|a + b + c|, |a + b|, |a * b|, |b + c|, |b * c|, |a + c|, |a * c|);
  }

  lemma {:induction false} TriangleOfCounts(n: int, ab: int, ab': int, bc: int, bc': int, ac: int, ac': int)
    requires 0 <= ab' <= ab <= n && 0 <= bc' <= bc <= n && 0 <= ac' <= ac <= n && 0 < ab && 0 < bc && 0 < ac
    requires n + ab' + bc' <= ab + bc + ac'
    ensures (ac - ac') as real / ac as real <= (ab - ab') as real / ab as real + (bc - bc') as real / bc as real
  {
    FractionGrows((ac - ac') as real, ac as real, (n - ac) as real);
    FractionShrinks((ab - ab') as real, ab as real, n as real);
    FractionShrinks((bc - bc') as real, bc as real, n as real);
    FractionsAdd((ab - ab') as real, (bc - bc') as real, n as real, (n - ac') as real);
  }
}
