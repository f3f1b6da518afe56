/** The discrete Fourier transform as a sum, and why multiplying transforms convolves. */
module Dft {
  import opened ConvSpec

  const ONE := Complex(1.0, 0.0)

  lemma {:induction false} MulOne(x: Complex)
    ensures Mul(ONE, x) == x && Mul(x, ONE) == x
  {
  }

  lemma {:induction false} MulAssociates(x: Complex, y: Complex, z: Complex)
    ensures Mul(Mul(x, y), z) == Mul(x, Mul(y, z))
  {
    RealAssociates(x.re, y.re, z.re);
    RealAssociates(x.re, y.re, z.im);
    RealAssociates(x.re, y.im, z.re);
    RealAssociates(x.re, y.im, z.im);
    RealAssociates(x.im, y.re, z.re);
    RealAssociates(x.im, y.re, z.im);
    RealAssociates(x.im, y.im, z.re);
    RealAssociates(x.im, y.im, z.im);
    Distributed(x, y, z);
  }

  lemma {:induction false} RealAssociates(x: real, y: real, z: real)
    ensures (x * y) * z == x * (y * z)
  {
  }

  lemma {:induction false} Distributed(x: Complex, y: Complex, z: Complex)
    ensures (x.re * y.re - x.im * y.im) * z.re == x.re * y.re * z.re - x.im * y.im * z.re
    ensures (x.re * y.re - x.im * y.im) * z.im == x.re * y.re * z.im - x.im * y.im * z.im
    ensures (x.re * y.im + x.im * y.re) * z.re == x.re * y.im * z.re + x.im * y.re * z.re
    ensures (x.re * y.im + x.im * y.re) * z.im == x.re * y.im * z.im + x.im * y.re * z.im
    ensures x.re * (y.re * z.re - y.im * z.im) == x.re * (y.re * z.re) - x.re * (y.im * z.im)
    ensures x.im * (y.re * z.re - y.im * z.im) == x.im * (y.re * z.re) - x.im * (y.im * z.im)
    ensures x.re * (y.re * z.im + y.im * z.re) == x.re * (y.re * z.im) + x.re * (y.im * z.re)
    ensures x.im * (y.re * z.im + y.im * z.re) == x.im * (y.re * z.im) + x.im * (y.im * z.re)
  {
  }

  lemma {:induction false} ConjMul(x: Complex, y: Complex)
    ensures Conj(Mul(x, y)) == Mul(Conj(x), Conj(y))
  {
  }

  /** (x y) (z w) = (x z) (y w) */
  lemma {:induction false} MulInterchange(x: Complex, y: Complex, z: Complex, w: Complex)
    ensures Mul(Mul(x, y), Mul(z, w)) == Mul(Mul(x, z), Mul(y, w))
  {
    MulAssociates(x, y, Mul(z, w));
    MulAssociates(y, z, w);
    MulCommutes(y, z);
    MulAssociates(z, y, w);
    MulAssociates(x, z, Mul(y, w));
  }

  // ---------------------------------------------------------------- powers

  function Pow(u: Complex, k: nat): Complex {
    if k == 0 then ONE else Mul(Pow(u, k - 1), u)
  }

  lemma {:induction false} PowAdd(u: Complex, j: nat, k: nat)
    ensures Pow(u, j + k) == Mul(Pow(u, j), Pow(u, k))
  {
    if k == 0 {
      MulOne(Pow(u, j));
    } else {
      PowAdd(u, j, k - 1);
      MulAssociates(Pow(u, j), Pow(u, k - 1), u);
    }
  }

  lemma {:induction false} PowSame(u: Complex, k: nat)
    requires k > 0 && u == ONE
    ensures Pow(u, k) == Pow(u, k - 1)
  {
    MulOne(Pow(u, k - 1));
  }

  lemma {:induction false} Constant(f: nat -> Complex, k: nat)
    requires forall j: nat :: f(j + 1) == f(j)
    ensures f(k) == f(0)
  {
    if k > 0 {
      Constant(f, k - 1);
      assert f(k - 1 + 1) == f(k - 1);
    }
  }

  lemma {:induction false} PowOne(u: Complex, k: nat)
    requires u == ONE
    ensures Pow(u, k) == ONE
  {
    var f := (j: nat) => Pow(u, j);
    forall j: nat ensures f(j + 1) == f(j) { PowSame(u, j + 1); }
    Constant(f, k);
  }

  lemma {:induction false} PowMul(u: Complex, v: Complex, k: nat)
    ensures Pow(Mul(u, v), k) == Mul(Pow(u, k), Pow(v, k))
  {
    if k > 0 {
      PowMul(u, v, k - 1);
      MulInterchange(Pow(u, k - 1), Pow(v, k - 1), u, v);
    }
  }

  lemma {:induction false} PowSwap(u: Complex, j: nat, k: nat)
    ensures Pow(Pow(u, j), k) == Pow(Pow(u, k), j)
  {
    if j == 0 {
      PowOne(Pow(u, 0), k);
    } else {
      PowMul(Pow(u, j - 1), u, k);
      PowSwap(u, j - 1, k);
    }
  }

  lemma {:induction false} PowConj(u: Complex, k: nat)
    ensures Conj(Pow(u, k)) == Pow(Conj(u), k)
  {
    if k > 0 {
      PowConj(u, k - 1);
      ConjMul(Pow(u, k - 1), u);
    }
  }

  // ---------------------------------------------------------------- evaluation

  function PowersOf(u: Complex): int -> Complex { (j: int) => if j < 0 then ONE else Pow(u, j) }

  /** The sequence as coefficients of a polynomial, evaluated at u. */
  function Eval(x: seq<Complex>, u: Complex): Complex { Dot(PowersOf(u), x) }

  lemma {:induction false} DotKernelScaled(f: int -> Complex, g: int -> Complex, c: Complex, b: seq<Complex>)
    requires forall j :: 0 <= j < |b| ==> g(j) == Mul(c, f(j))
    ensures Dot(g, b) == Mul(c, Dot(f, b))
  {
    if b == [] {
      MulZero(c);
    } else {
      var n := |b| - 1;
      DotKernelScaled(f, g, c, b[..n]);
      MulAssociates(c, f(n), b[n]);
      MulDistributes(Dot(f, b[..n]), Mul(f(n), b[n]), c);
    }
  }

  lemma {:induction false} DotDataScaled(f: int -> Complex, b: seq<Complex>, d: seq<Complex>, c: Complex)
    requires |b| == |d| && forall j :: 0 <= j < |b| ==> d[j] == Mul(b[j], c)
    ensures Dot(f, d) == Mul(Dot(f, b), c)
  {
    if b == [] {
      MulZero(c);
    } else {
      var n := |b| - 1;
      DotDataScaled(f, b[..n], d[..n], c);
      MulAssociates(f(n), b[n], c);
      MulDistributes(Dot(f, b[..n]), Mul(f(n), b[n]), c);
    }
  }

  lemma {:induction false} DotSnoc(f: int -> Complex, b: seq<Complex>)
    requires b != []
    ensures Dot(f, b) == Add(Dot(f, b[..|b| - 1]), Mul(f(|b| - 1), b[|b| - 1]))
  {
  }

  /** Moving the last sample to the front multiplies the value at a root of unity by that root. */
  lemma {:induction false} EvalRotated(s: seq<Complex>, u: Complex)
    requires s != [] && Pow(u, |s|) == ONE
    ensures Eval([s[|s| - 1]] + s[..|s| - 1], u) == Mul(u, Eval(s, u))
  {
    var n, f := |s| - 1, PowersOf(u);
    var last, front := s[n], s[..n];
    var g := (j: int) => f(1 + j);
    DotConcat(f, g, [last], front);
    forall j | 0 <= j < n ensures g(j) == Mul(u, f(j)) {
      MulCommutes(u, f(j));
      assert g(j) == Pow(u, 1 + j) == Mul(Pow(u, j), u);
    }
    DotKernelScaled(f, g, u, front);
    DotSingle(f, last);
    MulOne(last);
    DotSnoc(f, s);
    RotatedLast(u, n, last);
    MulDistributes(Dot(f, front), Mul(Pow(u, n), last), u);
    PlusCommutes(last, Mul(u, Dot(f, front)));
  }

  lemma {:induction false} RotatedLast(u: Complex, n: nat, last: Complex)
    requires Pow(u, n + 1) == ONE
    ensures Mul(u, Mul(Pow(u, n), last)) == last
  {
    MulAssociates(u, Pow(u, n), last);
    MulCommutes(u, Pow(u, n));
    MulOne(last);
  }

  // ---------------------------------------------------------------- the convolution theorem

  /** The signal delayed by i, with wrap-around. */
  function Rotated(x: seq<Complex>, i: int): (r: seq<Complex>)
    ensures |r| == |x| && forall k :: 0 <= k < |x| ==> r[k] == Around(x, k - i)
  {
    seq(|x|, k => Around(x, k - i))
  }

  lemma {:induction false} RotatedAgain(x: seq<Complex>, i: int)
    requires x != []
    ensures Rotated(x, i + 1) == [Rotated(x, i)[|x| - 1]] + Rotated(x, i)[..|x| - 1]
  {
    var n, r := |x| - 1, Rotated(x, i);
    var s := [r[n]] + r[..n];
    forall k | 0 <= k <= n ensures s[k] == Rotated(x, i + 1)[k] {
      if k == 0 {
        AroundPeriod(x, n - i);
        assert (n - i) - |x| == 0 - (i + 1);
      } else {
        assert r[k - 1] == Around(x, k - 1 - i) && k - 1 - i == k - (i + 1);
      }
    }
  }

  lemma {:induction false} AroundPeriod(x: seq<Complex>, i: int)
    requires x != []
    ensures Around(x, i - |x|) == Around(x, i)
  {
    ModPeriod(i, -1, |x|);
  }

  lemma {:induction false} NotRotated(x: seq<Complex>)
    ensures Rotated(x, 0) == x
  {
    forall k | 0 <= k < |x| ensures Rotated(x, 0)[k] == x[k] { ModBelow(k - 0, |x|); }
  }

  lemma {:induction false} EvalDelayed(x: seq<Complex>, u: Complex, i: nat)
    requires x != [] && Pow(u, |x|) == ONE
    ensures Eval(Rotated(x, i), u) == Mul(Pow(u, i), Eval(x, u))
  {
    if i == 0 {
      NotRotated(x);
      MulOne(Eval(x, u));
    } else {
      EvalDelayed(x, u, i - 1);
      RotatedAgain(x, i - 1);
      EvalRotated(Rotated(x, i - 1), u);
      MulAssociates(u, Pow(u, i - 1), Eval(x, u));
      MulCommutes(u, Pow(u, i - 1));
    }
  }

  /** The circular convolution with the first samples of y. */
  function Partly(x: seq<Complex>, y: seq<Complex>, i: nat): (r: seq<Complex>)
    requires i <= |y|
    ensures |r| == |x|
  {
    Circular(x, y[..i])
  }

  /** One more sample of y adds a delayed copy of x. */
  lemma {:induction false} PartlySnoc(x: seq<Complex>, y: seq<Complex>, f: int -> Complex, i: nat)
    requires i < |y|
    ensures Dot(f, Partly(x, y, i + 1)) == Add(Dot(f, Partly(x, y, i)), Mul(Dot(f, Rotated(x, i)), y[i]))
  {
    var added := seq(|x|, k requires 0 <= k < |x| => Mul(Rotated(x, i)[k], y[i]));
    forall k | 0 <= k < |x| ensures Partly(x, y, i + 1)[k] == Add(Partly(x, y, i)[k], added[k]) {
      CircSnoc(x, y, i, k);
    }
    DotTermwise(f, Partly(x, y, i), added, Partly(x, y, i + 1));
    DotDataScaled(f, Rotated(x, i), added, y[i]);
  }

  lemma {:induction false} EvalPartly(x: seq<Complex>, y: seq<Complex>, u: Complex, i: nat)
    requires x != [] && Pow(u, |x|) == ONE && i <= |y|
    ensures Eval(Partly(x, y, i), u) == Mul(Eval(x, u), Eval(y[..i], u))
  {
    if i == 0 {
      assert y[..0] == [];
      MulZero(Eval(x, u));
      DotZero(PowersOf(u), Partly(x, y, 0));
    } else {
      var n := i - 1;
      EvalPartly(x, y, u, n);
      PartlySnoc(x, y, PowersOf(u), n);
      EvalDelayed(x, u, n);
      assert y[..i][..n] == y[..n] && y[..i][n] == y[n];
      DotSnoc(PowersOf(u), y[..i]);
      NextProduct(Eval(x, u), Eval(y[..n], u), Pow(u, n), y[n]);
    }
  }

  lemma {:induction false} NextProduct(x: Complex, y: Complex, p: Complex, v: Complex)
    ensures Add(Mul(x, y), Mul(Mul(p, x), v)) == Mul(x, Add(y, Mul(p, v)))
  {
    MulDistributes(y, Mul(p, v), x);
    MulCommutes(p, x);
    MulAssociates(x, p, v);
  }

  /** At every root of unity of the signal's length, the value of the circular convolution is the product of values. */
  lemma {:induction false} ConvolutionTheorem(x: seq<Complex>, y: seq<Complex>, u: Complex)
    requires x != [] && Pow(u, |x|) == ONE
    ensures Eval(Circular(x, y), u) == Mul(Eval(x, u), Eval(y, u))
  {
    assert y[..|y|] == y;
    EvalPartly(x, y, u, |y|);
  }

  // ---------------------------------------------------------------- geometric sums

  function Geometric(t: Complex, n: nat): Complex {
    if n == 0 then ZERO else Add(Geometric(t, n - 1), Pow(t, n - 1))
  }

  lemma {:induction false} Telescopes(t: Complex, n: nat)
    ensures Add(Mul(Geometric(t, n), t), ONE) == Add(Geometric(t, n), Pow(t, n))
  {
    if n == 0 {
      MulZero(t);
    } else {
      Telescopes(t, n - 1);
      TelescopeStep(Geometric(t, n - 1), Pow(t, n - 1), t);
    }
  }

  lemma {:induction false} TelescopeStep(g: Complex, p: Complex, t: Complex)
    requires Add(Mul(g, t), ONE) == Add(g, p)
    ensures Add(Mul(Add(g, p), t), ONE) == Add(Add(g, p), Mul(p, t))
  {
    MulDistributes(g, p, t);
  }

  /** Only zero is unchanged by a factor other than one. */
  lemma {:induction false} FixedIsZero(g: Complex, t: Complex)
    requires Mul(g, t) == g && t != ONE
    ensures g == ZERO
  {
    Spread(g.re, t.re);
    Spread(g.im, t.im);
    Spread(g.re, t.im);
    Spread(g.im, t.re);
    BothZero(g.re, g.im, t.re - 1.0, t.im);
  }

  lemma {:induction false} Spread(x: real, y: real)
    ensures x * (y - 1.0) == x * y - x
  {
  }

  lemma {:induction false} BothZero(x: real, y: real, a: real, b: real)
    requires x * a - y * b == 0.0 && x * b + y * a == 0.0 && (a != 0.0 || b != 0.0)
    ensures x == 0.0 && y == 0.0
  {
    var p, q, s := x * a - y * b, x * b + y * a, a * a + b * b;
    SquarePositive(a, b, s);
    WeightedZero(p, q, a, b);
    Expanded(x, y, a, b, p, q, s);
    ProductZero(x, s);
    ProductZero(y, s);
  }

  lemma {:induction false} Expanded(x: real, y: real, a: real, b: real, p: real, q: real, s: real)
    requires p == x * a - y * b && q == x * b + y * a && s == a * a + b * b
    requires p * a + q * b == 0.0 && q * a - p * b == 0.0
    ensures x * s == 0.0 && y * s == 0.0
  {
    assert x * s == p * a + q * b;
    assert y * s == q * a - p * b;
  }

  lemma {:induction false} WeightedZero(p: real, q: real, a: real, b: real)
    requires p == 0.0 && q == 0.0
    ensures p * a + q * b == 0.0 && q * a - p * b == 0.0
  {
  }

  lemma {:induction false} SquarePositive(a: real, b: real, s: real)
    requires (a != 0.0 || b != 0.0) && s == a * a + b * b
    ensures s > 0.0
  {
    Square(a, a * a);
    Square(b, b * b);
  }

  lemma {:induction false} Square(v: real, sq: real)
    requires sq == v * v
    ensures sq >= 0.0 && (v != 0.0 ==> sq > 0.0)
  {
    SameSigns(v, v, sq);
  }

  lemma {:induction false} SameSigns(x: real, y: real, p: real)
    requires p == x * y
    ensures x > 0.0 && y > 0.0 ==> p > 0.0
    ensures x < 0.0 && y < 0.0 ==> p > 0.0
  {
  }

  lemma {:induction false} ProductZero(x: real, s: real)
    requires s > 0.0 && x * s == 0.0
    ensures x == 0.0
  {
  }

  lemma {:induction false} GeometricVanishes(t: Complex, n: nat)
    requires t != ONE && Pow(t, n) == ONE
    ensures Geometric(t, n) == ZERO
  {
    Telescopes(t, n);
    AddCancels(Mul(Geometric(t, n), t), Geometric(t, n), ONE);
    FixedIsZero(Geometric(t, n), t);
  }

  lemma {:induction false} AddCancels(x: Complex, y: Complex, z: Complex)
    requires Add(x, z) == Add(y, z)
    ensures x == y
  {
  }

  lemma {:induction false} SumOfOnes(f: nat -> Complex, g: nat -> Complex, n: nat)
    requires g(0) == ZERO && (forall j: nat :: g(j + 1) == Add(g(j), f(j))) && forall j: nat :: f(j) == ONE
    ensures g(n) == Complex(n as real, 0.0)
  {
    if n > 0 {
      SumOfOnes(f, g, n - 1);
      assert g(n - 1 + 1) == Add(g(n - 1), f(n - 1));
    }
  }

  lemma {:induction false} GeometricOnes(t: Complex, n: nat)
    requires t == ONE
    ensures Geometric(t, n) == Complex(n as real, 0.0)
  {
    var f, g := (j: nat) => Pow(t, j), (j: nat) => Geometric(t, j);
    forall j: nat ensures f(j) == ONE { PowOne(t, j); }
    SumOfOnes(f, g, n);
  }

  // ---------------------------------------------------------------- inversion

  /** A primitive n-th root of unity on the unit circle, such as exp(-2 pi i / n). */
  ghost predicate PrimitiveRoot(w: Complex, n: nat) {
    && n > 0 && Mul(Conj(w), w) == ONE && Pow(w, n) == ONE
    && forall j: nat :: 0 < j < n ==> Pow(w, j) != ONE
  }

  lemma {:induction false} RootPowers(w: Complex, n: nat, k: nat)
    requires PrimitiveRoot(w, n)
    ensures Pow(Pow(w, k), n) == ONE && Pow(Pow(Conj(w), k), n) == ONE && Mul(Pow(Conj(w), k), Pow(w, k)) == ONE
  {
    PowSwap(w, k, n);
    PowOne(Pow(w, n), k);
    PowConj(w, n);
    PowSwap(Conj(w), k, n);
    PowOne(Pow(Conj(w), n), k);
    PowMul(Conj(w), w, k);
    PowOne(Mul(Conj(w), w), k);
  }

  lemma {:induction false} QuotientAbove(vk: Complex, pk: Complex, d: Complex, p: Complex)
    requires Mul(vk, pk) == ONE && p == Mul(pk, d)
    ensures Mul(vk, p) == d
  {
    MulAssociates(vk, pk, d);
    MulOne(d);
  }

  lemma {:induction false} QuotientBelow(d: Complex, vi: Complex, pi: Complex, v: Complex)
    requires Mul(vi, pi) == ONE && v == Mul(d, vi)
    ensures Mul(v, pi) == d
  {
    MulAssociates(d, vi, pi);
    MulOne(d);
  }

  /** The quotient of two powers of a primitive root. */
  function Quotient(w: Complex, k: nat, i: nat): Complex { Mul(Pow(Conj(w), k), Pow(w, i)) }

  lemma {:induction false} QuotientIs(w: Complex, n: nat, k: nat, i: nat)
    requires PrimitiveRoot(w, n)
    ensures i >= k ==> Quotient(w, k, i) == Pow(w, i - k)
    ensures i < k ==> Quotient(w, k, i) == Pow(Conj(w), k - i)
  {
    if i >= k {
      RootPowers(w, n, k);
      PowAdd(w, k, i - k);
      QuotientAbove(Pow(Conj(w), k), Pow(w, k), Pow(w, i - k), Pow(w, i));
    } else {
      RootPowers(w, n, i);
      PowAdd(Conj(w), k - i, i);
      QuotientBelow(Pow(Conj(w), k - i), Pow(Conj(w), i), Pow(w, i), Pow(Conj(w), k));
    }
  }

  /** It is one only for equal exponents, and always a root of unity. */
  lemma {:induction false} QuotientOne(w: Complex, n: nat, k: nat, i: nat)
    requires PrimitiveRoot(w, n) && k < n && i < n
    ensures Quotient(w, k, i) == ONE <==> i == k
    ensures Pow(Quotient(w, k, i), n) == ONE
  {
    QuotientIs(w, n, k, i);
    if i >= k {
      RootPowers(w, n, i - k);
    } else {
      RootPowers(w, n, k - i);
      PowConj(w, k - i);
      ConjOne(Pow(w, k - i));
    }
  }

  lemma {:induction false} ConjOne(x: Complex)
    ensures Conj(x) == ONE ==> x == ONE
  {
  }

  /** The values of b, as coefficients, at the n powers of w. */
  function Spectrum(w: Complex, b: seq<Complex>, n: nat): (s: seq<Complex>)
    ensures |s| == n && forall j :: 0 <= j < n ==> s[j] == Eval(b, Pow(w, j))
  {
    seq(n, j requires 0 <= j < n => Eval(b, Pow(w, j)))
  }

  /** The powers of a single coefficient's position. */
  function Harmonic(w: Complex, i: nat, n: nat): (s: seq<Complex>)
    ensures |s| == n && forall j :: 0 <= j < n ==> s[j] == Pow(Pow(w, j), i)
  {
    seq(n, j requires 0 <= j < n => Pow(Pow(w, j), i))
  }

  lemma {:induction false} DotIsGeometric(f: int -> Complex, s: seq<Complex>, t: Complex)
    requires forall j :: 0 <= j < |s| ==> Mul(f(j), s[j]) == Pow(t, j)
    ensures Dot(f, s) == Geometric(t, |s|)
  {
    if s != [] { DotIsGeometric(f, s[..|s| - 1], t); }
  }

  lemma {:induction false} HarmonicTerm(w: Complex, u: Complex, i: nat, j: nat)
    ensures Mul(Pow(u, j), Pow(Pow(w, j), i)) == Pow(Mul(u, Pow(w, i)), j)
  {
    PowSwap(w, j, i);
    PowMul(u, Pow(w, i), j);
  }

  lemma {:induction false} HarmonicSum(w: Complex, u: Complex, i: nat, n: nat)
    ensures Dot(PowersOf(u), Harmonic(w, i, n)) == Geometric(Mul(u, Pow(w, i)), n)
  {
    forall j | 0 <= j < n ensures Mul(PowersOf(u)(j), Harmonic(w, i, n)[j]) == Pow(Mul(u, Pow(w, i)), j) {
      HarmonicTerm(w, u, i, j);
    }
    DotIsGeometric(PowersOf(u), Harmonic(w, i, n), Mul(u, Pow(w, i)));
  }

  function Real(v: real): Complex { Complex(v, 0.0) }

  /** The harmonic of position i, seen at time k, sums to n or to nothing. */
  lemma {:induction false} HarmonicSeen(w: Complex, n: nat, i: nat, k: nat)
    requires PrimitiveRoot(w, n) && k < n && i < n
    ensures Dot(PowersOf(Pow(Conj(w), k)), Harmonic(w, i, n)) == if i == k then Real(n as real) else ZERO
  {
    HarmonicSum(w, Pow(Conj(w), k), i, n);
    QuotientOne(w, n, k, i);
    if i == k {
      GeometricOnes(Quotient(w, k, i), n);
    } else {
      GeometricVanishes(Quotient(w, k, i), n);
    }
  }

  /** One more coefficient adds its harmonic to the spectrum. */
  lemma {:induction false} SpectrumSnoc(w: Complex, b: seq<Complex>, n: nat, f: int -> Complex)
    requires b != []
    ensures var i := |b| - 1;
      Dot(f, Spectrum(w, b, n)) == Add(Dot(f, Spectrum(w, b[..i], n)), Mul(Dot(f, Harmonic(w, i, n)), b[i]))
  {
    var i := |b| - 1;
    var added := seq(n, j requires 0 <= j < n => Mul(Harmonic(w, i, n)[j], b[i]));
    forall j | 0 <= j < n ensures Spectrum(w, b, n)[j] == Add(Spectrum(w, b[..i], n)[j], added[j]) {
      DotSnoc(PowersOf(Pow(w, j)), b);
    }
    DotTermwise(f, Spectrum(w, b[..i], n), added, Spectrum(w, b, n));
    DotDataScaled(f, Harmonic(w, i, n), added, b[i]);
  }

  /** Transforming back the spectrum of n coefficients or fewer gives n times each coefficient. */
  lemma {:induction false} SpectrumInverts(w: Complex, b: seq<Complex>, n: nat, k: nat)
    requires PrimitiveRoot(w, n) && |b| <= n && k < n
    ensures Eval(Spectrum(w, b, n), Pow(Conj(w), k)) == if k < |b| then Mul(Real(n as real), b[k]) else ZERO
  {
    var f := PowersOf(Pow(Conj(w), k));
    if b == [] {
      DotZero(f, Spectrum(w, b, n));
    } else {
      var i := |b| - 1;
      SpectrumInverts(w, b[..i], n, k);
      SpectrumSnoc(w, b, n, f);
      HarmonicSeen(w, n, i, k);
      OneMoreSeen(n as real, b[i], Eval(Spectrum(w, b[..i], n), Pow(Conj(w), k)));
    }
  }

  lemma {:induction false} OneMoreSeen(n: real, v: Complex, before: Complex)
    ensures Add(before, Mul(ZERO, v)) == before
    ensures before == ZERO ==> Add(before, Mul(Real(n), v)) == Mul(Real(n), v)
  {
    MulZero(v);
  }

  // ---------------------------------------------------------------- the transform chain

  /** The transform: the values at all powers of the root. */
  function Transform(w: Complex, x: seq<Complex>): (s: seq<Complex>)
    ensures |s| == |x|
  {
    Spectrum(w, x, |x|)
  }

  /** Products of two spectra, conjugated. */
  function ConjugateProducts(x: seq<Complex>, y: seq<Complex>): (z: seq<Complex>)
    requires |x| == |y|
    ensures |z| == |x| && forall j :: 0 <= j < |x| ==> z[j] == Conj(Mul(x[j], y[j]))
  {
    seq(|x|, j requires 0 <= j < |x| => Conj(Mul(x[j], y[j])))
  }

  /** Conjugate and divide by n. */
  function Reduced(n: real, q: Complex): Complex
    requires n != 0.0
  {
    Complex(1.0 / n * q.re, -(1.0 / n) * q.im)
  }

  function ScaleBack(z: seq<Complex>): (r: seq<Complex>)
    ensures |r| == |z| && forall k :: 0 <= k < |z| ==> r[k] == Reduced(|z| as real, z[k])
  {
    seq(|z|, k requires 0 <= k < |z| => Reduced(|z| as real, z[k]))
  }

  /** What the transform-based code does: transform both inputs, multiply and conjugate, transform again with the same
      plan, conjugate and scale. */
  function Transformed(w: Complex, x: seq<Complex>, y: seq<Complex>): (z: seq<Complex>)
    requires |x| == |y|
    ensures |z| == |x|
  {
    ScaleBack(Transform(w, ConjugateProducts(Transform(w, x), Transform(w, y))))
  }

  lemma {:induction false} EvalConj(x: seq<Complex>, y: seq<Complex>, u: Complex)
    requires |x| == |y| && forall j :: 0 <= j < |x| ==> y[j] == Conj(x[j])
    ensures Conj(Eval(y, u)) == Eval(x, Conj(u))
  {
    if x != [] {
      var n := |x| - 1;
      EvalConj(x[..n], y[..n], u);
      DotSnoc(PowersOf(u), y);
      DotSnoc(PowersOf(Conj(u)), x);
      PowConj(u, n);
      ConjMul(Pow(u, n), y[n]);
      ConjAdd(Eval(y[..n], u), Mul(Pow(u, n), y[n]));
    }
  }

  lemma {:induction false} ConjAdd(x: Complex, y: Complex)
    ensures Conj(Add(x, y)) == Add(Conj(x), Conj(y))
  {
  }

  lemma {:induction false} ScaledBack(n: real, c: Complex, q: Complex)
    requires n > 0.0 && Conj(q) == Mul(Real(n), c)
    ensures Reduced(n, q) == c
  {
    var t := 1.0 / n;
    assert t * n == 1.0;
    Unscale(t, n, c.re);
    Unscale(t, n, c.im);
  }

  lemma {:induction false} Unscale(t: real, n: real, v: real)
    requires t * n == 1.0
    ensures t * (n * v) == v
  {
    assert t * (n * v) == t * n * v;
  }

  /** The conjugated products are the conjugated spectrum of the convolution. */
  lemma {:induction false} ProductsAreSpectrum(w: Complex, x: seq<Complex>, y: seq<Complex>, j: nat)
    requires |x| == |y| && PrimitiveRoot(w, |x|) && j < |x|
    ensures ConjugateProducts(Transform(w, x), Transform(w, y))[j] == Conj(Spectrum(w, Circular(x, y), |x|)[j])
  {
    RootPowers(w, |x|, j);
    ConvolutionTheorem(x, y, Pow(w, j));
  }

  /** Transforming a conjugated spectrum gives n times the conjugated coefficients. */
  lemma {:induction false} TransformsBack(w: Complex, c: seq<Complex>, z: seq<Complex>, k: nat)
    requires PrimitiveRoot(w, |c|) && |z| == |c| && k < |c|
    requires forall j :: 0 <= j < |c| ==> z[j] == Conj(Spectrum(w, c, |c|)[j])
    ensures Conj(Transform(w, z)[k]) == Mul(Real(|c| as real), c[k])
  {
    EvalConj(Spectrum(w, c, |c|), z, Pow(w, k));
    PowConj(w, k);
    SpectrumInverts(w, c, |c|, k);
  }

  /** The chain computes circular convolution, whatever primitive root the plan is built on. */
  lemma {:induction false} TransformedIsCircular(w: Complex, x: seq<Complex>, y: seq<Complex>)
    requires |x| == |y| && PrimitiveRoot(w, |x|)
    ensures Transformed(w, x, y) == Circular(x, y)
  {
    var c, z := Circular(x, y), ConjugateProducts(Transform(w, x), Transform(w, y));
    forall j: nat | j < |x| ensures z[j] == Conj(Spectrum(w, c, |x|)[j]) { ProductsAreSpectrum(w, x, y, j); }
    forall k: nat | k < |x| ensures Reduced(|x| as real, Transform(w, z)[k]) == c[k] {
      TransformsBack(w, c, z, k);
      ScaledBack(|x| as real, c[k], Transform(w, z)[k]);
    }
    ScaleBackIs(Transform(w, z), c);
  }

  lemma {:induction false} ScaleBackIs(z: seq<Complex>, c: seq<Complex>)
    requires |z| == |c| && forall k: nat :: k < |z| ==> Reduced(|z| as real, z[k]) == c[k]
    ensures ScaleBack(z) == c
  {
  }
}
