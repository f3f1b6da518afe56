/** Convolution and correlation as sums, and the laws that relate their forms. */
module ConvSpec {

  datatype Complex = Complex(re: real, im: real)

  const ZERO := Complex(0.0, 0.0)

  function Add(x: Complex, y: Complex): Complex { Complex(x.re + y.re, x.im + y.im) }

  function Mul(x: Complex, y: Complex): Complex {
    Complex(x.re * y.re - x.im * y.im, x.re * y.im + x.im * y.re)
  }

  function Conj(x: Complex): Complex { Complex(x.re, -x.im) }

  lemma {:induction false} MulDistributes(x: Complex, y: Complex, z: Complex)
    ensures Mul(Add(x, y), z) == Add(Mul(x, z), Mul(y, z))
    ensures Mul(z, Add(x, y)) == Add(Mul(z, x), Mul(z, y))
  {
    RealDistributes(x.re, y.re, z.re);
    RealDistributes(x.re, y.re, z.im);
    RealDistributes(x.im, y.im, z.re);
    RealDistributes(x.im, y.im, z.im);
  }

  lemma {:induction false} RealDistributes(x: real, y: real, z: real)
    ensures (x + y) * z == x * z + y * z && z * (x + y) == x * z + y * z && x * z == z * x && y * z == z * y
  {
  }

  lemma {:induction false} MulCommutes(x: Complex, y: Complex)
    ensures Mul(x, y) == Mul(y, x)
  {
  }

  lemma {:induction false} MulZero(x: Complex)
    ensures Mul(ZERO, x) == ZERO && Mul(x, ZERO) == ZERO
  {
  }

  /** The signal extended by zeros to all times. */
  function At(a: seq<Complex>, i: int): Complex {
    if 0 <= i < |a| then a[i] else ZERO
  }

  /** The signal repeated with its own period. */
  function Around(a: seq<Complex>, i: int): Complex {
    if a == [] then ZERO else a[i % |a|]
  }

  /** The sum of f(j) * b[j] over all positions of b. */
  function Dot(f: int -> Complex, b: seq<Complex>): Complex {
    if b == [] then ZERO else Add(Dot(f, b[..|b| - 1]), Mul(f(|b| - 1), b[|b| - 1]))
  }

  function Behind(a: seq<Complex>, k: int): int -> Complex { (j: int) => At(a, k - j) }
  function BehindAround(a: seq<Complex>, k: int): int -> Complex { (j: int) => Around(a, k - j) }
  function Ahead(a: seq<Complex>, k: int): int -> Complex { (j: int) => At(a, k + j) }
  function AheadAround(a: seq<Complex>, k: int): int -> Complex { (j: int) => Around(a, k + j) }

  /** Linear convolution at time k: the sum of a[k-j] * b[j]. */
  function LinAt(a: seq<Complex>, b: seq<Complex>, k: int): Complex { Dot(Behind(a, k), b) }

  /** Circular convolution at time k: the sum of a[(k-j) mod m] * b[j]. */
  function CircAt(a: seq<Complex>, b: seq<Complex>, k: int): Complex { Dot(BehindAround(a, k), b) }

  /** Cross-correlation at a lag: the sum of signal[lag+j] * conj(pattern[j]). */
  function CorrAt(signal: seq<Complex>, pattern: seq<Complex>, lag: int): Complex {
    Dot(Ahead(signal, lag), Conjugate(pattern))
  }

  /** Circular cross-correlation at a lag: the sum of signal[(lag+j) mod m] * conj(pattern[j]). */
  function CircCorrAt(signal: seq<Complex>, pattern: seq<Complex>, lag: int): Complex {
    Dot(AheadAround(signal, lag), Conjugate(pattern))
  }

  function Conjugate(b: seq<Complex>): (c: seq<Complex>)
    ensures |c| == |b|
  {
    seq(|b|, i requires 0 <= i < |b| => Conj(b[i]))
  }

  function Reverse(b: seq<Complex>): (c: seq<Complex>)
    ensures |c| == |b|
  {
    if b == [] then [] else [b[|b| - 1]] + Reverse(b[..|b| - 1])
  }

  // ---------------------------------------------------------------- sums

  /** Two sums over the same b agree when their kernels do. */
  lemma {:induction false} DotSame(f: int -> Complex, g: int -> Complex, b: seq<Complex>)
    requires forall j :: 0 <= j < |b| ==> f(j) == g(j)
    ensures Dot(f, b) == Dot(g, b)
  {
    if b != [] { DotSame(f, g, b[..|b| - 1]); }
  }

  lemma {:induction false} DotZero(f: int -> Complex, b: seq<Complex>)
    requires forall j :: 0 <= j < |b| ==> f(j) == ZERO || b[j] == ZERO
    ensures Dot(f, b) == ZERO
  {
    if b != [] {
      DotZero(f, b[..|b| - 1]);
      MulZero(f(|b| - 1));
      MulZero(b[|b| - 1]);
    }
  }

  lemma {:induction false} DotPlus(f: int -> Complex, g: int -> Complex, h: int -> Complex, b: seq<Complex>)
    requires forall j :: 0 <= j < |b| ==> h(j) == Add(f(j), g(j))
    ensures Dot(h, b) == Add(Dot(f, b), Dot(g, b))
  {
    if b != [] {
      var n := |b| - 1;
      DotPlus(f, g, h, b[..n]);
      MulDistributes(f(n), g(n), b[n]);
    }
  }

  lemma {:induction false} DotTermwise(f: int -> Complex, b: seq<Complex>, c: seq<Complex>, d: seq<Complex>)
    requires |b| == |c| == |d| && forall j :: 0 <= j < |b| ==> d[j] == Add(b[j], c[j])
    ensures Dot(f, d) == Add(Dot(f, b), Dot(f, c))
  {
    if b != [] {
      var n := |b| - 1;
      DotTermwise(f, b[..n], c[..n], d[..n]);
      MulDistributes(b[n], c[n], f(n));
    }
  }

  lemma {:induction false} DotConcat(f: int -> Complex, g: int -> Complex, b: seq<Complex>, c: seq<Complex>)
    requires forall j :: 0 <= j < |c| ==> g(j) == f(|b| + j)
    ensures Dot(f, b + c) == Add(Dot(f, b), Dot(g, c))
  {
    if c == [] {
      assert b + c == b;
    } else {
      assert (b + c)[..|b + c| - 1] == b + c[..|c| - 1];
      DotConcat(f, g, b, c[..|c| - 1]);
      assert g(|c| - 1) == f(|b| + (|c| - 1));
    }
  }

  lemma {:induction false} DotSingle(f: int -> Complex, x: Complex)
    ensures Dot(f, [x]) == Mul(f(0), x)
  {
    assert [x][..0] == [];
  }

  lemma {:induction false} DotReverse(f: int -> Complex, g: int -> Complex, b: seq<Complex>)
    requires forall j :: 0 <= j < |b| ==> g(j) == f(|b| - 1 - j)
    ensures Dot(f, b) == Dot(g, Reverse(b))
  {
    if b != [] {
      var n := |b| - 1;
      var h := (j: int) => g(1 + j);
      DotReverse(f, h, b[..n]);
      DotConcat(g, h, [b[n]], Reverse(b[..n]));
      DotSingle(g, b[n]);
      assert g(0) == f(n);
      PlusCommutes(Dot(f, b[..n]), Mul(f(n), b[n]));
    }
  }

  lemma {:induction false} PlusCommutes(x: Complex, y: Complex)
    ensures Add(x, y) == Add(y, x)
  {
  }

  // ---------------------------------------------------------------- laws

  /** Linear convolution adds up over a cut of the signal. */
  lemma {:induction false} LinSplit(a: seq<Complex>, c: seq<Complex>, b: seq<Complex>, k: int)
    ensures LinAt(a + c, b, k) == Add(LinAt(a, b, k), LinAt(c, b, k - |a|))
  {
    var f, g, h := Behind(a, k), Behind(c, k - |a|), Behind(a + c, k);
    forall j | 0 <= j < |b| ensures h(j) == Add(f(j), g(j)) {
      assert h(j) == At(a + c, k - j) && f(j) == At(a, k - j) && g(j) == At(c, k - |a| - j);
    }
    DotPlus(f, g, h, b);
  }

  /** Outside 0 .. m+n-2 linear convolution is zero. */
  lemma {:induction false} LinSupport(a: seq<Complex>, b: seq<Complex>, k: int)
    requires k < 0 || k > |a| + |b| - 2
    ensures LinAt(a, b, k) == ZERO
  {
    var f := Behind(a, k);
    forall j | 0 <= j < |b| ensures f(j) == ZERO || b[j] == ZERO { assert f(j) == At(a, k - j); }
    DotZero(f, b);
  }

  /** Linear convolution is commutative. */
  lemma {:induction false} LinCommutes(a: seq<Complex>, b: seq<Complex>, k: int)
    ensures LinAt(a, b, k) == LinAt(b, a, k)
    decreases |a|
  {
    if a == [] {
      LinNothing(b, k);
    } else {
      var front, x := a[..|a| - 1], a[|a| - 1];
      assert a == front + [x];
      LinSplit(front, [x], b, k);
      LinCommutes(front, b, k);
      LinSingle(x, b, k - |front|);
      DotConcat(Behind(b, k), Behind(b, k - |front|), front, [x]);
      DotSingle(Behind(b, k - |front|), x);
      MulCommutes(x, At(b, k - |front|));
    }
  }

  lemma {:induction false} LinNothing(b: seq<Complex>, k: int)
    ensures LinAt([], b, k) == ZERO
  {
    var f := Behind([], k);
    forall j | 0 <= j < |b| ensures f(j) == ZERO || b[j] == ZERO { assert f(j) == At([], k - j); }
    DotZero(f, b);
  }

  lemma {:induction false} LinSingle(x: Complex, b: seq<Complex>, k: int)
    ensures LinAt([x], b, k) == Mul(x, At(b, k))
  {
    if b == [] {
      MulZero(x);
    } else {
      var n := |b| - 1;
      LinSingle(x, b[..n], k);
      assert Behind([x], k)(n) == At([x], k - n);
      assert k != n ==> At(b, k) == At(b[..n], k);
      MulZero(b[n]);
      MulZero(x);
    }
  }

  lemma {:induction false} ModBelow(x: int, m: int)
    requires m > 0
    ensures 0 <= x < m ==> x % m == x
    ensures -m <= x < 0 ==> x % m == x + m
    ensures m <= x < 2 * m ==> x % m == x - m
  {
    if 0 <= x < m {
      ModIs(x, 0, m);
    } else if -m <= x < 0 {
      ModIs(x, -1, m);
    } else if m <= x < 2 * m {
      ModIs(x, 1, m);
    }
  }

  lemma {:induction false} ModIs(x: int, q: int, m: int)
    requires m > 0 && 0 <= x - q * m < m
    ensures x % m == x - q * m
  {
    var d := x / m - q;
    assert x == x / m * m + x % m;
    assert d * m == x / m * m - q * m;
    assert d >= 1 ==> (d - 1) * m >= 0;
    assert d <= -1 ==> (d + 1) * m <= 0;
  }

  lemma {:induction false} ModPeriod(x: int, q: int, m: int)
    requires m > 0
    ensures (x + q * m) % m == x % m
  {
    assert x == x / m * m + x % m;
    assert (x / m + q) * m == x / m * m + q * m;
    ModIs(x + q * m, x / m + q, m);
  }

  /** With a response no longer than the signal, circular convolution is the linear one with its tail added to its
      head. */
  lemma {:induction false} CircIsWrapped(a: seq<Complex>, b: seq<Complex>, k: int)
    requires |b| <= |a| && 0 <= k < |a|
    ensures CircAt(a, b, k) == Add(LinAt(a, b, k), LinAt(a, b, k + |a|))
  {
    var f, g, h := Behind(a, k), Behind(a, k + |a|), BehindAround(a, k);
    forall j | 0 <= j < |b| ensures h(j) == Add(f(j), g(j)) {
      ModBelow(k - j, |a|);
      assert h(j) == Around(a, k - j) && f(j) == At(a, k - j) && g(j) == At(a, k + |a| - j);
    }
    DotPlus(f, g, h, b);
  }

  function Zeros(n: nat): (z: seq<Complex>)
    ensures |z| == n
  {
    seq(n, i => ZERO)
  }

  lemma {:induction false} AtPadded(a: seq<Complex>, x: nat, i: int)
    ensures At(a + Zeros(x), i) == At(a, i)
  {
  }

  lemma {:induction false} LinPadded(a: seq<Complex>, b: seq<Complex>, x: nat, y: nat, k: int)
    ensures LinAt(a + Zeros(x), b + Zeros(y), k) == LinAt(a, b, k)
  {
    PaddedSignal(a, b + Zeros(y), x, k);
    LinCommutes(a, b + Zeros(y), k);
    PaddedSignal(b, a, y, k);
    LinCommutes(b, a, k);
  }

  lemma {:induction false} PaddedSignal(a: seq<Complex>, b: seq<Complex>, x: nat, k: int)
    ensures LinAt(a + Zeros(x), b, k) == LinAt(a, b, k)
  {
    var f, g := Behind(a + Zeros(x), k), Behind(a, k);
    forall j | 0 <= j < |b| ensures f(j) == g(j) {
      AtPadded(a, x, k - j);
    }
    DotSame(f, g, b);
  }

  /** Padded to a common length of at least m+n-1, circular convolution is linear convolution. */
  lemma {:induction false} PaddedCircIsLin(a: seq<Complex>, b: seq<Complex>, p: nat, k: int)
    requires |a| + |b| - 1 <= p && |a| <= p && |b| <= p && 0 <= k < p
    ensures CircAt(a + Zeros(p - |a|), b + Zeros(p - |b|), k) == LinAt(a, b, k)
  {
    var a', b' := a + Zeros(p - |a|), b + Zeros(p - |b|);
    CircIsWrapped(a', b', k);
    LinPadded(a, b, p - |a|, p - |b|, k);
    LinPadded(a, b, p - |a|, p - |b|, k + p);
    LinSupport(a, b, k + p);
    PlusNothing(LinAt(a', b', k), LinAt(a', b', k + p));
  }

  lemma {:induction false} PlusNothing(x: Complex, y: Complex)
    requires y == ZERO
    ensures Add(x, y) == x
  {
  }

  // ---------------------------------------------------------------- folding a long response

  predicate Repeats(f: int -> Complex, m: int, j: int) { f(j + m) == f(j) }

  ghost predicate Periodic(f: int -> Complex, m: int) {
    forall j :: Repeats(f, m, j)
  }

  /** `b` added to the front of `buf`. */
  function AddPrefix(buf: seq<Complex>, b: seq<Complex>): (s: seq<Complex>)
    requires |b| <= |buf|
    ensures |s| == |buf|
  {
    seq(|buf|, i requires 0 <= i < |buf| => if i < |b| then Add(buf[i], b[i]) else buf[i])
  }

  /** `b` cut into pieces of the length of `buf`, all added up in it. */
  function FoldInto(buf: seq<Complex>, b: seq<Complex>): (s: seq<Complex>)
    requires buf != []
    ensures |s| == |buf|
    decreases |b|
  {
    if |b| <= |buf| then AddPrefix(buf, b) else FoldInto(AddPrefix(buf, b[..|buf|]), b[|buf|..])
  }

  lemma {:induction false} DotAddPrefix(f: int -> Complex, buf: seq<Complex>, b: seq<Complex>)
    requires |b| <= |buf|
    ensures Dot(f, AddPrefix(buf, b)) == Add(Dot(f, buf), Dot(f, b))
  {
    var z := Zeros(|buf| - |b|);
    var g := (j: int) => f(|b| + j);
    DotTermwise(f, buf, b + z, AddPrefix(buf, b));
    DotConcat(f, g, b, z);
    DotZero(g, z);
  }

  /** Against any kernel with the buffer's length as period, folding loses nothing. */
  lemma {:induction false} FoldKeepsSums(f: int -> Complex, buf: seq<Complex>, b: seq<Complex>)
    requires buf != [] && Periodic(f, |buf|)
    ensures Dot(f, FoldInto(buf, b)) == Add(Dot(f, buf), Dot(f, b))
    decreases |b|
  {
    var m := |buf|;
    if |b| <= m {
      DotAddPrefix(f, buf, b);
    } else {
      DotAddPrefix(f, buf, b[..m]);
      FoldKeepsSums(f, AddPrefix(buf, b[..m]), b[m..]);
      DotPeriods(f, b, m);
    }
  }

  lemma {:induction false} DotPeriods(f: int -> Complex, b: seq<Complex>, m: int)
    requires 0 <= m <= |b| && Periodic(f, m)
    ensures Dot(f, b) == Add(Dot(f, b[..m]), Dot(f, b[m..]))
  {
    var c, d := b[..m], b[m..];
    assert b == c + d;
    forall j | 0 <= j < |d| ensures f(j) == f(|c| + j) { assert Repeats(f, m, j); }
    DotConcat(f, f, c, d);
  }

  lemma {:induction false} AddZero(x: Complex)
    ensures Add(ZERO, x) == x
  {
  }

  lemma {:induction false} DotZeros(f: int -> Complex, m: nat)
    ensures Dot(f, Zeros(m)) == ZERO
  {
    DotZero(f, Zeros(m));
  }

  lemma {:induction false} FoldFromZeros(f: int -> Complex, m: nat, b: seq<Complex>)
    requires m > 0 && Periodic(f, m)
    ensures Dot(f, FoldInto(Zeros(m), b)) == Dot(f, b)
  {
    var z := Zeros(m);
    assert Dot(f, z) == ZERO by { DotZeros(f, m); }
    calc {
      Dot(f, FoldInto(z, b));
      { FoldKeepsSums(f, z, b); }
      Add(Dot(f, z), Dot(f, b));
      { AddZero(Dot(f, b)); }
      Dot(f, b);
    }
  }

  lemma {:induction false} KernelsPeriodic(a: seq<Complex>, k: int)
    requires a != []
    ensures Periodic(BehindAround(a, k), |a|) && Periodic(AheadAround(a, k), |a|)
  {
    var f, g := BehindAround(a, k), AheadAround(a, k);
    forall j ensures Repeats(f, |a|, j) {
      AroundPeriodic(a, k - j);
      assert f(j + |a|) == Around(a, k - (j + |a|)) && f(j) == Around(a, k - j);
    }
    forall j ensures Repeats(g, |a|, j) {
      AroundPeriodic(a, k + j);
      assert g(j + |a|) == Around(a, k + (j + |a|)) && g(j) == Around(a, k + j);
    }
  }

  lemma {:induction false} AroundPeriodic(a: seq<Complex>, i: int)
    requires a != []
    ensures Around(a, i + |a|) == Around(a, i) == Around(a, i - |a|)
  {
    ModPeriod(i, 1, |a|);
    ModPeriod(i, -1, |a|);
  }

  /** A response folded modulo the signal's length has the same circular convolution. */
  lemma {:induction false} FoldingKeepsCirc(a: seq<Complex>, b: seq<Complex>, k: int)
    requires a != []
    ensures CircAt(a, FoldInto(Zeros(|a|), b), k) == CircAt(a, b, k)
  {
    KernelsPeriodic(a, k);
    FoldFromZeros(BehindAround(a, k), |a|, b);
  }

  lemma {:induction false} ConjugateFold(buf: seq<Complex>, b: seq<Complex>)
    requires buf != []
    ensures Conjugate(FoldInto(buf, b)) == FoldInto(Conjugate(buf), Conjugate(b))
    decreases |b|
  {
    var m := |buf|;
    if |b| <= m {
      assert Conjugate(AddPrefix(buf, b)) == AddPrefix(Conjugate(buf), Conjugate(b));
    } else {
      assert Conjugate(AddPrefix(buf, b[..m])) == AddPrefix(Conjugate(buf), Conjugate(b[..m]));
      assert Conjugate(b)[..m] == Conjugate(b[..m]) && Conjugate(b)[m..] == Conjugate(b[m..]);
      ConjugateFold(AddPrefix(buf, b[..m]), b[m..]);
    }
  }

  /** A pattern folded modulo the signal's length has the same circular correlation. */
  lemma {:induction false} FoldingKeepsCircCorr(signal: seq<Complex>, pattern: seq<Complex>, lag: int)
    requires signal != []
    ensures CircCorrAt(signal, FoldInto(Zeros(|signal|), pattern), lag) == CircCorrAt(signal, pattern, lag)
  {
    KernelsPeriodic(signal, lag);
    ConjugateFold(Zeros(|signal|), pattern);
    assert Conjugate(Zeros(|signal|)) == Zeros(|signal|);
    FoldFromZeros(AheadAround(signal, lag), |signal|, Conjugate(pattern));
  }

  // ---------------------------------------------------------------- correlation as convolution

  /** Convolving with the reversed conjugate pattern correlates, shifted by the pattern's length less one. */
  lemma {:induction false} CorrIsLin(signal: seq<Complex>, pattern: seq<Complex>, k: int)
    ensures LinAt(signal, Reverse(Conjugate(pattern)), k) == CorrAt(signal, pattern, k - (|pattern| - 1))
  {
    var f, g := Ahead(signal, k - (|pattern| - 1)), Behind(signal, k);
    forall j | 0 <= j < |pattern| ensures g(j) == f(|pattern| - 1 - j) {
      assert g(j) == At(signal, k - j);
    }
    DotReverse(f, g, Conjugate(pattern));
  }

  lemma {:induction false} CircCorrIsCirc(signal: seq<Complex>, pattern: seq<Complex>, k: int)
    ensures CircAt(signal, Reverse(Conjugate(pattern)), k) == CircCorrAt(signal, pattern, k - (|pattern| - 1))
  {
    var f, g := AheadAround(signal, k - (|pattern| - 1)), BehindAround(signal, k);
    forall j | 0 <= j < |pattern| ensures g(j) == f(|pattern| - 1 - j) {
      assert g(j) == Around(signal, k - j);
    }
    DotReverse(f, g, Conjugate(pattern));
  }

  lemma {:induction false} CircCorrPeriodic(signal: seq<Complex>, pattern: seq<Complex>, lag: int)
    requires signal != []
    ensures CircCorrAt(signal, pattern, lag - |signal|) == CircCorrAt(signal, pattern, lag)
  {
    var f, g := AheadAround(signal, lag - |signal|), AheadAround(signal, lag);
    forall j | 0 <= j < |pattern| ensures f(j) == g(j) {
      AroundPeriodic(signal, lag + j);
      assert f(j) == Around(signal, lag - |signal| + j);
    }
    DotSame(f, g, Conjugate(pattern));
  }

  /** The circular convolution as a sequence of m values. */
  function Circular(a: seq<Complex>, b: seq<Complex>): (r: seq<Complex>) {
    seq(|a|, k => CircAt(a, b, k))
  }

  lemma {:induction false} CircularIs(a: seq<Complex>, b: seq<Complex>, r: seq<Complex>)
    requires |r| == |a| && forall k :: 0 <= k < |r| ==> r[k] == CircAt(a, b, k)
    ensures r == Circular(a, b)
  {
  }

  lemma {:induction false} CircSnoc(a: seq<Complex>, b: seq<Complex>, i: int, k: int)
    requires 0 <= i < |b|
    ensures CircAt(a, b[..i + 1], k) == Add(CircAt(a, b[..i], k), Mul(Around(a, k - i), b[i]))
  {
    assert b[..i + 1][..i] == b[..i];
    assert BehindAround(a, k)(i) == Around(a, k - i);
  }
}
