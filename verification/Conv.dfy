/** Three algorithms for convolution, their automatic selection, and correlation on top of them. */
module Conv {
  import opened Integers
  import opened ConvSpec
  import opened Dft
  import Smooth

  /** What the code takes from elsewhere: roots of unity, an operation estimate per transform, and the largest real. */
  datatype Platform = Platform(root: nat -> Complex, flops: nat -> real, maxReal: real)

  /** The n-th root, such as cos(2 pi / n) - i sin(2 pi / n), is primitive. */
  ghost predicate Roots(root: nat -> Complex) {
    forall n: nat :: n > 0 ==> PrimitiveRoot(root(n), n)
  }

  /** The linear convolution as a sequence of m+n-1 values. */
  ghost function Linear(a: seq<Complex>, b: seq<Complex>): (r: seq<Complex>)
    requires a != [] && b != []
  {
    seq(|a| + |b| - 1, k => LinAt(a, b, k))
  }

  ghost function Convolution(a: seq<Complex>, b: seq<Complex>, circular: bool): (r: seq<Complex>)
    requires a != [] && b != []
  {
    if circular then Circular(a, b) else Linear(a, b)
  }

  lemma {:induction false} LinearIs(a: seq<Complex>, b: seq<Complex>, r: seq<Complex>)
    requires a != [] && b != [] && |r| == |a| + |b| - 1 && forall k :: 0 <= k < |r| ==> r[k] == LinAt(a, b, k)
    ensures r == Linear(a, b)
  {
  }

  // ---------------------------------------------------------------- vector kernels

  method NewZeros(n: nat) returns (r: array<Complex>)
    ensures fresh(r) && r.Length == n && forall k :: 0 <= k < n ==> r[k] == ZERO
  {
    r := new Complex[n](i => ZERO);
  }

  method FromSeq(s: seq<Complex>) returns (r: array<Complex>)
    ensures fresh(r) && r[..] == s
  {
    r := new Complex[|s|](i requires 0 <= i < |s| => s[i]);
  }

  /** r[at+t] += s[t] * v for every position t of s. */
  method AddScaled(r: array<Complex>, at: nat, s: seq<Complex>, v: Complex)
    requires at + |s| <= r.Length
    modifies r
    ensures forall k :: 0 <= k < r.Length ==> r[k] == Add(old(r[k]), Mul(At(s, k - at), v))
  {
    MulZero(v);
    for t := 0 to |s|
      invariant forall k :: 0 <= k < r.Length ==>
        r[k] == if at <= k < at + t then Add(old(r[k]), Mul(At(s, k - at), v)) else old(r[k])
    {
      r[at + t] := Add(r[at + t], Mul(s[t], v));
    }
  }

  /** r[at+t] += s[t] for every position t of s. */
  method AddAll(r: array<Complex>, at: nat, s: seq<Complex>)
    requires at + |s| <= r.Length
    modifies r
    ensures forall k :: 0 <= k < r.Length ==> r[k] == Add(old(r[k]), At(s, k - at))
  {
    for t := 0 to |s|
      invariant forall k :: 0 <= k < r.Length ==>
        r[k] == if at <= k < at + t then Add(old(r[k]), At(s, k - at)) else old(r[k])
    {
      r[at + t] := Add(r[at + t], s[t]);
    }
  }

  // ---------------------------------------------------------------- straightforward formula

  lemma {:induction false} LinSnoc(a: seq<Complex>, b: seq<Complex>, i: int, k: int)
    requires 0 <= i < |b|
    ensures LinAt(a, b[..i + 1], k) == Add(LinAt(a, b[..i], k), Mul(At(a, k - i), b[i]))
  {
    assert b[..i + 1][..i] == b[..i];
    assert Behind(a, k)(i) == At(a, k - i);
  }

  /** Adding the rotated signal in two pieces adds the wrapped sample at every position. */
  lemma {:induction false} RotatedPieces(a: seq<Complex>, i: int, k: int, v: Complex, x: Complex)
    requires 0 <= i <= |a| && 0 <= k < |a|
    ensures Add(Add(x, Mul(At(a[|a| - i..], k), v)), Mul(At(a[..|a| - i], k - i), v))
      == Add(x, Mul(Around(a, k - i), v))
  {
    ModBelow(k - i, |a|);
    MulZero(v);
  }

  /** Add the signal, rotated by i and scaled, in two pieces. */
  method AddRotated(r: array<Complex>, a: seq<Complex>, i: nat, v: Complex)
    requires i <= |a| == r.Length
    modifies r
    ensures forall k :: 0 <= k < r.Length ==> r[k] == Add(old(r[k]), Mul(Around(a, k - i), v))
  {
    var j1 := |a| - i;
    var tail, front := a[j1..], a[..j1];
    ghost var before := r[..];
    AddScaled(r, 0, tail, v);
    ghost var between := r[..];
    AddScaled(r, i, front, v);
    forall k | 0 <= k < r.Length ensures r[k] == Add(before[k], Mul(Around(a, k - i), v)) {
      assert between[k] == Add(before[k], Mul(At(tail, k), v));
      RotatedPieces(a, i, k, v, before[k]);
    }
  }

  method DirectLinear(a: seq<Complex>, b: seq<Complex>) returns (r: array<Complex>)
    requires a != [] && b != []
    ensures fresh(r) && r[..] == Linear(a, b)
  {
    r := NewZeros(|a| + |b| - 1);
    for i := 0 to |b|
      invariant forall k :: 0 <= k < r.Length ==> r[k] == LinAt(a, b[..i], k)
    {
      ghost var before := r[..];
      AddScaled(r, i, a, b[i]);
      forall k | 0 <= k < r.Length ensures r[k] == LinAt(a, b[..i + 1], k) {
        assert before[k] == LinAt(a, b[..i], k);
        LinSnoc(a, b, i, k);
      }
    }
    assert b[..|b|] == b;
    LinearIs(a, b, r[..]);
  }

  /** One more sample of the response: its rotated and scaled copy of the signal is added. */
  method AddSample(r: array<Complex>, a: seq<Complex>, b: seq<Complex>, i: nat)
    requires i < |b| <= |a| == r.Length && forall k :: 0 <= k < r.Length ==> r[k] == CircAt(a, b[..i], k)
    modifies r
    ensures forall k :: 0 <= k < r.Length ==> r[k] == CircAt(a, b[..i + 1], k)
  {
    ghost var before := r[..];
    AddRotated(r, a, i, b[i]);
    forall k | 0 <= k < r.Length ensures r[k] == CircAt(a, b[..i + 1], k) {
      assert before[k] == CircAt(a, b[..i], k);
      CircSnoc(a, b, i, k);
    }
  }

  method DirectCircular(a: seq<Complex>, b: seq<Complex>) returns (r: array<Complex>)
    requires 0 < |b| <= |a|
    ensures fresh(r) && r[..] == Circular(a, b)
  {
    r := NewZeros(|a|);
    for i := 0 to |b|
      invariant forall k :: 0 <= k < r.Length ==> r[k] == CircAt(a, b[..i], k)
    {
      AddSample(r, a, b, i);
    }
    assert b[..|b|] == b;
    CircularIs(a, b, r[..]);
  }

  /** A response of one sample scales the signal, circular or not. */
  method DirectScale(a: seq<Complex>, v: Complex) returns (r: array<Complex>)
    requires a != []
    ensures fresh(r) && r[..] == Linear(a, [v]) == Circular(a, [v])
  {
    r := new Complex[|a|](i requires 0 <= i < |a| => Mul(a[i], v));
    forall k | 0 <= k < |a| ensures r[k] == LinAt(a, [v], k) == CircAt(a, [v], k) {
      DotSingle(Behind(a, k), v);
      DotSingle(BehindAround(a, k), v);
      ModBelow(k, |a|);
      assert Behind(a, k)(0) == At(a, k) && BehindAround(a, k)(0) == Around(a, k);
      assert At(a, k) == a[k] == Around(a, k);
    }
    LinearIs(a, [v], r[..]);
    CircularIs(a, [v], r[..]);
  }

  method Direct(a: seq<Complex>, b: seq<Complex>, circular: bool) returns (r: array<Complex>)
    requires 0 < |b| <= |a|
    ensures fresh(r) && r[..] == Convolution(a, b, circular)
  {
    if |b| == 1 {
      r := DirectScale(a, b[0]);
      assert b == [b[0]];
    } else if circular {
      r := DirectCircular(a, b);
    } else {
      r := DirectLinear(a, b);
    }
  }

  // ---------------------------------------------------------------- transform-based code

  lemma {:induction false} CircPadded(a: seq<Complex>, b: seq<Complex>, y: nat, k: int)
    ensures CircAt(a, b + Zeros(y), k) == CircAt(a, b, k)
  {
    var f := BehindAround(a, k);
    var g := (j: int) => f(|b| + j);
    DotConcat(f, g, b, Zeros(y));
    DotZeros(g, y);
  }

  method FftSmooth(a: seq<Complex>, b: seq<Complex>, root: nat -> Complex) returns (r: array<Complex>)
    requires Roots(root) && 0 < |b| <= |a|
    ensures fresh(r) && r[..] == Circular(a, b)
  {
    var buf := Transformed(root(|a|), a, b + Zeros(|a| - |b|));
    RootsTransform(root, a, b + Zeros(|a| - |b|));
    r := FromSeq(buf);
    forall k | 0 <= k < |a| ensures r[..][k] == CircAt(a, b, k) { CircPadded(a, b, |a| - |b|, k); }
    CircularIs(a, b, r[..]);
  }

  lemma {:induction false} RootsTransform(root: nat -> Complex, x: seq<Complex>, y: seq<Complex>)
    requires Roots(root) && |x| == |y| > 0
    ensures Transformed(root(|x|), x, y) == Circular(x, y)
  {
    TransformedIsCircular(root(|x|), x, y);
  }

  lemma {:induction false} PaddedCircular(a: seq<Complex>, b: seq<Complex>, p: nat, x: seq<Complex>, y: seq<Complex>)
    requires |a| <= p && |b| <= p && |a| + |b| - 1 <= p && x == a + Zeros(p - |a|) && y == b + Zeros(p - |b|)
    ensures |x| == |y| == p && forall k :: 0 <= k < p ==> Circular(x, y)[k] == LinAt(a, b, k)
  {
    forall k | 0 <= k < p ensures Circular(x, y)[k] == LinAt(a, b, k) { PaddedCircIsLin(a, b, p, k); }
  }

  /** Padded with zeros to a length that holds the result, the transform chain gives the linear convolution. */
  method LinearByFft(a: seq<Complex>, b: seq<Complex>, p: nat, root: nat -> Complex) returns (buf: seq<Complex>)
    requires Roots(root) && 0 < |a| <= p && 0 < |b| <= p && |a| + |b| - 1 <= p
    ensures |buf| == p && forall k :: 0 <= k < p ==> buf[k] == LinAt(a, b, k)
  {
    var x, y := a + Zeros(p - |a|), b + Zeros(p - |b|);
    PaddedCircular(a, b, p, x, y);
    buf := Transformed(root(p), x, y);
    RootsTransform(root, x, y);
  }

  method FftPadded(a: seq<Complex>, b: seq<Complex>, circular: bool, p: nat, root: nat -> Complex)
    returns (r: array<Complex>)
    requires Roots(root) && 0 < |b| <= |a| && |a| + |b| - 1 <= p
    ensures fresh(r) && r[..] == Convolution(a, b, circular)
  {
    var m, n := |a|, |b|;
    var buf := LinearByFft(a, b, p, root);
    if circular {
      r := FromSeq(buf[..m]);
      ghost var before := r[..];
      AddAll(r, 0, buf[m..m + n - 1]);
      forall k | 0 <= k < m ensures r[k] == CircAt(a, b, k) {
        assert before[k] == buf[k];
        CircIsWrapped(a, b, k);
        if k >= n - 1 { LinSupport(a, b, k + m); }
      }
      CircularIs(a, b, r[..]);
    } else {
      r := FromSeq(buf[..m + n - 1]);
      LinearIs(a, b, r[..]);
    }
  }

  // ---------------------------------------------------------------- overlap-add

  /** What the blocks before position i contribute to result position k. */
  ghost function Overlapped(a: seq<Complex>, b: seq<Complex>, circular: bool, i: int, k: int): Complex
    requires 0 <= i <= |a|
  {
    if circular then Add(LinAt(a[..i], b, k), LinAt(a[..i], b, k + |a|)) else LinAt(a[..i], b, k)
  }

  /** One more block of p samples contributes its own convolution, shifted to the block's start. */
  lemma {:induction false} OverlapStep(a: seq<Complex>, b: seq<Complex>, circular: bool, i: int, p: int, k: int)
    requires 0 <= i <= i + p <= |a|
    ensures var block := a[i..i + p];
      var was := Overlapped(a, b, circular, i, k);
      Overlapped(a, b, circular, i + p, k)
        == if circular then Add(was, Add(LinAt(block, b, k - i), LinAt(block, b, k + |a| - i)))
          else Add(was, LinAt(block, b, k - i))
  {
    assert a[..i + p] == a[..i] + a[i..i + p];
    LinSplit(a[..i], a[i..i + p], b, k);
    LinSplit(a[..i], a[i..i + p], b, k + |a|);
  }

  /** The transform-based convolution of one block, cut to its support. */
  method BlockOutput(block: seq<Complex>, b: seq<Complex>, q: nat, root: nat -> Complex) returns (out: seq<Complex>)
    requires Roots(root) && 0 < |block| <= q && |b| > 0
    ensures |out| == |block| + |b| - 1 && out == Linear(block, b)
  {
    var p, n := |block|, |b|;
    var buf := LinearByFft(block, b, q + n - 1, root);
    out := buf[..p + n - 1];
    LinearIs(block, b, out);
  }

  lemma {:induction false} LinearAt(a: seq<Complex>, b: seq<Complex>, t: int)
    requires a != [] && b != []
    ensures At(Linear(a, b), t) == LinAt(a, b, t)
  {
    if t < 0 || t > |a| + |b| - 2 { LinSupport(a, b, t); }
  }

  /** Cutting the output at the end of a circular result and adding the rest to its head adds both wrapped terms. */
  lemma {:induction false} WrappedBlock(out: seq<Complex>, i: int, m: int, cut: int, k: int)
    requires 0 <= i < m && 0 <= k < m && cut == Min(|out|, m - i)
    ensures Add(At(out[..cut], k - i), At(out[cut..], k)) == Add(At(out, k - i), At(out, k + m - i))
  {
  }

  /** Where a block's output is cut. */
  function CutAt(circular: bool, size: int, i: int, m: int): int {
    if circular then Min(size, m - i) else size
  }

  lemma {:induction false} AddAssociates(x: Complex, y: Complex, z: Complex)
    ensures Add(Add(x, y), z) == Add(x, Add(y, z))
  {
  }

  /** Adding a block's output, cut for a circular result, accounts for the block. */
  lemma {:induction false} BlockAdded(a: seq<Complex>, b: seq<Complex>, circular: bool, i: int, p: int,
                                      out: seq<Complex>, cut: int, k: int)
    requires b != [] && 0 <= i < i + p <= |a| && out == Linear(a[i..i + p], b) && cut == CutAt(circular, |out|, i, |a|)
    requires 0 <= k && (circular ==> k < |a|)
    ensures Add(Add(Overlapped(a, b, circular, i, k), At(out[..cut], k - i)), At(out[cut..], k))
      == Overlapped(a, b, circular, i + p, k)
  {
    OverlapStep(a, b, circular, i, p, k);
    LinearAt(a[i..i + p], b, k - i);
    LinearAt(a[i..i + p], b, k + |a| - i);
    CutPieces(out, circular, i, |a|, cut, k, Overlapped(a, b, circular, i, k));
  }

  lemma {:induction false} CutPieces(out: seq<Complex>, circular: bool, i: int, m: int, cut: int, k: int, was: Complex)
    requires 0 <= i < m && 0 <= k && (circular ==> k < m) && cut == CutAt(circular, |out|, i, m)
    ensures Add(Add(was, At(out[..cut], k - i)), At(out[cut..], k))
      == if circular then Add(was, Add(At(out, k - i), At(out, k + m - i))) else Add(was, At(out, k - i))
  {
    AddAssociates(was, At(out[..cut], k - i), At(out[cut..], k));
    if circular {
      WrappedBlock(out, i, m, cut, k);
    } else {
      assert out[..cut] == out && out[cut..] == [];
    }
  }

  method OverlapBlock(a: seq<Complex>, b: seq<Complex>, circular: bool, i: nat, p: nat, out: seq<Complex>,
                      r: array<Complex>)
    requires 0 < |b| <= |a| && i < i + p <= |a| && out == Linear(a[i..i + p], b)
    requires r.Length == if circular then |a| else |a| + |b| - 1
    requires forall k :: 0 <= k < r.Length ==> r[k] == Overlapped(a, b, circular, i, k)
    modifies r
    ensures forall k :: 0 <= k < r.Length ==> r[k] == Overlapped(a, b, circular, i + p, k)
  {
    var m, n := |a|, |b|;
    var j1 := if circular then Min(i + p + n - 2, m - 1) - i else p + n - 2;
    var j2 := j1 + 1;
    ghost var before := r[..];
    AddAll(r, i, out[..j1 + 1]);
    ghost var between := r[..];
    AddAll(r, 0, out[j2..]);
    forall k | 0 <= k < r.Length ensures r[k] == Overlapped(a, b, circular, i + p, k) {
      assert before[k] == Overlapped(a, b, circular, i, k);
      assert between[k] == Add(before[k], At(out[..j2], k - i));
      assert r[k] == Add(between[k], At(out[j2..], k));
      BlockAdded(a, b, circular, i, p, out, j2, k);
    }
  }

  /** Overlap-add with any block size, linear or circular, is convolution. */
  method OverlapAdd(a: seq<Complex>, b: seq<Complex>, circular: bool, q: nat, root: nat -> Complex)
    returns (r: array<Complex>)
    requires Roots(root) && 0 < |b| <= |a| && q >= 1
    ensures fresh(r) && r[..] == Convolution(a, b, circular)
  {
    var m, n := |a|, |b|;
    r := NewZeros(if circular then m else m + n - 1);
    forall k | 0 <= k < r.Length ensures r[k] == Overlapped(a, b, circular, 0, k) {
      assert a[..0] == [];
      LinNothing(b, k);
      LinNothing(b, k + m);
    }
    var i := 0;
    while i < m
      invariant 0 <= i <= m && forall k :: 0 <= k < r.Length ==> r[k] == Overlapped(a, b, circular, i, k)
    {
      var p := Min(q, m - i);
      var out := BlockOutput(a[i..i + p], b, q, root);
      OverlapBlock(a, b, circular, i, p, out, r);
      i := i + p;
    }
    assert a[..m] == a;
    if circular {
      forall k | 0 <= k < m ensures r[k] == CircAt(a, b, k) { CircIsWrapped(a, b, k); }
      CircularIs(a, b, r[..]);
    } else {
      LinearIs(a, b, r[..]);
    }
  }

  // ---------------------------------------------------------------- automatic selection

  lemma {:induction false} PowersGap(p: nat, t: nat)
    requires Smooth.PowerOfTwo(p) && Smooth.PowerOfTwo(t) && t <= p < 2 * t
    ensures p == t
  {
    if t > 1 { PowersGap(p / 2, t / 2); }
  }

  /** How many blocks of at most q samples make up m of them. */
  function Blocks(m: nat, q: nat): (b: nat)
    requires q > 0
    ensures b * q >= m && (b > 0 ==> (b - 1) * q < m)
  {
    var b := (m + q - 1) / q;
    DivisionBounds(m + q - 1, q, b);
    b
  }

  lemma {:induction false} DivisionBounds(x: nat, q: nat, b: int)
    requires q > 0 && b == x / q
    ensures b >= 0 && b * q > x - q && (b - 1) * q <= x - q
  {
    assert x == b * q + x % q;
    assert (b - 1) * q == b * q - q;
  }

  /** An operation count for overlap-add with transforms of length `total`, from an estimate per transform. */
  function BlockCost(m: nat, n: nat, flops: nat -> real): nat -> real {
    (total: nat) =>
      var p := total - n + 1;
      if p <= 0 then 0.0 else Blocks(m, p) as real * (2.0 * flops(total) + 8.0 * total as real)
  }

  /** Doubling a power of two gives the next one. */
  lemma {:induction false} PowersBelow(t: nat)
    requires Smooth.PowerOfTwo(t)
    ensures Smooth.PowerOfTwo(t * 2)
    ensures forall p: nat :: Smooth.PowerOfTwo(p) && p < t * 2 ==> p <= t
  {
    assert t * 2 / 2 == t;
    forall p: nat | Smooth.PowerOfTwo(p) && p < t * 2 ensures p <= t {
      if p >= t { PowersGap(p, t); }
    }
  }

  /** The smallest power of two that is at least n. */
  method FirstPower(n: nat) returns (total: nat)
    requires n > 0
    ensures total >= n && Smooth.PowerOfTwo(total)
    ensures forall p: nat :: Smooth.PowerOfTwo(p) && p >= n ==> p >= total
  {
    total := 1;
    while total < n
      invariant total > 0 && Smooth.PowerOfTwo(total)
      invariant forall p: nat :: Smooth.PowerOfTwo(p) && p >= n ==> p >= total
      decreases n - total
    {
      PowersBelow(total);
      total := total * 2;
    }
  }

  /** The cheapest overlap-add block, if it beats `cost0`; transforms are powers of two no longer than the result. */
  method ChooseBlock(m: nat, n: nat, costs: nat -> real, alg0: int, cost0: real) returns (alg: int, q: nat, cost: real)
    requires 0 < n <= m
    ensures q >= 1 && (alg == alg0 || alg == 2)
    ensures alg0 != 2 && alg == 2 ==> Smooth.PowerOfTwo(q + n - 1) && q <= m && cost == costs(q + n - 1) < cost0
    ensures alg0 != 2 && alg != 2 ==> cost == cost0
    ensures forall p: nat :: Smooth.PowerOfTwo(p) && n <= p <= m + n - 1 ==> cost <= costs(p)
  {
    alg, q, cost := alg0, 1, cost0;
    var total := FirstPower(n);
    while total <= m + n - 1
      invariant total >= n && Smooth.PowerOfTwo(total) && q >= 1 && (alg == alg0 || alg == 2)
      invariant alg0 != 2 && alg == 2 ==> Smooth.PowerOfTwo(q + n - 1) && q <= m && cost == costs(q + n - 1) < cost0
      invariant alg0 != 2 && alg != 2 ==> cost == cost0
      invariant cost <= cost0
      invariant forall p: nat :: Smooth.PowerOfTwo(p) && n <= p < total ==> cost <= costs(p)
      decreases m + n - total
    {
      var candidate := costs(total);
      if candidate < cost {
        alg, q, cost := 2, total - n + 1, candidate;
      }
      PowersBelow(total);
      total := total * 2;
    }
  }

  /** Operation counts of the direct formula and of three transforms of length p. */
  function DirectCost(m: nat, n: nat): real { (2 * m * n) as real }
  function FftCost(p: nat, flops: nat -> real): real { 3.0 * flops(p) + (6 * p) as real }

  /** The transform length of the general code: m itself when that works, else the least smooth one. */
  ghost predicate FftLength(m: nat, n: nat, circular: bool, p: nat) {
    if circular && Smooth.IsSmooth(m) then p == m else Smooth.LeastSmooth(m + n - 1, p)
  }

  method FindFftLength(m: nat, n: nat, circular: bool) returns (p: nat)
    requires 0 < n <= m
    ensures FftLength(m, n, circular, p)
    ensures forall other: nat :: FftLength(m, n, circular, other) ==> other == p
  {
    var smooth := Smooth.TestSmooth(m);
    p := m;
    if !(circular && smooth) { p := Smooth.FindSmooth(m + n - 1); }
  }

  /** Which algorithm automatic selection takes, its block size and its cost, which no candidate undercuts. */
  method Choose(m: nat, n: nat, circular: bool, alg0: int, flops: nat -> real, maxReal: real)
    returns (alg: int, q: nat, cost: real)
    requires 0 < n <= m && (alg0 == -1 || alg0 == -2)
    ensures 0 <= alg <= 2 && q >= 1
    ensures alg == 0 ==> cost == if alg0 == -1 then DirectCost(m, n) else maxReal
    ensures alg == 1 ==> alg0 == -1 && forall p: nat :: FftLength(m, n, circular, p) ==> cost == FftCost(p, flops)
    ensures alg == 2 ==> Smooth.PowerOfTwo(q + n - 1) && q <= m && cost == BlockCost(m, n, flops)(q + n - 1)
    ensures forall p: nat :: Smooth.PowerOfTwo(p) && n <= p <= m + n - 1 ==> cost <= BlockCost(m, n, flops)(p)
    ensures alg0 == -1 ==> cost <= DirectCost(m, n)
    ensures alg0 == -1 ==> forall p: nat :: FftLength(m, n, circular, p) ==> cost <= FftCost(p, flops)
  {
    alg, cost := 0, maxReal;
    if alg0 == -1 {
      cost := DirectCost(m, n);
      var p := FindFftLength(m, n, circular);
      var candidate := FftCost(p, flops);
      if candidate < cost { alg, cost := 1, candidate; }
    }
    alg, q, cost := ChooseBlock(m, n, BlockCost(m, n, flops), alg, cost);
  }

  // ---------------------------------------------------------------- selection for real signals

  /** Operation counts for real signals, whose transforms of length p take a complex one of length p / 2. */
  function RealDirectCost(m: nat, n: nat): real { 0.15 * m as real * n as real }
  function RealFftCost(p: nat, flops: nat -> real): real { 3.0 * flops(p / 2) + (6 * p) as real / 2.0 }

  function RealBlockCost(m: nat, n: nat, flops: nat -> real): nat -> real {
    (total: nat) =>
      var p := total - n + 1;
      if p <= 0 then 0.0 else Blocks(m, p) as real * (2.0 * flops(total / 2) + (total / 2) as real)
  }

  /** The transform length of the general code: m itself when it is smooth and even, else the least such number. */
  ghost predicate RealFftLength(m: nat, n: nat, circular: bool, p: nat) {
    if circular && Smooth.IsSmooth(m) && m % 2 == 0 then p == m else Smooth.LeastEvenSmooth(m + n - 1, p)
  }

  method FindRealFftLength(m: nat, n: nat, circular: bool) returns (p: nat)
    requires 0 < n <= m
    ensures RealFftLength(m, n, circular, p)
    ensures forall other: nat :: RealFftLength(m, n, circular, other) ==> other == p
  {
    var smooth := Smooth.TestSmooth(m);
    p := m;
    if !(circular && smooth && m % 2 == 0) { p := Smooth.FindSmoothEven(m + n - 1); }
  }

  /**
   * The selection of convr1dx: short responses take the direct formula whatever was asked for; otherwise a
   * non-negative number stands, and a negative one asks for the cheapest algorithm (below -1: the cheapest blocks).
   * The transforms then always have an even length.
   */
  method ChooseReal(m: nat, n: nat, circular: bool, alg0: int, q0: nat, flops: nat -> real, maxReal: real)
    returns (alg: int, q: nat, cost: real)
    requires 0 < n <= m
    ensures n <= 2 ==> alg == 0
    ensures n > 2 && alg0 >= 0 ==> alg == alg0 && q == q0
    ensures n > 2 && alg0 < 0 ==> 0 <= alg <= 2 && q >= 1
    ensures n > 2 && alg0 < 0 && alg == 0 ==> cost == if alg0 == -1 then RealDirectCost(m, n) else maxReal
    ensures n > 2 && alg0 < 0 && alg == 1 ==>
      alg0 == -1 && forall p: nat :: RealFftLength(m, n, circular, p) ==> p % 2 == 0 && cost == RealFftCost(p, flops)
    ensures n > 2 && alg0 < 0 && alg == 2 ==>
      Smooth.PowerOfTwo(q + n - 1) && (q + n - 1) % 2 == 0 && q <= m && cost == RealBlockCost(m, n, flops)(q + n - 1)
    ensures n > 2 && alg0 < 0 ==>
      forall p: nat :: Smooth.PowerOfTwo(p) && n <= p <= m + n - 1 ==> cost <= RealBlockCost(m, n, flops)(p)
    ensures n > 2 && alg0 == -1 ==> cost <= RealDirectCost(m, n)
    ensures n > 2 && alg0 == -1 ==>
      forall p: nat :: RealFftLength(m, n, circular, p) ==> cost <= RealFftCost(p, flops)
  {
    alg, q, cost := alg0, q0, maxReal;
    if Min(m, n) <= 2 { alg := 0; }
    if alg < 0 {
      alg := 0;
      if alg0 == -1 {
        cost := RealDirectCost(m, n);
        var p := FindRealFftLength(m, n, circular);
        var candidate := RealFftCost(p, flops);
        if candidate < cost { alg, cost := 1, candidate; }
      }
      alg, q, cost := ChooseBlock(m, n, RealBlockCost(m, n, flops), alg, cost);
    }
  }

  /** What the candidates cost: the direct formula, three transforms and a product, and per block of overlap-add two
      transforms and a product. */
  lemma {:induction false} Costs(m: nat, n: nat, q: nat, p: nat, total: nat, flops: nat -> real)
    requires q >= 1 && n >= 1 && total == q + n - 1
    ensures DirectCost(m, n) == (2 * m * n) as real && FftCost(p, flops) == 3.0 * flops(p) + 6.0 * p as real
    ensures BlockCost(m, n, flops)(total) == Blocks(m, q) as real * (2.0 * flops(total) + 8.0 * total as real)
  {
    assert total - n + 1 == q;
  }

  /** The same for real signals, with transforms of half the length. */
  lemma {:induction false} RealCosts(m: nat, n: nat, q: nat, p: nat, total: nat, flops: nat -> real)
    requires q >= 1 && n >= 1 && total == q + n - 1
    ensures RealDirectCost(m, n) == 0.15 * m as real * n as real
    ensures RealFftCost(p, flops) == 3.0 * flops(p / 2) + 3.0 * p as real
    ensures RealBlockCost(m, n, flops)(total)
      == Blocks(m, q) as real * (2.0 * flops(total / 2) + (total / 2) as real)
  {
    assert total - n + 1 == q;
  }

  // ---------------------------------------------------------------- entry points

  method Fft(a: seq<Complex>, b: seq<Complex>, circular: bool, root: nat -> Complex) returns (r: array<Complex>)
    requires Roots(root) && 0 < |b| <= |a|
    ensures fresh(r) && r[..] == Convolution(a, b, circular)
  {
    var smooth := Smooth.TestSmooth(|a|);
    if circular && smooth {
      r := FftSmooth(a, b, root);
    } else {
      var p := Smooth.FindSmooth(|a| + |b| - 1);
      r := FftPadded(a, b, circular, p, root);
    }
  }

  /** Every algorithm, chosen by hand or automatically, computes the convolution. */
  method ConvC1DX(a: seq<Complex>, b: seq<Complex>, circular: bool, alg: int, q: nat, pf: Platform)
    returns (r: array<Complex>)
    requires Roots(pf.root) && 0 < |b| <= |a| && (alg == 2 ==> q >= 1)
    ensures fresh(r)
    ensures -2 <= alg <= 2 ==> r[..] == Convolution(a, b, circular)
    ensures !(-2 <= alg <= 2) ==> r[..] == []
  {
    var alg', q' := alg, q;
    if alg == -1 || alg == -2 {
      var cost;
      alg', q', cost := Choose(|a|, |b|, circular, alg, pf.flops, pf.maxReal);
    }
    match alg' {
      case 0 => r := Direct(a, b, circular);
      case 1 => r := Fft(a, b, circular, pf.root);
      case 2 => r := OverlapAdd(a, b, circular, q', pf.root);
      case _ => r := new Complex[0];
    }
  }

  /** Linear convolution for signal and response of any lengths. */
  method ConvC1D(a: seq<Complex>, b: seq<Complex>, pf: Platform) returns (r: array<Complex>)
    requires Roots(pf.root) && a != [] && b != []
    ensures fresh(r) && r[..] == Linear(a, b)
  {
    if |a| < |b| {
      r := ConvC1DX(b, a, false, -1, 0, pf);
      forall k | 0 <= k < r.Length ensures r[..][k] == LinAt(a, b, k) { LinCommutes(a, b, k); }
      LinearIs(a, b, r[..]);
    } else {
      r := ConvC1DX(a, b, false, -1, 0, pf);
    }
  }

  /** Fold a long response into a buffer of m samples, piece by piece. */
  method Fold(b: seq<Complex>, m: nat) returns (buf: seq<Complex>)
    requires m > 0
    ensures buf == FoldInto(Zeros(m), b)
  {
    buf := Zeros(m);
    var i1, n := 0, |b|;
    while i1 < n
      invariant 0 <= i1 && |buf| == m && FoldInto(buf, b[Min(i1, n)..]) == FoldInto(Zeros(m), b)
      decreases n - i1
    {
      var i2 := Min(i1 + m - 1, n - 1);
      FoldStep(buf, b, i1);
      buf := AddPrefix(buf, b[i1..i2 + 1]);
      i1 := i1 + m;
    }
    AddNothing(buf);
  }

  lemma {:induction false} AddNothing(buf: seq<Complex>)
    requires buf != []
    ensures FoldInto(buf, []) == buf
  {
    assert AddPrefix(buf, []) == buf;
  }

  lemma {:induction false} FoldStep(buf: seq<Complex>, b: seq<Complex>, i: int)
    requires buf != [] && 0 <= i < |b|
    ensures var end := Min(i + |buf|, |b|);
      FoldInto(buf, b[i..]) == FoldInto(AddPrefix(buf, b[i..end]), b[end..])
  {
    var m := |buf|;
    if i + m < |b| {
      assert b[i..][..m] == b[i..i + m] && b[i..][m..] == b[i + m..];
    } else {
      AddNothing(AddPrefix(buf, b[i..]));
      assert b[i..|b|] == b[i..];
    }
  }

  /** Circular convolution for signal and response of any lengths. */
  method ConvC1DCircular(s: seq<Complex>, b: seq<Complex>, pf: Platform) returns (c: array<Complex>)
    requires Roots(pf.root) && s != [] && b != []
    ensures fresh(c) && c[..] == Circular(s, b)
  {
    if |s| < |b| {
      var buf := Fold(b, |s|);
      c := ConvC1DX(s, buf, true, -1, 0, pf);
      forall k | 0 <= k < |s| ensures c[..][k] == CircAt(s, b, k) { FoldingKeepsCirc(s, b, k); }
      CircularIs(s, b, c[..]);
    } else {
      c := ConvC1DX(s, b, true, -1, 0, pf);
    }
  }

  lemma {:induction false} ConjugatePrefix(pattern: seq<Complex>, i: int)
    requires 0 <= i < |pattern|
    ensures Conjugate(pattern[..i + 1]) == Conjugate(pattern[..i]) + [Conj(pattern[i])]
  {
  }

  lemma {:induction false} ReverseSnoc(s: seq<Complex>, x: Complex)
    ensures Reverse(s + [x]) == [x] + Reverse(s)
  {
    assert (s + [x])[..|s|] == s;
  }

  /** The pattern reversed and conjugated, filled from the end. */
  method Mirrored(pattern: seq<Complex>) returns (p: seq<Complex>)
    ensures p == Reverse(Conjugate(pattern))
  {
    p := [];
    for i := 0 to |pattern|
      invariant p == Reverse(Conjugate(pattern[..i]))
    {
      ConjugatePrefix(pattern, i);
      ReverseSnoc(Conjugate(pattern[..i]), Conj(pattern[i]));
      p := [Conj(pattern[i])] + p;
    }
    assert pattern[..|pattern|] == pattern;
  }

  /** Cross-correlation: non-negative lags come first, negative lags fill the end backwards. */
  method CorrC1D(signal: seq<Complex>, pattern: seq<Complex>, pf: Platform) returns (r: array<Complex>)
    requires Roots(pf.root) && signal != [] && pattern != []
    ensures fresh(r) && r.Length == |signal| + |pattern| - 1
    ensures forall i :: 0 <= i < |signal| ==> r[i] == CorrAt(signal, pattern, i)
    ensures forall k :: |signal| <= k < r.Length ==> r[k] == CorrAt(signal, pattern, k - r.Length)
  {
    var n, m := |signal|, |pattern|;
    var p := Mirrored(pattern);
    var b := ConvC1D(p, signal, pf);
    ghost var lin := b[..];
    forall k | 0 <= k < m + n - 1 ensures lin[k] == CorrAt(signal, pattern, k - (m - 1)) {
      LinCommutes(p, signal, k);
      CorrIsLin(signal, pattern, k);
    }
    r := FromSeq(b[m - 1..] + b[..m - 1]);
    assert r[..] == lin[m - 1..] + lin[..m - 1];
    forall i | 0 <= i < n ensures r[i] == CorrAt(signal, pattern, i) { assert r[..][i] == lin[m - 1 + i]; }
    forall k | n <= k < r.Length ensures r[k] == CorrAt(signal, pattern, k - r.Length) {
      assert r[..][k] == lin[k - n];
    }
  }

  /** Circular cross-correlation for signal and pattern of any lengths. */
  method CorrC1DCircular(signal: seq<Complex>, pattern: seq<Complex>, pf: Platform) returns (c: array<Complex>)
    requires Roots(pf.root) && signal != [] && pattern != []
    ensures fresh(c) && c.Length == |signal|
    ensures forall i :: 0 <= i < |signal| ==> c[i] == CircCorrAt(signal, pattern, i)
  {
    var m := |signal|;
    if m < |pattern| {
      var buf := Fold(pattern, m);
      c := CorrC1DShort(signal, buf, pf);
      forall i | 0 <= i < m ensures c[i] == CircCorrAt(signal, pattern, i) { FoldingKeepsCircCorr(signal, pattern, i); }
    } else {
      c := CorrC1DShort(signal, pattern, pf);
    }
  }

  method CorrC1DShort(signal: seq<Complex>, pattern: seq<Complex>, pf: Platform) returns (c: array<Complex>)
    requires Roots(pf.root) && 0 < |pattern| <= |signal|
    ensures fresh(c) && c.Length == |signal|
    ensures forall i :: 0 <= i < |signal| ==> c[i] == CircCorrAt(signal, pattern, i)
  {
    var m, n := |signal|, |pattern|;
    var p := Mirrored(pattern);
    var b := ConvC1DCircular(signal, p, pf);
    ghost var circ := b[..];
    forall k | 0 <= k < m ensures circ[k] == CircCorrAt(signal, pattern, k - (n - 1)) {
      CircCorrIsCirc(signal, pattern, k);
    }
    c := FromSeq(b[n - 1..] + b[..n - 1]);
    assert c[..] == circ[n - 1..] + circ[..n - 1];
    forall i | 0 <= i < m ensures c[i] == CircCorrAt(signal, pattern, i) {
      if i <= m - n {
        assert c[..][i] == circ[n - 1 + i];
      } else {
        assert c[..][i] == circ[i - (m - n + 1)];
        CircCorrPeriodic(signal, pattern, i);
      }
    }
  }
}
