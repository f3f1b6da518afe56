/** What a step of the solver does to the linear equation y' = rate * y. */
module OdeLinear {
  import opened OdeTableau
  import opened OdePosition
  import opened OdeSolver

  // ---------------------------------------------------------------- weighted sums

  function Times(x: real, y: real): real { x * y }

  function Dot(w: nat -> real, f: nat -> real, t: nat): real {
    if t == 0 then 0.0 else Dot(w, f, t - 1) + w(t - 1) * f(t - 1)
  }

  /** The first t values of g are y times those of f. */
  ghost predicate Multiples(g: nat -> real, f: nat -> real, y: real, t: nat) {
    forall j: nat :: j < t ==> g(j) == Times(f(j), y)
  }

  lemma {:induction false} DotScaled(w: nat -> real, f: nat -> real, g: nat -> real, y: real, t: nat)
    ensures Multiples(g, f, y, t) ==> Dot(w, g, t) == Times(Dot(w, f, t), y)
  {
    if t > 0 && Multiples(g, f, y, t) {
      assert Multiples(g, f, y, t - 1);
      DotScaled(w, f, g, y, t - 1);
      Regroup(Dot(w, f, t - 1), w(t - 1), f(t - 1), y);
    }
  }

  lemma {:induction false} Regroup(sum: real, w: real, f: real, y: real)
    ensures sum * y + w * (f * y) == (sum + w * f) * y
  {
  }

  lemma {:induction false} DotUnrolled(w: nat -> real, f: nat -> real)
    ensures Dot(w, f, 0) == 0.0
    ensures Dot(w, f, 1) == Times(w(0), f(0))
    ensures Dot(w, f, 2) == Dot(w, f, 1) + Times(w(1), f(1))
    ensures Dot(w, f, 3) == Dot(w, f, 2) + Times(w(2), f(2))
    ensures Dot(w, f, 4) == Dot(w, f, 3) + Times(w(3), f(3))
    ensures Dot(w, f, 5) == Dot(w, f, 4) + Times(w(4), f(4))
    ensures Dot(w, f, 6) == Dot(w, f, 5) + Times(w(5), f(5))
  {
    DotNext(w, f, 1, w(0), f(0));
    DotNext(w, f, 2, w(1), f(1));
    DotNext(w, f, 3, w(2), f(2));
    DotNext(w, f, 4, w(3), f(3));
    DotNext(w, f, 5, w(4), f(4));
    DotNext(w, f, 6, w(5), f(5));
  }

  /** Row k of the tableau, and component q of the stage table, as functions of the stage. */
  function Weights(k: nat): nat -> real {
    (j: nat) => if k < 8 && j < 6 && (k < 6 ==> j < k) then TableauWeight(k, j) else 0.0
  }

  function Column(rows: seq<Vec>, q: nat): nat -> real {
    (j: nat) => if j < |rows| && q < |rows[j]| then rows[j][q] else 0.0
  }

  lemma {:induction false} CombinedIsDot(base: Vec, k: nat, rows: seq<Vec>, t: nat, q: nat)
    requires Rows(rows, |base|) && t <= |rows| == 6 && k < 8 && (k < 6 ==> t <= k) && q < |base|
    ensures Combined(base, k, rows, t)[q] == base[q] + Dot(Weights(k), Column(rows, q), t)
  {
    if t > 0 {
      CombinedIsDot(base, k, rows, t - 1, q);
      var w, r := TableauWeight(k, t - 1), rows[t - 1][q];
      CombinedComponent(base, k, rows, t, q, w, r);
      DotNext(Weights(k), Column(rows, q), t, w, r);
    }
  }

  lemma {:induction false} DotNext(w: nat -> real, f: nat -> real, t: nat, v: real, r: real)
    requires t > 0 && v == w(t - 1) && r == f(t - 1)
    ensures Dot(w, f, t) == Dot(w, f, t - 1) + Times(v, r)
  {
  }

  lemma {:induction false} CombinedComponent(base: Vec, k: nat, rows: seq<Vec>, t: nat, q: nat, w: real, r: real)
    requires Rows(rows, |base|) && 0 < t <= |rows| == 6 && k < 8 && (k < 6 ==> t <= k) && q < |base|
    requires w == TableauWeight(k, t - 1) && r == rows[t - 1][q]
    ensures Combined(base, k, rows, t)[q] == Combined(base, k, rows, t - 1)[q] + Times(w, r)
  {
  }

  // ---------------------------------------------------------------- proportional stages

  /** The stage factors for z = h * rate: each stage is z times the values that it is evaluated at. */
  ghost predicate Recurrent(z: real, factors: nat -> real) {
    forall k: nat :: k < 6 ==> factors(k) == Grown(z, Dot(Weights(k), factors, k))
  }

  function Grown(y: real, sum: real): real { y * (1.0 + sum) }

  /** The stages so far are multiples of the solution, by the same factors in every component. */
  ghost predicate Proportional(pb: Problem, c: Progress, factors: nat -> real) {
    Shaped(pb.n, c) && forall q: nat :: q < pb.n ==> Multiples(Column(c.rkk, q), factors, c.yc[q], c.k)
  }

  /** The caller answered rate * y at the values y that the solver asked about. */
  ghost predicate LinearAnswer(pb: Problem, c: Progress, rate: real, dy: Vec) {
    && Shaped(pb.n, c) && c.k < 6 && |dy| == pb.n
    && forall q: nat :: q < pb.n ==> dy[q] == Times(rate, Combined(c.yc, c.k, c.rkk, c.k)[q])
  }

  /** The step times rate. */
  function StepFactor(pb: Problem, c: Progress, rate: real): real { Times(Stride(c.pos.h, pb.xscale), rate) }

  lemma {:induction false} ColumnScaled(pb: Problem, c: Progress, factors: nat -> real, w: nat -> real, q: nat)
    requires Proportional(pb, c, factors) && q < pb.n
    ensures Dot(w, Column(c.rkk, q), c.k) == Times(Dot(w, factors, c.k), c.yc[q])
  {
    DotScaled(w, factors, Column(c.rkk, q), c.yc[q], c.k);
  }

  /** A weighted sum of proportional stages is proportional. */
  lemma {:induction false} CombinedProportional(pb: Problem, c: Progress, factors: nat -> real, k: nat, q: nat)
    requires Proportional(pb, c, factors) && k < 8 && (k < 6 ==> c.k <= k) && q < pb.n
    ensures Combined(c.yc, k, c.rkk, c.k)[q] == Grown(c.yc[q], Dot(Weights(k), factors, c.k))
  {
    CombinedIsDot(c.yc, k, c.rkk, c.k, q);
    ColumnScaled(pb, c, factors, Weights(k), q);
    GrownIs(c.yc[q], Dot(Weights(k), factors, c.k), Dot(Weights(k), Column(c.rkk, q), c.k),
            Combined(c.yc, k, c.rkk, c.k)[q]);
  }

  lemma {:induction false} GrownIs(y: real, sum: real, scaled: real, value: real)
    requires scaled == Times(sum, y) && value == y + scaled
    ensures value == Grown(y, sum)
  {
  }

  /** What the values at stage k are multiplied with, and so is the factor of that stage. */
  lemma {:induction false} StageSum(pb: Problem, c: Progress, factors: nat -> real, z: real, q: nat) returns (sum: real)
    requires Proportional(pb, c, factors) && c.k < 6 && Recurrent(z, factors) && q < pb.n
    ensures Combined(c.yc, c.k, c.rkk, c.k)[q] == Grown(c.yc[q], sum) && factors(c.k) == Grown(z, sum)
  {
    sum := Dot(Weights(c.k), factors, c.k);
    CombinedProportional(pb, c, factors, c.k, q);
    FactorIs(z, factors, c.k, sum);
  }

  /** Scaling rate times a grown value is growing z = stride * rate and scaling. */
  lemma {:induction false} NewFactor(stride: real, rate: real, y: real, sum: real, value: real, d: real)
    requires value == Grown(y, sum) && d == Times(rate, value)
    ensures Times(stride, d) == Times(Grown(Times(stride, rate), sum), y)
  {
    var g := 1.0 + sum;
    assert stride * (rate * (y * g)) == stride * rate * g * y;
  }

  lemma {:induction false} NewRow(pb: Problem, c: Progress, factors: nat -> real, rate: real, dy: Vec, q: nat)
    requires Proportional(pb, c, factors) && LinearAnswer(pb, c, rate, dy) && q < pb.n
    requires Recurrent(StepFactor(pb, c, rate), factors)
    ensures Column(Absorbed(pb, c, dy).rkk, q)(c.k) == Times(factors(c.k), c.yc[q])
  {
    var sum := StageSum(pb, c, factors, StepFactor(pb, c, rate), q);
    AbsorbedRow(pb, c, dy, q, Stride(c.pos.h, pb.xscale));
    NewFactor(Stride(c.pos.h, pb.xscale), rate, c.yc[q], sum, Combined(c.yc, c.k, c.rkk, c.k)[q], dy[q]);
  }

  lemma {:induction false} FactorIs(z: real, factors: nat -> real, k: nat, sum: real)
    requires k < 6 && sum == Dot(Weights(k), factors, k)
    ensures Recurrent(z, factors) ==> factors(k) == Grown(z, sum)
  {
  }

  lemma {:induction false} AbsorbedRow(pb: Problem, c: Progress, dy: Vec, q: nat, stride: real)
    requires Shaped(pb.n, c) && c.k < 6 && |dy| == pb.n && q < pb.n && stride == Stride(c.pos.h, pb.xscale)
    ensures Column(Absorbed(pb, c, dy).rkk, q)(c.k) == Times(stride, dy[q])
    ensures forall j: nat :: j < c.k ==> Column(Absorbed(pb, c, dy).rkk, q)(j) == Column(c.rkk, q)(j)
  {
    assert Scaled(dy, stride)[q] == stride * dy[q];
  }

  lemma {:induction false} OneMoreMultiple(g: nat -> real, g': nat -> real, f: nat -> real, y: real, t: nat)
    requires forall j: nat :: j < t ==> g'(j) == g(j)
    requires g'(t) == Times(f(t), y)
    ensures Multiples(g, f, y, t) ==> Multiples(g', f, y, t + 1)
  {
  }

  /** Absorbing the answer keeps the stages proportional. */
  lemma {:induction false} AbsorbedProportional(pb: Problem, c: Progress, factors: nat -> real, rate: real, dy: Vec)
    requires Proportional(pb, c, factors) && LinearAnswer(pb, c, rate, dy)
    requires Recurrent(StepFactor(pb, c, rate), factors)
    ensures Proportional(pb, Absorbed(pb, c, dy), factors)
  {
    var a := Absorbed(pb, c, dy);
    forall q: nat | q < pb.n ensures Multiples(Column(a.rkk, q), factors, a.yc[q], a.k) {
      NewRow(pb, c, factors, rate, dy, q);
      AbsorbedRow(pb, c, dy, q, Stride(c.pos.h, pb.xscale));
      OneMoreMultiple(Column(c.rkk, q), Column(a.rkk, q), factors, c.yc[q], c.k);
    }
  }

  // ---------------------------------------------------------------- the stability polynomials

  /** Stage k as a multiple of the solution, written out. */
  function StageFactor(z: real, k: nat): real {
    match k
    case 0 => z
    case 1 => z + 1.0 / 5.0 * z * z
    case 2 => z + 3.0 / 10.0 * z * z + 9.0 / 200.0 * z * z * z
    case 3 => z + 3.0 / 5.0 * z * z + 9.0 / 50.0 * z * z * z + 27.0 / 500.0 * z * z * z * z
    case 4 => z + z * z + 1.0 / 2.0 * z * z * z + 7.0 / 60.0 * z * z * z * z + 7.0 / 100.0 * z * z * z * z * z
    case _ =>
      z + 7.0 / 8.0 * z * z + 49.0 / 128.0 * z * z * z + 161.0 / 1536.0 * z * z * z * z
      + 1771.0 / 61440.0 * z * z * z * z * z + 1771.0 / 409600.0 * z * z * z * z * z * z
  }

  function StageFactors(z: real): nat -> real { (k: nat) => StageFactor(z, k) }

  /** The factor of the result: the exponential series to degree five, and a last term. */
  function Growth(z: real): real {
    1.0 + (z + z * z / 2.0 + z * z * z / 6.0 + z * z * z * z / 24.0 + z * z * z * z * z / 120.0
           + z * z * z * z * z * z / 800.0)
  }

  /** The factor of the embedded result: the exponential series to degree four, and two more terms. */
  function EmbeddedGrowth(z: real): real {
    1.0 + (z + z * z / 2.0 + z * z * z / 6.0 + z * z * z * z / 24.0 + 10517.0 / 1228800.0 * z * z * z * z * z
           + 1771.0 / 1638400.0 * z * z * z * z * z * z)
  }

  /** What the values at stages 1 to 5 are multiplied with, less one. */
  function SumBefore(z: real, k: nat): real {
    match k
    case 1 => 1.0 / 5.0 * z
    case 2 => 3.0 / 10.0 * z + 9.0 / 200.0 * z * z
    case 3 => 3.0 / 5.0 * z + 9.0 / 50.0 * z * z + 27.0 / 500.0 * z * z * z
    case 4 => z + 1.0 / 2.0 * z * z + 7.0 / 60.0 * z * z * z + 7.0 / 100.0 * z * z * z * z
    case _ =>
      7.0 / 8.0 * z + 49.0 / 128.0 * z * z + 161.0 / 1536.0 * z * z * z + 1771.0 / 61440.0 * z * z * z * z
      + 1771.0 / 409600.0 * z * z * z * z * z
  }

  lemma {:induction false} Sum1(z: real, k0: real, sum: real)
    requires k0 == z
    requires sum == B(1, 0) * k0
    ensures sum == SumBefore(z, 1)
  {
  }

  lemma {:induction false} Sum2(z: real, k0: real, k1: real, sum: real)
    requires k0 == z
    requires k1 == z + 1.0 / 5.0 * z * z
    requires sum == B(2, 0) * k0 + B(2, 1) * k1
    ensures sum == SumBefore(z, 2)
  {
  }

  lemma {:induction false} Sum3(z: real, k0: real, k1: real, k2: real, sum: real)
    requires k0 == z
    requires k1 == z + 1.0 / 5.0 * z * z
    requires k2 == z + 3.0 / 10.0 * z * z + 9.0 / 200.0 * z * z * z
    requires sum == B(3, 0) * k0 + B(3, 1) * k1 + B(3, 2) * k2
    ensures sum == SumBefore(z, 3)
  {
  }

  lemma {:induction false} Sum4(z: real, k0: real, k1: real, k2: real, k3: real, sum: real)
    requires k0 == z
    requires k1 == z + 1.0 / 5.0 * z * z
    requires k2 == z + 3.0 / 10.0 * z * z + 9.0 / 200.0 * z * z * z
    requires k3 == z + 3.0 / 5.0 * z * z + 9.0 / 50.0 * z * z * z + 27.0 / 500.0 * z * z * z * z
    requires sum == B(4, 0) * k0 + B(4, 1) * k1 + B(4, 2) * k2 + B(4, 3) * k3
    ensures sum == SumBefore(z, 4)
  {
  }

  lemma {:induction false} Sum5(z: real, k0: real, k1: real, k2: real, k3: real, k4: real, sum: real)
    requires k0 == z
    requires k1 == z + 1.0 / 5.0 * z * z
    requires k2 == z + 3.0 / 10.0 * z * z + 9.0 / 200.0 * z * z * z
    requires k3 == z + 3.0 / 5.0 * z * z + 9.0 / 50.0 * z * z * z + 27.0 / 500.0 * z * z * z * z
    requires k4 == z + z * z + 1.0 / 2.0 * z * z * z + 7.0 / 60.0 * z * z * z * z + 7.0 / 100.0 * z * z * z * z * z
    requires sum == B(5, 0) * k0 + B(5, 1) * k1 + B(5, 2) * k2 + B(5, 3) * k3 + B(5, 4) * k4
    ensures sum == SumBefore(z, 5)
  {
  }

  /** Multiplying by z gives the factor of the stage. */
  lemma {:induction false} FactorIsProduct(z: real, k: nat, sum: real)
    requires 1 <= k <= 5 && sum == SumBefore(z, k)
    ensures StageFactor(z, k) == Grown(z, sum)
  {
  }

  lemma {:induction false} ResultSum(z: real, k1: real, k2: real, k3: real, k4: real, k5: real, sum: real)
    requires k2 == z + 3.0 / 10.0 * z * z + 9.0 / 200.0 * z * z * z
    requires k3 == z + 3.0 / 5.0 * z * z + 9.0 / 50.0 * z * z * z + 27.0 / 500.0 * z * z * z * z
    requires k4 == z + z * z + 1.0 / 2.0 * z * z * z + 7.0 / 60.0 * z * z * z * z + 7.0 / 100.0 * z * z * z * z * z
    requires k5 == z + 7.0 / 8.0 * z * z + 49.0 / 128.0 * z * z * z + 161.0 / 1536.0 * z * z * z * z
      + 1771.0 / 61440.0 * z * z * z * z * z + 1771.0 / 409600.0 * z * z * z * z * z * z
    requires sum == C(0) * z + C(1) * k1 + C(2) * k2 + C(3) * k3 + C(4) * k4 + C(5) * k5
    ensures 1.0 + sum == Growth(z)
  {
  }

  lemma {:induction false} EmbeddedSum(z: real, k1: real, k2: real, k3: real, k4: real, k5: real, sum: real)
    requires k2 == z + 3.0 / 10.0 * z * z + 9.0 / 200.0 * z * z * z
    requires k3 == z + 3.0 / 5.0 * z * z + 9.0 / 50.0 * z * z * z + 27.0 / 500.0 * z * z * z * z
    requires k4 == z + z * z + 1.0 / 2.0 * z * z * z + 7.0 / 60.0 * z * z * z * z + 7.0 / 100.0 * z * z * z * z * z
    requires k5 == z + 7.0 / 8.0 * z * z + 49.0 / 128.0 * z * z * z + 161.0 / 1536.0 * z * z * z * z
      + 1771.0 / 61440.0 * z * z * z * z * z + 1771.0 / 409600.0 * z * z * z * z * z * z
    requires sum == Cs(0) * z + Cs(1) * k1 + Cs(2) * k2 + Cs(3) * k3 + Cs(4) * k4 + Cs(5) * k5
    ensures 1.0 + sum == EmbeddedGrowth(z)
  {
  }

  /** The written-out factors are those of the stages. */
  lemma {:induction false} FactorsRecur(z: real)
    ensures Recurrent(z, StageFactors(z))
  {
    forall k: nat | k < 6 ensures StageFactors(z)(k) == Grown(z, Dot(Weights(k), StageFactors(z), k)) {
      FactorRecurs(z, k);
    }
  }

  lemma {:induction false} FactorRecurs(z: real, k: nat)
    requires k < 6
    ensures StageFactors(z)(k) == Grown(z, Dot(Weights(k), StageFactors(z), k))
  {
    var f := StageFactors(z);
    var sum := Dot(Weights(k), f, k);
    DotUnrolled(Weights(k), f);
    match k {
      case 0 => return;
      case 1 => Sum1(z, f(0), sum);
      case 2 => Sum2(z, f(0), f(1), sum);
      case 3 => Sum3(z, f(0), f(1), f(2), sum);
      case 4 => Sum4(z, f(0), f(1), f(2), f(3), sum);
      case 5 => Sum5(z, f(0), f(1), f(2), f(3), f(4), sum);
    }
    FactorIsProduct(z, k, sum);
  }

  /** The result weights turn the stage factors into the two stability polynomials. */
  lemma {:induction false} StabilityPolynomials(z: real)
    ensures 1.0 + Dot(Weights(6), StageFactors(z), 6) == Growth(z)
    ensures 1.0 + Dot(Weights(7), StageFactors(z), 6) == EmbeddedGrowth(z)
  {
    var f := StageFactors(z);
    DotUnrolled(Weights(6), f);
    DotUnrolled(Weights(7), f);
    ResultSum(z, f(1), f(2), f(3), f(4), f(5), Dot(Weights(6), f, 6));
    EmbeddedSum(z, f(1), f(2), f(3), f(4), f(5), Dot(Weights(7), f, 6));
  }

  lemma {:induction false} GrownBy(y: real, sum: real, growth: real)
    requires 1.0 + sum == growth
    ensures Grown(y, sum) == Times(y, growth)
  {
  }

  /** After six proportional stages both results are multiples of the solution. */
  lemma {:induction false} LinearStep(pb: Problem, c: Progress, factors: nat -> real, q: nat, growth: real, other: real)
    requires Sound(pb, c) && c.k == 6 && Proportional(pb, c, factors) && q < pb.n
    requires growth == 1.0 + Dot(Weights(6), factors, 6) && other == 1.0 + Dot(Weights(7), factors, 6)
    ensures c.yn[q] == Times(c.yc[q], growth) && c.yns[q] == Times(c.yc[q], other)
  {
    CombinedProportional(pb, c, factors, 6, q);
    CombinedProportional(pb, c, factors, 7, q);
    GrownBy(c.yc[q], Dot(Weights(6), factors, 6), growth);
    GrownBy(c.yc[q], Dot(Weights(7), factors, 6), other);
  }

  /** The caller's answer, and the state after t such answers. */
  function Derivative(pb: Problem, c: Progress, rate: real): (dy: Vec)
    requires Shaped(pb.n, c) && c.k < 6
    ensures |dy| == pb.n
  {
    seq(pb.n, q requires 0 <= q < pb.n => Times(rate, Combined(c.yc, c.k, c.rkk, c.k)[q]))
  }

  function Answered(pb: Problem, c: Progress, rate: real, t: nat): (r: Progress)
    requires Shaped(pb.n, c) && c.k + t <= 6
    ensures Shaped(pb.n, r) && r.k == c.k + t && r.pos == c.pos && r.yc == c.yc
  {
    if t == 0 then c
    else
      var before := Answered(pb, c, rate, t - 1);
      Absorbed(pb, before, Derivative(pb, before, rate))
  }

  lemma {:induction false} AnsweredProportional(pb: Problem, c: Progress, rate: real, t: nat)
    requires Sound(pb, c) && c.k == 0 && t <= 6
    ensures Sound(pb, Answered(pb, c, rate, t))
    ensures Proportional(pb, Answered(pb, c, rate, t), StageFactors(StepFactor(pb, c, rate)))
  {
    if t > 0 {
      var before, factors := Answered(pb, c, rate, t - 1), StageFactors(StepFactor(pb, c, rate));
      AnsweredProportional(pb, c, rate, t - 1);
      FactorsRecur(StepFactor(pb, c, rate));
      AbsorbedProportional(pb, before, factors, rate, Derivative(pb, before, rate));
      AbsorbedSound(pb, before, Derivative(pb, before, rate));
    }
  }

  /** A whole attempt on y' = rate * y, six answers from its start, multiplies every component by the stability
      polynomial of the method: the exponential series to degree five, and to degree four for the embedded result. */
  lemma {:induction false} LinearAttempt(pb: Problem, c: Progress, rate: real, q: nat)
    requires Sound(pb, c) && c.k == 0 && q < pb.n
    ensures Answered(pb, c, rate, 6).yn[q] == Times(c.yc[q], Growth(StepFactor(pb, c, rate)))
    ensures Answered(pb, c, rate, 6).yns[q] == Times(c.yc[q], EmbeddedGrowth(StepFactor(pb, c, rate)))
  {
    var z := StepFactor(pb, c, rate);
    AnsweredProportional(pb, c, rate, 6);
    StabilityPolynomials(z);
    LinearStep(pb, Answered(pb, c, rate, 6), StageFactors(z), q, Growth(z), EmbeddedGrowth(z));
  }
}
