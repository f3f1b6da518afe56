/** The Cash-Karp tableau, its order conditions, and the step-size controller. */
module OdeTableau {

  /** Stage positions. */
  function A(k: nat): real
    requires k < 6
  {
    match k
    case 0 => 0.0
    case 1 => 1.0 / 5.0
    case 2 => 3.0 / 10.0
    case 3 => 3.0 / 5.0
    case 4 => 1.0
    case _ => 7.0 / 8.0
  }

  /** Stage weights. */
  function B(k: nat, j: nat): real
    requires j < k < 6
  {
    match (k, j)
    case (1, 0) => 1.0 / 5.0
    case (2, 0) => 3.0 / 40.0
    case (2, 1) => 9.0 / 40.0
    case (3, 0) => 3.0 / 10.0
    case (3, 1) => -9.0 / 10.0
    case (3, 2) => 6.0 / 5.0
    case (4, 0) => -11.0 / 54.0
    case (4, 1) => 5.0 / 2.0
    case (4, 2) => -70.0 / 27.0
    case (4, 3) => 35.0 / 27.0
    case (5, 0) => 1631.0 / 55296.0
    case (5, 1) => 175.0 / 512.0
    case (5, 2) => 575.0 / 13824.0
    case (5, 3) => 44275.0 / 110592.0
    case _ => 253.0 / 4096.0
  }

  /** Weights of the result. */
  function C(k: nat): real
    requires k < 6
  {
    match k
    case 0 => 37.0 / 378.0
    case 1 => 0.0
    case 2 => 250.0 / 621.0
    case 3 => 125.0 / 594.0
    case 4 => 0.0
    case _ => 512.0 / 1771.0
  }

  /** Weights of the embedded result that the error is estimated with. */
  function Cs(k: nat): real
    requires k < 6
  {
    match k
    case 0 => 2825.0 / 27648.0
    case 1 => 0.0
    case 2 => 18575.0 / 48384.0
    case 3 => 13525.0 / 55296.0
    case 4 => 277.0 / 14336.0
    case _ => 1.0 / 4.0
  }

  // ---------------------------------------------------------------- what the tableau integrates

  /** The weights in every row of the tableau add up to the stage's position. */
  lemma {:induction false} RowsConsistent()
    ensures B(1, 0) == A(1)
    ensures B(2, 0) + B(2, 1) == A(2)
    ensures B(3, 0) + B(3, 1) + B(3, 2) == A(3)
    ensures B(4, 0) + B(4, 1) + B(4, 2) + B(4, 3) == A(4)
    ensures B(5, 0) + B(5, 1) + B(5, 2) + B(5, 3) + B(5, 4) == A(5)
  {
  }

  // ---------------------------------------------------------------- polynomial right-hand sides

  /** A polynomial of degree at most three. */
  datatype Cubic = Cubic(p0: real, p1: real, p2: real, p3: real) {
    function At(x: real): real { p0 + p1 * x + p2 * x * x + p3 * x * x * x }

    /** Its antiderivative that is zero at zero. */
    function Primitive(x: real): real { Quartic(p0, p1, p2, p3, x) }
  }

  function Quartic(p0: real, p1: real, p2: real, p3: real, x: real): real {
    p0 * x + p1 * x * x / 2.0 + p2 * x * x * x / 3.0 + p3 * x * x * x * x / 4.0
  }

  /** The original time that belongs to a scaled one. */
  function Unscaled(s: real, t: real): real { s * t }

  /** The original time of stage k of a step from xc. */
  function StageTime(s: real, xc: real, h: real, k: nat): real
    requires k < 6
  {
    s * (xc + A(k) * h)
  }

  /** The step in original time. */
  function Stride(h: real, s: real): real { h * s }

  /** The derivative times the step, as the solver scales it, at stage k of a step from xc. */
  function Slope(f: real -> real, s: real, xc: real, h: real, k: nat): real
    requires k < 6
  {
    Stride(h, s) * f(StageTime(s, xc, h, k))
  }

  /** The two results of a step. */
  datatype Rule = Result | Embedded

  function Weight(rule: Rule, k: nat): real
    requires k < 6
  {
    if rule == Result then C(k) else Cs(k)
  }

  /** The first k stages of a step, weighted. */
  function Sum(rule: Rule, f: real -> real, s: real, xc: real, h: real, k: nat): real
    requires k <= 6
  {
    if k == 0 then 0.0 else Sum(rule, f, s, xc, h, k - 1) + Weight(rule, k - 1) * Slope(f, s, xc, h, k - 1)
  }

  /** Both results of a step with right-hand side f are exact: they add what the antiderivative gains. */
  ghost predicate Integrates(f: real -> real, primitive: real -> real) {
    forall rule: Rule, s: real, xc: real, h: real :: s == 1.0 || s == -1.0 ==>
      Sum(rule, f, s, xc, h, 6) == primitive(Unscaled(s, xc + h)) - primitive(Unscaled(s, xc))
  }

  function Combine(rule: Rule, r0: real, r1: real, r2: real, r3: real, r4: real, r5: real): real {
    Weight(rule, 0) * r0 + Weight(rule, 1) * r1 + Weight(rule, 2) * r2 + Weight(rule, 3) * r3 + Weight(rule, 4) * r4
      + Weight(rule, 5) * r5
  }

  lemma {:induction false} SumSix(rule: Rule, f: real -> real, s: real, xc: real, h: real)
    ensures Sum(rule, f, s, xc, h, 6)
      == var r := SlopeOf(f, s, xc, h); Combine(rule, r(0), r(1), r(2), r(3), r(4), r(5))
  {
    var r := SlopeOf(f, s, xc, h);
    SumIsWeighted(rule, f, s, xc, h, r, 6);
    WeightedSix(rule, r);
  }

  /** A weighting of the first k values of r. */
  function Weighted(rule: Rule, r: nat -> real, k: nat): real
    requires k <= 6
  {
    if k == 0 then 0.0 else Weighted(rule, r, k - 1) + Weight(rule, k - 1) * r(k - 1)
  }

  lemma {:induction false} SumIsWeighted(rule: Rule, f: real -> real, s: real, xc: real, h: real, r: nat -> real,
                                         k: nat)
    requires k <= 6 && r == SlopeOf(f, s, xc, h)
    ensures Sum(rule, f, s, xc, h, k) == Weighted(rule, r, k)
  {
    if k > 0 {
      SumIsWeighted(rule, f, s, xc, h, r, k - 1);
      assert r(k - 1) == Slope(f, s, xc, h, k - 1);
    }
  }

  lemma {:induction false} WeightedSix(rule: Rule, r: nat -> real)
    ensures Weighted(rule, r, 6) == Combine(rule, r(0), r(1), r(2), r(3), r(4), r(5))
  {
    assert Weighted(rule, r, 0) == 0.0;
    assert Weighted(rule, r, 2) == Weighted(rule, r, 1) + Weight(rule, 1) * r(1);
    assert Weighted(rule, r, 4) == Weighted(rule, r, 3) + Weight(rule, 3) * r(3);
  }

  function Value(p: Cubic): real -> real { (x: real) => p.At(x) }
  function Antiderivative(p: Cubic): real -> real { (x: real) => p.Primitive(x) }

  predicate IsSlope(r: real, p: Cubic, d: real, x: real) {
    r == d * (p.p0 + p.p1 * x + p.p2 * x * x + p.p3 * x * x * x)
  }

  lemma {:induction false} SlopeOfCubic(p: Cubic, s: real, xc: real, h: real, k: nat, u: real, d: real)
    requires k < 6 && (s == 1.0 || s == -1.0) && u == s * xc && d == s * h
    ensures IsSlope(Slope(Value(p), s, xc, h, k), p, d, u + A(k) * d)
  {
    assert s * (xc + A(k) * h) == u + A(k) * d;
  }

  lemma {:induction false} Quadrature(p0: real, p1: real, p2: real, p3: real, u: real, d: real, r0: real, r2: real,
                                      r3: real, r4: real, r5: real)
    requires r0 == d * (p0 + p1 * u + p2 * u * u + p3 * u * u * u)
    requires r2 == d * (p0 + p1 * (u + 3.0 / 10.0 * d) + p2 * (u + 3.0 / 10.0 * d) * (u + 3.0 / 10.0 * d)
                        + p3 * (u + 3.0 / 10.0 * d) * (u + 3.0 / 10.0 * d) * (u + 3.0 / 10.0 * d))
    requires r3 == d * (p0 + p1 * (u + 3.0 / 5.0 * d) + p2 * (u + 3.0 / 5.0 * d) * (u + 3.0 / 5.0 * d)
                        + p3 * (u + 3.0 / 5.0 * d) * (u + 3.0 / 5.0 * d) * (u + 3.0 / 5.0 * d))
    requires r4 == d * (p0 + p1 * (u + d) + p2 * (u + d) * (u + d) + p3 * (u + d) * (u + d) * (u + d))
    requires r5 == d * (p0 + p1 * (u + 7.0 / 8.0 * d) + p2 * (u + 7.0 / 8.0 * d) * (u + 7.0 / 8.0 * d)
                        + p3 * (u + 7.0 / 8.0 * d) * (u + 7.0 / 8.0 * d) * (u + 7.0 / 8.0 * d))
    ensures 37.0 / 378.0 * r0 + 250.0 / 621.0 * r2 + 125.0 / 594.0 * r3 + 512.0 / 1771.0 * r5
      == Quartic(p0, p1, p2, p3, u + d) - Quartic(p0, p1, p2, p3, u)
    ensures 2825.0 / 27648.0 * r0 + 18575.0 / 48384.0 * r2 + 13525.0 / 55296.0 * r3 + 277.0 / 14336.0 * r4
      + 1.0 / 4.0 * r5
      == Quartic(p0, p1, p2, p3, u + d) - Quartic(p0, p1, p2, p3, u)
  {
  }

  /** The stage slopes of a step with any right-hand side, as a function of the stage. */
  function SlopeOf(f: real -> real, s: real, xc: real, h: real): nat -> real {
    (k: nat) => if k < 6 then Slope(f, s, xc, h, k) else 0.0
  }

  /** `r` gives the slopes of a step of length d from u. */
  ghost predicate AllSlopes(r: nat -> real, p: Cubic, u: real, d: real) {
    forall k: nat :: k < 6 ==> StageSlope(r, p, u, d, k)
  }

  predicate StageSlope(r: nat -> real, p: Cubic, u: real, d: real, k: nat)
    requires k < 6
  {
    IsSlope(r(k), p, d, u + A(k) * d)
  }

  lemma {:induction false} SlopesOfCubic(p: Cubic, s: real, xc: real, h: real, u: real, d: real)
    requires (s == 1.0 || s == -1.0) && u == s * xc && d == s * h
    ensures AllSlopes(SlopeOf(Value(p), s, xc, h), p, u, d)
  {
    var r := SlopeOf(Value(p), s, xc, h);
    forall k: nat | k < 6 ensures StageSlope(r, p, u, d, k) { SlopeOfCubic(p, s, xc, h, k, u, d); }
  }

  lemma {:induction false} CombineSlopes(rule: Rule, p: Cubic, u: real, d: real, r: nat -> real)
    requires AllSlopes(r, p, u, d)
    ensures Combine(rule, r(0), r(1), r(2), r(3), r(4), r(5)) == p.Primitive(u + d) - p.Primitive(u)
  {
    CombineStages(rule, p, u, d, r);
  }

  lemma {:induction false} CombineStages(rule: Rule, p: Cubic, u: real, d: real, r: nat -> real)
    requires StageSlope(r, p, u, d, 0) && StageSlope(r, p, u, d, 2) && StageSlope(r, p, u, d, 3)
    requires StageSlope(r, p, u, d, 4) && StageSlope(r, p, u, d, 5)
    ensures Combine(rule, r(0), r(1), r(2), r(3), r(4), r(5)) == p.Primitive(u + d) - p.Primitive(u)
  {
    CombineSix(rule, p, u, d, r(0), r(1), r(2), r(3), r(4), r(5));
  }

  lemma {:induction false} CombineSix(rule: Rule, p: Cubic, u: real, d: real, r0: real, r1: real, r2: real, r3: real,
                                      r4: real, r5: real)
    requires IsSlope(r0, p, d, u + A(0) * d) && IsSlope(r2, p, d, u + A(2) * d) && IsSlope(r3, p, d, u + A(3) * d)
    requires IsSlope(r4, p, d, u + A(4) * d) && IsSlope(r5, p, d, u + A(5) * d)
    ensures Combine(rule, r0, r1, r2, r3, r4, r5) == p.Primitive(u + d) - p.Primitive(u)
  {
    Quadrature(p.p0, p.p1, p.p2, p.p3, u, d, r0, r2, r3, r4, r5);
  }

  lemma {:induction false} CubicStep(rule: Rule, p: Cubic, s: real, xc: real, h: real, u: real, d: real)
    requires (s == 1.0 || s == -1.0) && u == s * xc && d == s * h
    ensures Sum(rule, Value(p), s, xc, h, 6) == p.Primitive(u + d) - p.Primitive(u)
  {
    SlopesOfCubic(p, s, xc, h, u, d);
    CombineSlopes(rule, p, u, d, SlopeOf(Value(p), s, xc, h));
    SumSix(rule, Value(p), s, xc, h);
  }

  /** Both rules are exact for every polynomial of degree at most three. */
  lemma {:induction false} CubicsIntegrate(p: Cubic)
    ensures Integrates(Value(p), Antiderivative(p))
  {
    forall rule: Rule, s: real, xc: real, h: real | s == 1.0 || s == -1.0
      ensures Sum(rule, Value(p), s, xc, h, 6)
        == Antiderivative(p)(Unscaled(s, xc + h)) - Antiderivative(p)(Unscaled(s, xc))
    {
      CubicStep(rule, p, s, xc, h, s * xc, s * h);
      assert s * (xc + h) == s * xc + s * h;
    }
  }

  // ---------------------------------------------------------------- step-size controller

  const MAX_GROW := 3.0
  const MAX_SHRINK := 10.0
  /** MAX_GROW to the fifth power. */
  const MAX_GROW_POW := 243.0

  function Pow(x: real, n: nat): real {
    if n == 0 then 1.0 else x * Pow(x, n - 1)
  }

  lemma {:induction false} PowMono(x: real, y: real, n: nat)
    requires 0.0 <= x <= y
    ensures 0.0 <= Pow(x, n) <= Pow(y, n)
  {
    if n > 0 {
      PowMono(x, y, n - 1);
      MulMono(x, y, Pow(x, n - 1), Pow(y, n - 1));
    }
  }

  lemma {:induction false} PowBelowOne(x: real, n: nat)
    requires 0.0 <= x < 1.0
    ensures 0.0 <= Pow(x, n + 1) < 1.0
  {
    if n > 0 {
      PowBelowOne(x, n - 1);
      MulMono(x, x, Pow(x, n), 1.0);
    } else {
      assert Pow(x, 0) == 1.0;
    }
  }

  lemma {:induction false} PowOfThree()
    ensures Pow(MAX_GROW, 5) == MAX_GROW_POW && Pow(1.0, 5) == 1.0
  {
    assert Pow(3.0, 2) == 9.0 && Pow(3.0, 4) == 81.0;
    assert Pow(1.0, 2) == 1.0 && Pow(1.0, 4) == 1.0;
  }

  lemma {:induction false} MulMono(x: real, y: real, a: real, b: real)
    requires 0.0 <= x <= y && 0.0 <= a <= b
    ensures 0.0 <= x * a <= y * b
  {
    assert (y - x) * a >= 0.0 && y * (b - a) >= 0.0;
  }

  /** `root` is the fifth root of x. */
  predicate FifthRoot(root: real, x: real) { root >= 0.0 && Pow(root, 5) == x }

  /** The next step length; `scaled` stands for h * (eps/err)^0.2. */
  function NextStep(h: real, eps: real, err: real, scaled: real): real {
    var h2 := if MAX_GROW_POW * err <= eps then MAX_GROW * h else scaled;
    if h2 < h / MAX_SHRINK then h / MAX_SHRINK else h2
  }

  /** How h * (eps/err)^0.2 compares with h. */
  predicate ScaledStep(h: real, eps: real, err: real, scaled: real) {
    && (MAX_GROW_POW * err > eps ==> scaled <= 3.0 * h)
    && (err > eps ==> scaled < h)
    && (err <= eps ==> scaled >= h)
  }

  lemma {:induction false} RootScales(h: real, eps: real, err: real, root: real)
    requires h > 0.0 && eps > 0.0 && err > 0.0 && FifthRoot(root, eps / err)
    ensures ScaledStep(h, eps, err, h * root)
  {
    RootBounds(eps, err, root);
    ScaleBounds(h, root);
  }

  /** A new step is between a tenth and three times the last one; it is shorter after a step whose error is too large
      and no shorter after any other. */
  predicate GoodStep(h: real, eps: real, err: real, h2: real) {
    h / 10.0 <= h2 <= 3.0 * h && (if err > eps then h2 < h else h2 >= h)
  }

  lemma {:induction false} StepBounds(h: real, eps: real, err: real, scaled: real)
    requires h > 0.0 && eps > 0.0 && err >= 0.0 && (err > 0.0 ==> ScaledStep(h, eps, err, scaled))
    ensures GoodStep(h, eps, err, NextStep(h, eps, err, scaled))
  {
  }

  lemma {:induction false} QuotientBound(q: real, err: real, eps: real, b: real)
    requires err > 0.0 && q * err == eps
    ensures eps < b * err <==> q < b
  {
    if q >= b {
      assert (q - b) * err >= 0.0;
    } else {
      assert (b - q) * err > 0.0;
    }
  }

  lemma {:induction false} RootBounds(eps: real, err: real, root: real)
    requires eps > 0.0 && err > 0.0 && FifthRoot(root, eps / err)
    ensures 243.0 * err > eps ==> root <= 3.0
    ensures err > eps ==> root < 1.0
    ensures err <= eps ==> root >= 1.0
  {
    var q := eps / err;
    assert q * err == eps;
    QuotientBound(q, err, eps, 243.0);
    QuotientBound(q, err, eps, 1.0);
    PowOfThree();
    if root > 3.0 { PowMono(3.0, root, 5); }
    if root >= 1.0 { PowMono(1.0, root, 5); } else { PowBelowOne(root, 4); }
  }

  lemma {:induction false} ScaleBounds(h: real, root: real)
    requires h > 0.0 && root >= 0.0
    ensures root <= 3.0 ==> h * root <= 3.0 * h
    ensures root < 1.0 ==> h * root < h
    ensures root >= 1.0 ==> h * root >= h
  {
    assert root <= 3.0 ==> h * (3.0 - root) >= 0.0;
    assert root < 1.0 ==> h * (1.0 - root) > 0.0;
    assert root >= 1.0 ==> h * (root - 1.0) >= 0.0;
  }

  // ---------------------------------------------------------------- the law of the new length

  lemma {:induction false} PowProduct(x: real, y: real, n: nat)
    ensures Pow(x * y, n) == Pow(x, n) * Pow(y, n)
  {
    if n > 0 {
      PowProduct(x, y, n - 1);
      Interchange(x, y, Pow(x, n - 1), Pow(y, n - 1));
    }
  }

  lemma {:induction false} Interchange(x: real, y: real, a: real, b: real)
    ensures (x * y) * (a * b) == (x * a) * (y * b)
  {
  }

  lemma {:induction false} PowOfTen()
    ensures Pow(10.0, 5) == 100000.0
  {
    assert Pow(10.0, 2) == 100.0 && Pow(10.0, 4) == 10000.0;
  }

  /** The fifth root of a ratio is below a tenth exactly when the ratio is below the fifth power of a tenth. */
  lemma {:induction false} TenthRoot(eps: real, err: real, root: real)
    requires eps > 0.0 && err > 0.0 && FifthRoot(root, eps / err)
    ensures root < 1.0 / 10.0 <==> err > 100000.0 * eps
  {
    var q, t := eps / err, 10.0 * root;
    assert q * err == eps;
    PowProduct(10.0, root, 5);
    PowOfTen();
    assert Pow(t, 5) == 100000.0 * q;
    QuotientBound(q, err, eps, 1.0 / 100000.0);
    PowOfThree();
    if t < 1.0 { PowBelowOne(t, 4); } else { PowMono(1.0, t, 5); }
  }

  /** The new length: three times the old one for small errors, a tenth of it for very large ones, and otherwise its
      fifth power is that of the old length times eps / err. */
  predicate LengthLaw(h: real, eps: real, err: real, h2: real) {
    if 243.0 * err <= eps then h2 == 3.0 * h
    else if err <= 100000.0 * eps then FifthsScale(h2, err, h, eps)
    else h2 == h / 10.0
  }

  predicate FifthsScale(h2: real, err: real, h: real, eps: real) {
    Pow(h2, 5) * err == Pow(h, 5) * eps
  }

  lemma {:induction false} RootLaw(h: real, eps: real, err: real, root: real, scaled: real)
    requires eps > 0.0 && err > 0.0 && FifthRoot(root, eps / err) && scaled == h * root
    ensures FifthsScale(scaled, err, h, eps)
  {
    var q := eps / err;
    assert q * err == eps;
    PowProduct(h, root, 5);
    Regrouped(Pow(h, 5), q, err, eps);
  }

  lemma {:induction false} Regrouped(p: real, q: real, err: real, eps: real)
    requires q * err == eps
    ensures (p * q) * err == p * eps
  {
    assert (p * q) * err == p * (q * err);
  }

  lemma {:induction false} TenthOf(h: real, root: real, scaled: real)
    requires h > 0.0 && scaled == h * root
    ensures scaled < h / 10.0 <==> root < 1.0 / 10.0
  {
    assert h / 10.0 - h * root == h * (1.0 / 10.0 - root);
    assert root < 1.0 / 10.0 ==> h * (1.0 / 10.0 - root) > 0.0;
    assert root >= 1.0 / 10.0 ==> h * (root - 1.0 / 10.0) >= 0.0;
  }

  lemma {:induction false} NextStepLaw(h: real, eps: real, err: real, root: real, scaled: real)
    requires h > 0.0 && eps > 0.0 && err > 0.0 && FifthRoot(root, eps / err) && scaled == h * root
    ensures LengthLaw(h, eps, err, NextStep(h, eps, err, scaled))
  {
    RootLaw(h, eps, err, root, scaled);
    TenthRoot(eps, err, root);
    TenthOf(h, root, scaled);
    LawOf(h, eps, err, scaled);
  }

  lemma {:induction false} LawOf(h: real, eps: real, err: real, scaled: real)
    requires h > 0.0 && eps > 0.0 && err > 0.0 && (scaled < h / 10.0 <==> err > 100000.0 * eps)
    requires FifthsScale(scaled, err, h, eps)
    ensures LengthLaw(h, eps, err, NextStep(h, eps, err, scaled))
  {
    var h2 := NextStep(h, eps, err, scaled);
    if 243.0 * err <= eps {
      assert h2 == 3.0 * h;
    } else if err <= 100000.0 * eps {
      assert h2 == scaled;
    } else {
      assert h2 == h / 10.0;
    }
  }
}
