/** L'Ecuyer's combined generator, in Schrage's overflow-free arithmetic, and unbiased bounded sampling on top of it. */
module Hqrnd {

  const M1 := 2147483563
  const M2 := 2147483399
  const A1 := 40014
  const A2 := 40692
  const HQRND_MAX := 2147483561
  const MAGIC := 1634357784
  /** Multiplicative inverses of the two multipliers. */
  const INV1 := 2082061899
  const INV2 := 1481316021

  datatype Option<T> = None | Some(value: T)

  /** The two machine integer widths; every intermediate of type Int32 is shown to fit. */
  newtype Int32 = v: int | -0x8000_0000 <= v < 0x8000_0000
  newtype Int64 = v: int | -0x8000_0000_0000_0000 <= v < 0x8000_0000_0000_0000

  /** One component of the generator: multiply by `a` modulo `m`. */
  function MulMod(a: int, s: int, m: int): int
    requires m > 0
  {
    a * s % m
  }

  /** States that generation starts from and never leaves. */
  predicate GoodState(s1: int, s2: int) {
    1 <= s1 < M1 && 1 <= s2 < M2
  }

  /** Schrage's identity for m = a*q + r: the split product differs from a*s by a multiple of m. */
  lemma {:induction false} Schrage(a: int, q: int, r: int, m: int, s: int)
    requires q > 0 && m == a * q + r
    ensures a * (s % q) - (s / q) * r == a * s - (s / q) * m
  {
    assert s == (s / q) * q + s % q;
    assert a * s == a * ((s / q) * q) + a * (s % q);
    assert (s / q) * m == (s / q) * (a * q) + (s / q) * r;
    assert a * ((s / q) * q) == (s / q) * (a * q);
  }

  lemma {:induction false} MulAtLeast(d: int, m: int)
    requires m > 0
    ensures d >= 1 ==> d * m >= m
    ensures d <= -1 ==> d * m <= -m
  {
    assert d >= 1 ==> (d - 1) * m >= 0;
    assert d <= -1 ==> (d + 1) * m <= 0;
  }

  lemma {:induction false} ModUnique(x: int, k: int, m: int, v: int)
    requires m > 0 && 0 <= v < m && v == x - k * m
    ensures v == x % m && k == x / m
  {
    var d := x / m - k;
    assert x == (x / m) * m + x % m;
    assert d * m == (x / m) * m - k * m;
    MulAtLeast(d, m);
  }

  /** Multiplying by two factors in turn is multiplying by their product. */
  lemma {:induction false} MulModMulMod(a: int, b: int, s: int, m: int)
    requires m > 0
    ensures MulMod(a, MulMod(b, s, m), m) == MulMod(a * b, s, m)
  {
    var q, x := b * s / m, a * MulMod(b, s, m);
    assert b * s == q * m + MulMod(b, s, m);
    assert a * (b * s) == a * (q * m) + x;
    assert a * (b * s) == a * b * s && a * (q * m) == a * q * m;
    ModUnique(x, x / m, m, x % m);
    var k := a * q + x / m;
    assert k * m == a * q * m + x / m * m;
    ModUnique(a * b * s, k, m, x % m);
  }

  /** `inv` is the inverse of `a` modulo `m`, so multiplying by one undoes multiplying by the other. */
  lemma {:induction false} MulModInverse(a: int, inv: int, m: int, s: int)
    requires m > 1 && inv * a % m == 1 && 0 <= s < m
    ensures MulMod(inv, MulMod(a, s, m), m) == s
  {
    MulModMulMod(inv, a, s, m);
    var k := inv * a / m;
    assert inv * a == k * m + 1;
    assert inv * a * s == (k * m + 1) * s;
    assert (k * m + 1) * s == k * s * m + s;
    ModUnique(inv * a * s, k * s, m, s);
  }

  lemma {:induction false} InversesAreInverses()
    ensures INV1 * A1 % M1 == 1 && A1 * INV1 % M1 == 1
    ensures INV2 * A2 % M2 == 1 && A2 * INV2 % M2 == 1
  {
  }

  /** Each component is a bijection on 1 .. m-1, with the inverse multiplier as inverse function. */
  lemma {:induction false} ComponentsAreBijections(s1: int, s2: int)
    requires GoodState(s1, s2)
    ensures GoodState(MulMod(A1, s1, M1), MulMod(A2, s2, M2))
    ensures GoodState(MulMod(INV1, s1, M1), MulMod(INV2, s2, M2))
    ensures MulMod(INV1, MulMod(A1, s1, M1), M1) == s1 && MulMod(A1, MulMod(INV1, s1, M1), M1) == s1
    ensures MulMod(INV2, MulMod(A2, s2, M2), M2) == s2 && MulMod(A2, MulMod(INV2, s2, M2), M2) == s2
  {
    InversesAreInverses();
    MulModInverse(A1, INV1, M1, s1);
    MulModInverse(INV1, A1, M1, s1);
    MulModInverse(A2, INV2, M2, s2);
    MulModInverse(INV2, A2, M2, s2);
  }

  lemma {:induction false} MulBetween(a: int, x: int, y: int)
    requires a >= 0 && 0 <= x <= y
    ensures 0 <= a * x <= a * y
  {
    assert a * (y - x) >= 0;
  }

  lemma {:induction false} SchrageBounds(a: int, q: int, r: int, m: int, k: int, x: int)
    requires a > 0 && m == a * q + r && 0 <= r < q && 0 <= x < q && 0 <= k && k * q < m
    ensures -m < a * x - k * r < m
  {
    MulBetween(a, x, q - 1);
    assert a * (q - 1) == a * q - a;
    MulBetween(k, r, q);
  }

  /** Schrage's step: the split product lies strictly between -m and m, and one correction by m makes it the modular
      product. */
  lemma {:induction false} SchrageStep(a: int, q: int, r: int, m: int, s: int)
    requires a > 0 && m == a * q + r && 0 <= r < q && 0 <= s < m
    ensures var v := a * (s % q) - s / q * r;
      -m < v < m && MulMod(a, s, m) == if v < 0 then v + m else v
  {
    var k, x := s / q, s % q;
    Schrage(a, q, r, m, s);
    assert k * q <= s && k >= 0;
    SchrageBounds(a, q, r, m, k, x);
    CorrectedOnce(a * s, k, m, a * x - k * r);
  }

  lemma {:induction false} CorrectedOnce(x: int, k: int, m: int, v: int)
    requires m > 0 && -m < v < m && v == x - k * m
    ensures x % m == if v < 0 then v + m else v
  {
    assert (k - 1) * m == k * m - m;
    if v < 0 { ModUnique(x, k - 1, m, v + m); } else { ModUnique(x, k, m, v); }
  }

  // ---------------------------------------------------------------- whole runs

  /** The generator's pair of component states. */
  datatype State = State(s1: int, s2: int) {
    predicate Good() { GoodState(s1, s2) }

    function Next(): State { State(MulMod(A1, s1, M1), MulMod(A2, s2, M2)) }

    function Previous(): State { State(MulMod(INV1, s1, M1), MulMod(INV2, s2, M2)) }

    /** The number reported in this state: the difference of the components, wrapped into 0 .. HQRND_MAX. */
    function Output(): nat { (s1 - s2 - 1) % (M1 - 1) }

    /** The state after `k` steps. */
    function After(k: nat): State { if k == 0 then this else After(k - 1).Next() }

    function Before(k: nat): State { if k == 0 then this else Before(k - 1).Previous() }
  }

  /** Every run from a good state stays good and reports numbers in 0 .. HQRND_MAX. */
  lemma {:induction false} RunsStayGood(st: State, k: nat)
    requires st.Good()
    ensures st.After(k).Good() && 0 <= st.After(k).Output() <= HQRND_MAX
  {
    if k > 0 {
      RunsStayGood(st, k - 1);
      ComponentsAreBijections(st.After(k - 1).s1, st.After(k - 1).s2);
    }
  }

  /** Every run can be replayed backwards, so two different states never meet. */
  lemma {:induction false} RunsAreReversible(st: State, k: nat)
    requires st.Good()
    ensures st.After(k).Before(k) == st
  {
    if k > 0 {
      RunsStayGood(st, k - 1);
      ComponentsAreBijections(st.After(k - 1).s1, st.After(k - 1).s2);
      BeforeFromPrevious(st.After(k), k);
      RunsAreReversible(st, k - 1);
    }
  }

  lemma {:induction false} BeforeFromPrevious(st: State, k: nat)
    requires k > 0
    ensures st.Before(k) == st.Previous().Before(k - 1)
  {
    if k > 1 { BeforeFromPrevious(st, k - 1); }
  }

  lemma {:induction false} RunsNeverMerge(s: State, t: State, k: nat)
    requires s.Good() && t.Good() && s.After(k) == t.After(k)
    ensures s == t
  {
    RunsAreReversible(s, k);
    RunsAreReversible(t, k);
  }

  // ---------------------------------------------------------------- bounded sampling

  /** The number of distinct raw outputs. */
  const MAX_COUNT := HQRND_MAX + 1

  /** The remainder of `v` on division by `n`, by repeated subtraction. */
  function Reduced(v: nat, n: int): (r: int)
    requires n > 0
    ensures 0 <= r < n
  {
    if v < n then v else Reduced(v - n, n)
  }

  lemma {:induction false} ReducedIsRemainder(v: nat, n: int)
    requires n > 0
    ensures Reduced(v, n) == v % n
  {
    if v < n {
      ModUnique(v, 0, n, v);
    } else {
      ReducedIsRemainder(v - n, n);
      var q := (v - n) / n;
      assert (q + 1) * n == q * n + n;
      ModUnique(v, q + 1, n, (v - n) % n);
    }
  }

  /** Raw outputs from this one up are drawn again when sampling below `n`. */
  function Cutoff(n: int): int
    requires n > 0
  {
    MAX_COUNT - Reduced(MAX_COUNT, n)
  }

  /** How many raw outputs below `upto` are accepted and reduce to `target`. */
  function Hits(n: int, target: int, upto: nat): nat
    requires n > 0
  {
    if upto == 0 then 0
    else Hits(n, target, upto - 1) + if upto - 1 < Cutoff(n) && (upto - 1) % n == target then 1 else 0
  }

  lemma {:induction false} DivModSucc(u: int, n: int)
    requires n > 0
    ensures u % n + 1 == n ==> (u + 1) / n == u / n + 1 && (u + 1) % n == 0
    ensures u % n + 1 < n ==> (u + 1) / n == u / n && (u + 1) % n == u % n + 1
  {
    var q, r := u / n, u % n;
    assert u == q * n + r;
    if r + 1 == n {
      assert (q + 1) * n == q * n + n;
      ModUnique(u + 1, q + 1, n, 0);
    } else {
      ModUnique(u + 1, q, n, r + 1);
    }
  }

  lemma {:induction false} HitsBelowCutoff(n: int, target: int, upto: nat)
    requires 0 <= target < n && upto <= Cutoff(n)
    ensures Hits(n, target, upto) == upto / n + if target < upto % n then 1 else 0
  {
    if upto == 0 {
      ModUnique(0, 0, n, 0);
    } else {
      HitsBelowCutoff(n, target, upto - 1);
      DivModSucc(upto - 1, n);
    }
  }

  lemma {:induction false} HitsAboveCutoff(n: int, target: int, upto: nat)
    requires 0 <= target < n && Cutoff(n) <= upto && 0 <= Cutoff(n)
    ensures Hits(n, target, upto) == Hits(n, target, Cutoff(n))
  {
    if upto > Cutoff(n) { HitsAboveCutoff(n, target, upto - 1); }
  }

  /** The cut-off is the largest multiple of n among the raw counts; for n within range it is positive. */
  lemma {:induction false} CutoffIsMultiple(n: int)
    requires 0 < n <= MAX_COUNT
    ensures 0 < Cutoff(n) <= MAX_COUNT && Cutoff(n) % n == 0 && Cutoff(n) / n == MAX_COUNT / n
  {
    ReducedIsRemainder(MAX_COUNT, n);
    var q := MAX_COUNT / n;
    assert MAX_COUNT == q * n + MAX_COUNT % n;
    ModUnique(Cutoff(n), q, n, 0);
    assert MAX_COUNT % n < n;
  }

  /** Small ranges are unbiased: each target has exactly Cutoff/n accepted raw outputs. */
  lemma {:induction false} SmallRangesUnbiased(n: int, target: int)
    requires 0 < n <= MAX_COUNT && 0 <= target < n
    ensures Hits(n, target, MAX_COUNT) == Cutoff(n) / n && Cutoff(n) / n >= 1
  {
    CutoffIsMultiple(n);
    HitsAboveCutoff(n, target, MAX_COUNT);
    HitsBelowCutoff(n, target, Cutoff(n));
    ModUnique(Cutoff(n), Cutoff(n) / n, n, 0);
    MulAtLeast(-(Cutoff(n) / n), n);
  }

  /** How many bins of MAX_COUNT values cover 0 .. n-1. */
  function Bins(n: int): int
    requires n > 0
  {
    if n % MAX_COUNT == 0 then n / MAX_COUNT else n / MAX_COUNT + 1
  }

  /** The pairs (offset, bin) that are not drawn again. */
  predicate KeptPair(n: int, a: int, b: int)
    requires n > 0
  {
    0 <= a < MAX_COUNT && 0 <= b < Bins(n)
    && !(n % MAX_COUNT != 0 && b == n / MAX_COUNT && a >= n % MAX_COUNT)
  }

  /** Large ranges: the kept pairs are in bijection with 0 .. n-1. */
  lemma {:induction false} KeptPairsAreTheRange(n: int, a: int, b: int, v: int)
    requires n > MAX_COUNT
    ensures KeptPair(n, a, b) && v == a + MAX_COUNT * b <==> 0 <= v < n && a == v % MAX_COUNT && b == v / MAX_COUNT
  {
  }

  /** Large ranges are unbiased down to the raw outputs: each target comes from one raw offset and from as many raw bins
      as every other. */
  lemma {:induction false} LargeRangesUnbiased(n: int, v: int)
    requires n > MAX_COUNT && Bins(n) <= MAX_COUNT && 0 <= v < n
    ensures KeptPair(n, v % MAX_COUNT, v / MAX_COUNT)
    ensures Hits(MAX_COUNT, v % MAX_COUNT, MAX_COUNT) == 1
    ensures Hits(Bins(n), v / MAX_COUNT, MAX_COUNT) == Cutoff(Bins(n)) / Bins(n)
  {
    KeptPairsAreTheRange(n, v % MAX_COUNT, v / MAX_COUNT, v);
    SmallRangesUnbiased(MAX_COUNT, v % MAX_COUNT);
    SmallRangesUnbiased(Bins(n), v / MAX_COUNT);
  }

  /** The raw outputs of a generator, in the order they will be drawn. */
  function Raw(st: State): nat -> nat {
    (k: nat) => st.After(k + 1).Output()
  }

  /** The first of the raw outputs pos .. end-1 that is below `mx`. */
  function FirstBelow(raw: nat -> nat, mx: int, pos: nat, end: nat): (r: Option<nat>)
    ensures r.Some? ==> pos <= r.value < end && raw(r.value) < mx
    decreases end - pos
  {
    if pos >= end then None else if raw(pos) < mx then Some(pos) else FirstBelow(raw, mx, pos + 1, end)
  }

  /** Everything before the chosen output is rejected, and everything is when none is chosen. */
  lemma {:induction false} FirstBelowIsFirst(raw: nat -> nat, mx: int, pos: nat, end: nat, j: nat)
    requires pos <= j < match FirstBelow(raw, mx, pos, end) case None => end case Some(i) => i
    ensures raw(j) >= mx
    decreases end - pos
  {
    if pos < j { FirstBelowIsFirst(raw, mx, pos + 1, end, j); }
  }

  /** Where the two draws of a pair were accepted. */
  datatype Pair = Pair(offsetAt: nat, binAt: nat)

  function FirstPair(raw: nat -> nat, mx: int, pos: nat, end: nat): (r: Option<Pair>)
    ensures r.Some? ==> pos <= r.value.offsetAt < r.value.binAt < end
  {
    match FirstBelow(raw, MAX_COUNT, pos, end)
    case None => None
    case Some(i) => match FirstBelow(raw, mx, i + 1, end) case None => None case Some(j) => Some(Pair(i, j))
  }

  /** Which pairs of draws are kept when sampling below n. */
  function PairKept(raw: nat -> nat, n: int): Pair -> bool
    requires n > MAX_COUNT
  {
    (p: Pair) => KeptPair(n, raw(p.offsetAt), Reduced(raw(p.binAt), Bins(n)))
  }

  /** The first kept pair among the pairs drawn one after another from raw outputs pos .. end-1. */
  function FirstKept(raw: nat -> nat, kept: Pair -> bool, mx: int, pos: nat, end: nat): (r: Option<Pair>)
    ensures r.Some? ==> pos <= r.value.offsetAt < r.value.binAt < end && kept(r.value)
    decreases end - pos
  {
    match FirstPair(raw, mx, pos, end)
    case None => None
    case Some(p) => if kept(p) then Some(p) else FirstKept(raw, kept, mx, p.binAt + 1, end)
  }

  lemma {:induction false} FirstKeptSkips(raw: nat -> nat, kept: Pair -> bool, mx: int, pos: nat, end: nat)
    requires pos <= end
    ensures match FirstPair(raw, mx, pos, end)
      case None => FirstKept(raw, kept, mx, pos, end) == FirstKept(raw, kept, mx, end, end)
      case Some(p) => !kept(p) ==> FirstKept(raw, kept, mx, pos, end) == FirstKept(raw, kept, mx, p.binAt + 1, end)
  {
  }

  /** A sampled value and the number of raw outputs drawn for it. */
  datatype Sample = Sample(value: int, drawn: nat)

  /** Sampling below n from a raw stream of which `end` outputs may be drawn. */
  function SampleBelow(raw: nat -> nat, n: int, end: nat): (r: Option<Sample>)
    requires n > 0
    ensures r.Some? ==> 0 < r.value.drawn <= end
  {
    if n > MAX_COUNT then
      match FirstKept(raw, PairKept(raw, n), Cutoff(Bins(n)), 0, end)
      case None => None
      case Some(p) => Some(Sample(raw(p.offsetAt) + MAX_COUNT * Reduced(raw(p.binAt), Bins(n)), p.binAt + 1))
    else
      match FirstBelow(raw, Cutoff(n), 0, end)
      case None => None
      case Some(i) => Some(Sample(Reduced(raw(i), n), i + 1))
  }

  lemma {:induction false} MoreDrawsFirstBelow(raw: nat -> nat, mx: int, pos: nat, end: nat, more: nat)
    requires end <= more && FirstBelow(raw, mx, pos, end).Some?
    ensures FirstBelow(raw, mx, pos, more) == FirstBelow(raw, mx, pos, end)
    decreases end - pos
  {
    if raw(pos) >= mx { MoreDrawsFirstBelow(raw, mx, pos + 1, end, more); }
  }

  lemma {:induction false} MoreDrawsFirstPair(raw: nat -> nat, mx: int, pos: nat, end: nat, more: nat)
    requires end <= more && FirstPair(raw, mx, pos, end).Some?
    ensures FirstPair(raw, mx, pos, more) == FirstPair(raw, mx, pos, end)
  {
    MoreDrawsFirstBelow(raw, MAX_COUNT, pos, end, more);
    MoreDrawsFirstBelow(raw, mx, FirstBelow(raw, MAX_COUNT, pos, end).value + 1, end, more);
  }

  lemma {:induction false} MoreDrawsFirstKept(raw: nat -> nat, kept: Pair -> bool, mx: int, pos: nat, end: nat,
                                              more: nat)
    requires end <= more && FirstKept(raw, kept, mx, pos, end).Some?
    ensures FirstKept(raw, kept, mx, pos, more) == FirstKept(raw, kept, mx, pos, end)
    decreases end - pos
  {
    MoreDrawsFirstPair(raw, mx, pos, end, more);
    FirstKeptSkips(raw, kept, mx, pos, end);
    FirstKeptSkips(raw, kept, mx, pos, more);
    var p := FirstPair(raw, mx, pos, end).value;
    if !kept(p) { MoreDrawsFirstKept(raw, kept, mx, p.binAt + 1, end, more); }
  }

  /** The limit on draws never changes what is sampled, only whether the sample is reached. */
  lemma {:induction false} DrawLimitIrrelevant(raw: nat -> nat, n: int, end: nat, more: nat)
    requires n > 0 && end <= more && SampleBelow(raw, n, end).Some?
    ensures SampleBelow(raw, n, more) == SampleBelow(raw, n, end)
  {
    if n > MAX_COUNT {
      MoreDrawsFirstKept(raw, PairKept(raw, n), Cutoff(Bins(n)), 0, end, more);
    } else {
      MoreDrawsFirstBelow(raw, Cutoff(n), 0, end, more);
    }
  }

  /** Whatever the raw stream, a sample lies in 0 .. n-1. */
  lemma {:induction false} SampleInRange(raw: nat -> nat, n: int, end: nat)
    requires n > 0 && SampleBelow(raw, n, end).Some?
    ensures 0 <= SampleBelow(raw, n, end).value.value < n
  {
    if n > MAX_COUNT {
      var p := FirstKept(raw, PairKept(raw, n), Cutoff(Bins(n)), 0, end).value;
      var a, b := raw(p.offsetAt), Reduced(raw(p.binAt), Bins(n));
      KeptPairsAreTheRange(n, a, b, a + MAX_COUNT * b);
    }
  }

  // ---------------------------------------------------------------- what is sampled

  /** Below this, raw outputs are spread evenly over the remainders: the largest multiple of n that is no larger than
      the number of raw outputs. */
  function Even(n: int): int
    requires n > 0
  {
    MAX_COUNT / n * n
  }

  lemma {:induction false} CutoffIsEven(n: int)
    requires 0 < n <= MAX_COUNT
    ensures Cutoff(n) == Even(n) && 0 < Even(n) <= MAX_COUNT && MAX_COUNT - Even(n) < n
  {
    CutoffIsMultiple(n);
    ReducedIsRemainder(MAX_COUNT, n);
  }

  /** A small range: the first raw output below the even limit is reduced modulo n. */
  lemma {:induction false} SmallSample(raw: nat -> nat, n: int, end: nat)
    requires 0 < n <= MAX_COUNT && SampleBelow(raw, n, end).Some?
    ensures var s := SampleBelow(raw, n, end).value;
      && raw(s.drawn - 1) < Even(n) && s.value == raw(s.drawn - 1) % n
      && forall j: nat :: j < s.drawn - 1 ==> raw(j) >= Even(n)
  {
    var i := FirstBelow(raw, Cutoff(n), 0, end).value;
    CutoffIsEven(n);
    ReducedIsRemainder(raw(i), n);
    forall j: nat | j < i ensures raw(j) >= Even(n) { FirstBelowIsFirst(raw, Cutoff(n), 0, end, j); }
  }

  /** How many groups of MAX_COUNT values cover 0 .. n-1. */
  function Groups(n: int): int { (n + MAX_COUNT - 1) / MAX_COUNT }

  lemma {:induction false} BinsAreGroups(n: int)
    requires n > 0
    ensures Bins(n) == Groups(n)
  {
    var q, r := n / MAX_COUNT, n % MAX_COUNT;
    assert n == q * MAX_COUNT + r;
    if r == 0 {
      ModUnique(n + MAX_COUNT - 1, q, MAX_COUNT, MAX_COUNT - 1);
    } else {
      ModUnique(n + MAX_COUNT - 1, q + 1, MAX_COUNT, r - 1);
    }
  }

  /** A large range: an offset and a group are drawn, and the value is the one with that offset in that group. */
  lemma {:induction false} LargeSample(raw: nat -> nat, n: int, end: nat)
    requires n > MAX_COUNT && Groups(n) <= MAX_COUNT && SampleBelow(raw, n, end).Some?
    ensures var s := SampleBelow(raw, n, end).value;
      && 0 <= s.value < n && raw(s.drawn - 1) < Even(Groups(n))
      && s.value / MAX_COUNT == raw(s.drawn - 1) % Groups(n)
      && exists i: nat :: i < s.drawn - 1 && raw(i) == s.value % MAX_COUNT
  {
    BinsAreGroups(n);
    var g := Groups(n);
    var p := FirstKept(raw, PairKept(raw, n), Cutoff(g), 0, end).value;
    var v := SampleBelow(raw, n, end).value.value;
    KeptIsPair(raw, PairKept(raw, n), Cutoff(g), 0, end);
    CutoffIsEven(g);
    ReducedIsRemainder(raw(p.binAt), g);
    KeptPairsAreTheRange(n, raw(p.offsetAt), Reduced(raw(p.binAt), g), v);
    assert raw(p.offsetAt) == v % MAX_COUNT;
  }

  lemma {:induction false} KeptIsPair(raw: nat -> nat, kept: Pair -> bool, mx: int, pos: nat, end: nat)
    requires FirstKept(raw, kept, mx, pos, end).Some?
    ensures var p := FirstKept(raw, kept, mx, pos, end).value;
      kept(p) && raw(p.offsetAt) < MAX_COUNT && raw(p.binAt) < mx
    decreases end - pos
  {
    var p := FirstPair(raw, mx, pos, end).value;
    if !kept(p) { KeptIsPair(raw, kept, mx, p.binAt + 1, end); }
  }

  // ---------------------------------------------------------------- the generator object

  /** A seed brought into 1 .. m; negative seeds are mirrored first, so that the least 64-bit integer does not
      overflow. */
  function Seeded(seed: Int64, m: Int64): (s: Int32)
    requires 0 < m < 0x8000_0000 - 1
    ensures 1 <= s as Int64 <= m
  {
    var t: Int64 := if seed < 0 then -(seed + 1) else seed;
    (t % m + 1) as Int32
  }

  /** A good state seeds to itself, shifted by one: every good state is reachable by seeding. */
  lemma {:induction false} SeedingCoversGoodStates(s: Int32, m: Int64)
    requires 0 < m < 0x8000_0000 - 1 && 1 <= s as Int64 <= m
    ensures Seeded(s as Int64 - 1, m) == s && Seeded(-(s as Int64), m) == s
  {
    ModUnique(s as int - 1, 0, m as int, s as int - 1);
  }

  /** The pairs of the last bin that lie beyond n are drawn again. */
  function Redraw(n: Int64, a: Int64, b: Int64): bool
    requires n > 0
  {
    n % 2147483562 != 0 && b == n / 2147483562 && a >= n % 2147483562
  }

  /** `pair` holds the two raw outputs drawn at `p`. */
  ghost predicate PairAt(pair: Option<(Int64, Int64)>, raw: nat -> nat, p: Pair) {
    pair.Some? && pair.value.0 as int == raw(p.offsetAt) && pair.value.1 as int == raw(p.binAt)
  }

  /** `pair` was drawn at the pair `p`, and `next` is the position after it. */
  ghost predicate KeptAt(pair: Option<(Int64, Int64)>, raw: nat -> nat, p: Option<Pair>, next: nat) {
    p.Some? && PairAt(pair, raw, p.value) && next == p.value.binAt + 1
  }

  lemma {:induction false} RedrawsTheRest(n: Int64, a: Int64, b: Int64)
    requires n > 0 && 0 <= a as int < MAX_COUNT && 0 <= b as int < Bins(n as int)
    ensures Redraw(n, a, b) <==> !KeptPair(n as int, a as int, b as int)
  {
  }

  /** Testing the drawn pair decides whether the search for a kept pair ends here. */
  lemma {:induction false} Decided(n: Int64, mx: int, pair: Option<(Int64, Int64)>, b: Int64, raw: nat -> nat, pos: nat,
                                   end: nat, p: Pair, next: nat)
    requires n as int > MAX_COUNT && pos <= end && FirstPair(raw, mx, pos, end) == Some(p)
    requires PairAt(pair, raw, p) && next == p.binAt + 1
    requires 0 <= pair.value.0 as int < MAX_COUNT && b as int == Reduced(raw(p.binAt), Bins(n as int))
    ensures var first := FirstKept(raw, PairKept(raw, n as int), mx, pos, end);
      && (!Redraw(n, pair.value.0, b) ==> KeptAt(pair, raw, first, next))
      && (Redraw(n, pair.value.0, b) ==> first == FirstKept(raw, PairKept(raw, n as int), mx, next, end))
  {
    FirstKeptSkips(raw, PairKept(raw, n as int), mx, pos, end);
    RedrawsTheRest(n, pair.value.0, b);
  }

  method Remainder(v: Int64, n: Int64) returns (r: Int64)
    requires v >= 0 && n > 0
    ensures r as int == Reduced(v as int, n as int)
  {
    ReducedIsRemainder(v as int, n as int);
    r := v % n;
  }

  method CutoffFor(n: Int64) returns (mx: Int64)
    requires n > 0
    ensures mx as int == Cutoff(n as int)
  {
    var r := Remainder(2147483562, n);
    mx := 2147483562 - r;
  }

  class Generator {
    var s1: Int32
    var s2: Int32
    var magicv: Int32

    function Current(): State
      reads this
    {
      State(s1 as int, s2 as int)
    }

    predicate Valid()
      reads this
    {
      Current().Good() && magicv == MAGIC as Int32
    }

    /** hqrndseed: every pair of 64-bit seeds, negative ones included, gives a good state. */
    constructor Seed(seed1: Int64, seed2: Int64)
      ensures Valid()
      ensures s1 == Seeded(seed1, 2147483562) && s2 == Seeded(seed2, 2147483398)
    {
      s1 := Seeded(seed1, 2147483562);
      s2 := Seeded(seed2, 2147483398);
      magicv := MAGIC as Int32;
    }

    /** The first component's step in 32-bit arithmetic. */
    static method StepFirst(s: Int32) returns (t: Int32)
      requires 1 <= s as int < M1
      ensures t as int == MulMod(A1, s as int, M1)
    {
      SchrageStep(A1, 53668, 12211, M1, s as int);
      var k: Int32 := s / 53668;
      t := 40014 * (s - k * 53668) - k * 12211;
      if t < 0 { t := t + 2147483563; }
    }

    /** The second component's step in 32-bit arithmetic. */
    static method StepSecond(s: Int32) returns (t: Int32)
      requires 1 <= s as int < M2
      ensures t as int == MulMod(A2, s as int, M2)
    {
      SchrageStep(A2, 52774, 3791, M2, s as int);
      var k: Int32 := s / 52774;
      t := 40692 * (s - k * 52774) - k * 3791;
      if t < 0 { t := t + 2147483399; }
    }

    /** hqrndintegerbase: one step of both components, and their wrapped difference. */
    method IntegerBase() returns (result: Int32)
      requires Valid()
      modifies this
      ensures Valid() && Current() == old(Current()).Next()
      ensures result as int == Current().Output() && 0 <= result as int <= HQRND_MAX
      ensures result as int + 1 == s1 as int - s2 as int + if s1 > s2 then 0 else 2147483562
    {
      ComponentsAreBijections(s1 as int, s2 as int);
      s1 := StepFirst(s1);
      s2 := StepSecond(s2);
      result := s1 - s2;
      if result < 1 { result := result + 2147483562; }
      result := result - 1;
    }

    /** hqrnduniformr: a number strictly between 0 and 1. */
    method UniformR() returns (x: real)
      requires Valid()
      modifies this
      ensures Valid() && Current() == old(Current()).Next()
      ensures 0.0 < x < 1.0 && x * (HQRND_MAX + 2) as real == (Current().Output() + 1) as real
    {
      var v := IntegerBase();
      x := (v as int + 1) as real / (HQRND_MAX + 2) as real;
    }

    /** Where in the run from `start` the generator stands. */
    ghost predicate Drawn(start: State, pos: nat)
      reads this
    {
      Valid() && Current() == start.After(pos)
    }

    /** Redraw until the raw output is below `mx`; the loop both ranges of hqrnduniformi rest on. */
    method DrawBelow(mx: Int64, ghost start: State, pos: nat, end: nat) returns (raw: Option<Int64>, next: nat)
      requires Drawn(start, pos) && pos <= end
      modifies this
      ensures Drawn(start, next) && pos <= next <= end
      ensures match FirstBelow(Raw(start), mx as int, pos, end)
        case None => raw == None && next == end
        case Some(i) =>
          raw.Some? && raw.value as int == Raw(start)(i) && next == i + 1 && 0 <= raw.value as int < MAX_COUNT
    {
      next := pos;
      while next < end
        invariant pos <= next <= end && Drawn(start, next)
        invariant FirstBelow(Raw(start), mx as int, pos, end) == FirstBelow(Raw(start), mx as int, next, end)
      {
        var v := IntegerBase();
        next := next + 1;
        if v as Int64 < mx { return Some(v as Int64), next; }
      }
      raw := None;
    }

    /** A raw offset, and then a raw bin below `mx`, as the recursive calls draw them. */
    method DrawPair(mx: Int64, ghost start: State, pos: nat, end: nat)
      returns (pair: Option<(Int64, Int64)>, next: nat)
      requires Drawn(start, pos) && pos <= end
      modifies this
      ensures Drawn(start, next) && pos <= next <= end
      ensures match FirstPair(Raw(start), mx as int, pos, end)
        case None => pair == None && next == end
        case Some(p) => PairAt(pair, Raw(start), p) && next == p.binAt + 1
      ensures pair.Some? ==> 0 <= pair.value.0 as int < MAX_COUNT && 0 <= pair.value.1 as int < MAX_COUNT
    {
      var a, b;
      a, next := DrawBelow(2147483562, start, pos, end);
      if a == None { return None, next; }
      b, next := DrawBelow(mx, start, next, end);
      if b == None { return None, next; }
      pair := Some((a.value, b.value));
    }

    /** One pair of draws, with the decision whether it is kept. */
    method TryPair(n: Int64, bins: Int64, mx: Int64, ghost start: State, pos: nat, end: nat)
      returns (pair: Option<(Int64, Int64)>, keep: bool, next: nat)
      requires Drawn(start, pos) && pos < end && n as int > MAX_COUNT && bins as int == Bins(n as int)
      modifies this
      ensures Drawn(start, next) && pos < next <= end
      ensures var kept := PairKept(Raw(start), n as int);
        && (keep ==> KeptAt(pair, Raw(start), FirstKept(Raw(start), kept, mx as int, pos, end), next))
        && (!keep ==>
              FirstKept(Raw(start), kept, mx as int, pos, end) == FirstKept(Raw(start), kept, mx as int, next, end))
    {
      pair, next := DrawPair(mx, start, pos, end);
      if pair == None {
        FirstKeptSkips(Raw(start), PairKept(Raw(start), n as int), mx as int, pos, end);
        return None, false, end;
      }
      var b := Remainder(pair.value.1, bins);
      keep := !Redraw(n, pair.value.0, b);
      Decided(n, mx as int, pair, b, Raw(start), pos, end, FirstPair(Raw(start), mx as int, pos, end).value, next);
    }

    /** Large ranges: pairs of draws until one is kept (the first always is when MAX_COUNT divides n). */
    method DrawKept(n: Int64, bins: Int64, mx: Int64, ghost start: State, end: nat)
      returns (pair: Option<(Int64, Int64)>, next: nat)
      requires Drawn(start, 0) && n as int > MAX_COUNT && bins as int == Bins(n as int)
      modifies this
      ensures Drawn(start, next) && next <= end
      ensures match pair
        case None => FirstKept(Raw(start), PairKept(Raw(start), n as int), mx as int, 0, end) == None && next == end
        case Some(_) =>
          KeptAt(pair, Raw(start), FirstKept(Raw(start), PairKept(Raw(start), n as int), mx as int, 0, end), next)
    {
      ghost var kept := PairKept(Raw(start), n as int);
      next := 0;
      while next < end
        invariant next <= end && Drawn(start, next)
        invariant FirstKept(Raw(start), kept, mx as int, 0, end) == FirstKept(Raw(start), kept, mx as int, next, end)
      {
        var keep;
        pair, keep, next := TryPair(n, bins, mx, start, next, end);
        if keep { return; }
      }
      pair := None;
    }

    method UniformLarge(n: Int64, ghost start: State, end: nat) returns (result: Option<Int64>, next: nat)
      requires Drawn(start, 0) && n as int > MAX_COUNT && Bins(n as int) <= MAX_COUNT
      modifies this
      ensures Drawn(start, next) && next <= end
      ensures match SampleBelow(Raw(start), n as int, end)
        case None => result == None && next == end
        case Some(s) => result.Some? && result.value as int == s.value && next == s.drawn
    {
      var bins := if n % 2147483562 == 0 then n / 2147483562 else n / 2147483562 + 1;
      var pair;
      var mx := CutoffFor(bins);
      pair, next := DrawKept(n, bins, mx, start, end);
      if pair == None { return None, next; }
      var a := pair.value.0;
      var b := Remainder(pair.value.1, bins);
      KeptPairsAreTheRange(n as int, a as int, b as int, a as int + MAX_COUNT * b as int);
      result := Some(a + 2147483562 * b);
    }

    /** hqrnduniformi: a number in 0 .. n-1, or nothing when `limit` raw outputs were not enough. */
    method UniformI(n: Int64, limit: nat) returns (result: Option<Int64>, drawn: nat)
      requires Valid() && n > 0 && (n as int > MAX_COUNT ==> Bins(n as int) <= MAX_COUNT)
      modifies this
      ensures Valid() && drawn <= limit && Current() == old(Current()).After(drawn)
      ensures result.Some? ==> 0 <= result.value < n
      ensures match SampleBelow(Raw(old(Current())), n as int, limit)
        case None => result == None && drawn == limit
        case Some(s) => result.Some? && result.value as int == s.value && drawn == s.drawn
      ensures n as int <= MAX_COUNT && result.Some? ==>
        result.value as int == Current().Output() % n as int && Current().Output() < MAX_COUNT / n as int * n as int
      ensures n as int > MAX_COUNT && result.Some? ==>
        && result.value as int / MAX_COUNT == Current().Output() % Groups(n as int)
        && Current().Output() < MAX_COUNT / Groups(n as int) * Groups(n as int)
    {
      ghost var start := Current();
      if n > 2147483562 {
        result, drawn := UniformLarge(n, start, limit);
      } else {
        var raw;
        var mx := CutoffFor(n);
        raw, drawn := DrawBelow(mx, start, 0, limit);
        if raw == None { return None, drawn; }
        var v := Remainder(raw.value, n);
        result := Some(v);
      }
      if result.Some? {
        SampleInRange(Raw(start), n as int, limit);
        if n as int <= MAX_COUNT {
          SmallSample(Raw(start), n as int, limit);
        } else {
          BinsAreGroups(n as int);
          LargeSample(Raw(start), n as int, limit);
        }
      }
    }
  }
}
