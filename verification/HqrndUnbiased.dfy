/** How many raw outputs give each sampled value. */
module HqrndUnbiased {
  import opened Hqrnd

  // ---------------------------------------------------------------- how often

  /** A stream that starts with u and goes on with w. */
  function Stream(u: nat, w: nat): nat -> nat { (k: nat) => if k == 0 then u else w }

  /** The raw outputs that make the sample equal to v at the first draw. */
  ghost function Giving(n: int, v: int): (s: set<nat>)
    requires n > 0
    ensures forall u: nat :: u in s <==> u < MAX_COUNT && SampleBelow(Stream(u, u), n, 1) == Some(Sample(v, 1))
  {
    set u: nat | u < MAX_COUNT && SampleBelow(Stream(u, u), n, 1) == Some(Sample(v, 1))
  }

  /** Those below a limit that are accepted and leave v. */
  ghost function Leaving(n: int, v: int, upto: nat): (s: set<nat>)
    requires n > 0
    ensures forall u: nat :: u in s <==> u < upto && u < Cutoff(n) && u % n == v
  {
    set u: nat | u < upto && u < Cutoff(n) && u % n == v
  }

  lemma {:induction false} HitsAreLeaving(n: int, v: int, upto: nat)
    requires n > 0
    ensures Hits(n, v, upto) == |Leaving(n, v, upto)|
  {
    if upto == 0 {
      assert Leaving(n, v, 0) == {};
    } else {
      var u: nat := upto - 1;
      HitsAreLeaving(n, v, u);
      if u < Cutoff(n) && u % n == v {
        assert Leaving(n, v, upto) == Leaving(n, v, u) + {u};
      } else {
        assert Leaving(n, v, upto) == Leaving(n, v, u);
      }
    }
  }

  lemma {:induction false} SampleAtOnce(u: nat, n: int)
    requires 0 < n <= MAX_COUNT
    ensures SampleBelow(Stream(u, u), n, 1) == if u < Cutoff(n) then Some(Sample(u % n, 1)) else None
  {
    ReducedIsRemainder(u, n);
    assert FirstBelow(Stream(u, u), Cutoff(n), 1, 1) == None;
  }

  /** Every value of a small range is sampled from equally many raw outputs. */
  lemma {:induction false} SmallSamplesUnbiased(n: int, v: int)
    requires 0 < n <= MAX_COUNT && 0 <= v < n
    ensures |Giving(n, v)| == MAX_COUNT / n >= 1
  {
    forall u: nat ensures u in Giving(n, v) <==> u in Leaving(n, v, MAX_COUNT) { SampleAtOnce(u, n); }
    assert Giving(n, v) == Leaving(n, v, MAX_COUNT);
    HitsAreLeaving(n, v, MAX_COUNT);
    SmallRangesUnbiased(n, v);
    CutoffIsMultiple(n);
  }

  /** The pairs of raw outputs that make the sample equal to v at the first two draws. */
  ghost function GivingPairs(n: int, v: int): (s: set<(nat, nat)>)
    requires n > 0
    ensures forall u: nat, w: nat :: (u, w) in s <==>
      u < MAX_COUNT && w < MAX_COUNT && SampleBelow(Stream(u, w), n, 2) == Some(Sample(v, 2))
  {
    set u: nat, w: nat |
      u < MAX_COUNT && w < MAX_COUNT && SampleBelow(Stream(u, w), n, 2) == Some(Sample(v, 2)) :: (u, w)
  }

  lemma {:induction false} PairAtOnce(u: nat, w: nat, n: int)
    requires n > MAX_COUNT && u < MAX_COUNT
    ensures var b := Reduced(w, Bins(n));
      SampleBelow(Stream(u, w), n, 2)
      == if w < Cutoff(Bins(n)) && KeptPair(n, u, b) then Some(Sample(u + MAX_COUNT * b, 2)) else None
  {
    var raw, mx := Stream(u, w), Cutoff(Bins(n));
    assert FirstBelow(raw, MAX_COUNT, 0, 2) == Some(0);
    assert FirstBelow(raw, mx, 2, 2) == None;
    assert FirstBelow(raw, mx, 1, 2) == if w < mx then Some(1) else None;
    NothingKept(raw, PairKept(raw, n), mx);
  }

  lemma {:induction false} NothingKept(raw: nat -> nat, kept: Pair -> bool, mx: int)
    ensures FirstKept(raw, kept, mx, 2, 2) == None
  {
  }

  lemma {:induction false} PairGives(u: nat, w: nat, n: int, v: int)
    requires n > MAX_COUNT && u < MAX_COUNT && 0 <= v < n
    ensures SampleBelow(Stream(u, w), n, 2) == Some(Sample(v, 2))
      <==> u == v % MAX_COUNT && w < Cutoff(Bins(n)) && w % Bins(n) == v / MAX_COUNT
  {
    var b := Reduced(w, Bins(n));
    PairAtOnce(u, w, n);
    ReducedIsRemainder(w, Bins(n));
    KeptPairsAreTheRange(n, u, b, v);
    KeptPairsAreTheRange(n, u, b, u + MAX_COUNT * b);
  }

  lemma {:induction false} PairedSize(u: nat, s: set<nat>, t: set<(nat, nat)>)
    requires forall x: nat, w: nat :: (x, w) in t <==> x == u && w in s
    ensures |t| == |s|
  {
    forall p | p in t ensures p.1 in s { assert p == (p.0, p.1); }
    if s == {} {
      assert t == {};
    } else {
      var w :| w in s;
      PairedSize(u, s - {w}, t - {(u, w)});
    }
  }

  /** Every value of a large range is sampled from equally many pairs of raw outputs. */
  lemma {:induction false} LargeSamplesUnbiased(n: int, v: int)
    requires n > MAX_COUNT && Groups(n) <= MAX_COUNT && 0 <= v < n
    ensures |GivingPairs(n, v)| == MAX_COUNT / Groups(n) >= 1
  {
    BinsAreGroups(n);
    var g, a, b := Groups(n), v % MAX_COUNT, v / MAX_COUNT;
    KeptPairsAreTheRange(n, a, b, v);
    CutoffIsEven(g);
    forall u: nat, w: nat ensures (u, w) in GivingPairs(n, v) <==> u == a && w in Leaving(g, b, MAX_COUNT) {
      if u < MAX_COUNT { PairGives(u, w, n, v); }
    }
    PairedSize(a, Leaving(g, b, MAX_COUNT), GivingPairs(n, v));
    HitsAreLeaving(g, b, MAX_COUNT);
    SmallRangesUnbiased(g, b);
    CutoffIsMultiple(g);
  }

  // ---------------------------------------------------------------- the generator

  /** The first output after seeding with 0 and 0, and the die it throws. */
  lemma {:induction false} FirstOutput()
    ensures Seeded(0, 2147483562) == 1 && Seeded(0, 2147483398) == 1
    ensures State(1, 1).Next() == State(40014, 40692) && State(40014, 40692).Output() == 2147482883
    ensures SampleBelow(Raw(State(1, 1)), 6, 1) == Some(Sample(5, 1))
  {
    assert State(1, 1).After(1) == State(40014, 40692);
    ReducedIsRemainder(MAX_COUNT, 6);
    ReducedIsRemainder(2147482883, 6);
  }

  /** Seeds count modulo the number of component values, and negative ones mirror the others. */
  lemma {:induction false} SeedsWrapAround(seed: Int64, m: Int64)
    requires 0 < m < 0x8000_0000 - 1
    ensures 0 <= seed && seed as int + m as int < 0x8000_0000_0000_0000 ==> Seeded(seed + m, m) == Seeded(seed, m)
    ensures Seeded(-1 - seed, m) == Seeded(seed, m)
    ensures 0 <= seed < m ==> Seeded(seed, m) as int == seed as int + 1
  {
    if 0 <= seed && seed as int + m as int < 0x8000_0000_0000_0000 {
      var q := seed as int / m as int;
      assert seed as int == q * m as int + seed as int % m as int;
      assert (q + 1) * m as int == q * m as int + m as int;
      ModUnique(seed as int + m as int, q + 1, m as int, seed as int % m as int);
    }
    if 0 <= seed < m { ModUnique(seed as int, 0, m as int, seed as int); }
  }
}
