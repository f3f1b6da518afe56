/** Transform lengths: products of 2, 3 and 5, and powers of two. */
module Smooth {
  import opened Integers

  predicate Fives(u: nat) { u == 1 || (u > 0 && u % 5 == 0 && Fives(u / 5)) }
  predicate Threes(u: nat) { Fives(u) || (u > 0 && u % 3 == 0 && Threes(u / 3)) }
  predicate Twos(u: nat) { Threes(u) || (u > 0 && u % 2 == 0 && Twos(u / 2)) }

  /** `u` is a product of factors 2, 3 and 5, none of them below `least`. */
  predicate Product(least: int, u: nat) {
    if least <= 2 then Twos(u) else if least <= 3 then Threes(u) else Fives(u)
  }

  predicate IsSmooth(u: nat) { Product(2, u) }

  lemma {:induction false} ResidueTimes(v: int)
    ensures v % 2 != 0 ==> (5 * v) % 2 != 0 && (3 * v) % 2 != 0
    ensures v % 3 != 0 ==> (5 * v) % 3 != 0
  {
  }

  /** The factors come out in order: a smaller one does not divide. */
  lemma {:induction false} FivesResidues(u: nat)
    requires Fives(u)
    ensures u % 2 != 0 && u % 3 != 0 && u > 0
  {
    if u != 1 {
      var v := u / 5;
      FivesResidues(v);
      ResidueTimes(v);
      assert u == 5 * v;
    }
  }

  lemma {:induction false} ThreesOdd(u: nat)
    requires Threes(u)
    ensures u % 2 != 0 && u > 0
  {
    if Fives(u) {
      FivesResidues(u);
    } else {
      var v := u / 3;
      ThreesOdd(v);
      ResidueTimes(v);
      assert u == 3 * v;
    }
  }

  lemma {:induction false} TwosPositive(u: nat)
    requires Twos(u)
    ensures u > 0
  {
    if Threes(u) { ThreesOdd(u); }
  }

  lemma {:induction false} NotFives(u: nat)
    requires u % 2 == 0 || u % 3 == 0
    ensures !Fives(u)
  {
    if Fives(u) { FivesResidues(u); }
  }

  lemma {:induction false} NotThrees(u: nat)
    requires u % 2 == 0
    ensures !Threes(u)
  {
    if Threes(u) { ThreesOdd(u); }
  }

  /** Removing a factor `i` that divides keeps smoothness, both ways. */
  lemma {:induction false} StripFactor(i: int, u: nat)
    requires u > 0 && (i == 2 || i == 3 || i == 5) && u % i == 0
    ensures Product(i, u) <==> Product(i, u / i)
  {
    if i == 2 {
      NotThrees(u);
    } else if i == 3 {
      NotFives(u);
    }
  }

  /** A product that i does not divide uses larger factors only. */
  lemma {:induction false} NextFactor(u: nat)
    ensures u % 2 != 0 ==> (Product(2, u) <==> Product(3, u))
    ensures u % 3 != 0 ==> (Product(3, u) <==> Product(4, u))
    ensures Product(4, u) <==> Product(5, u)
    ensures u % 5 != 0 ==> (Product(5, u) <==> u == 1)
  {
  }

  /** Divide out a factor as often as it goes. */
  method Strip(n: nat, i: int) returns (r: nat)
    requires n > 0 && (i == 2 || i == 3 || i == 5)
    ensures r > 0 && r % i != 0 && (Product(i, n) <==> Product(i, r))
  {
    r := n;
    while r % i == 0
      invariant r > 0 && (Product(i, n) <==> Product(i, r))
      decreases r
    {
      StripFactor(i, r);
      QuotientShrinks(r, i);
      r := r / i;
    }
  }

  lemma {:induction false} QuotientShrinks(r: nat, i: int)
    requires r > 0 && (i == 2 || i == 3 || i == 5) && r % i == 0
    ensures 0 < r / i < r
  {
    if i == 2 { assert r == 2 * (r / 2); } else if i == 3 { assert r == 3 * (r / 3); } else { assert r == 5 * (r / 5); }
  }

  /** ftbaseissmooth: strip the factors 2, 3 and 5 in turn and see whether one is left (a factor 4 is gone after 2). */
  method TestSmooth(n: nat) returns (result: bool)
    requires n > 0
    ensures result <==> IsSmooth(n)
  {
    var r := Strip(n, 2);
    NextFactor(r);
    r := Strip(r, 3);
    NextFactor(r);
    r := Strip(r, 5);
    NextFactor(r);
    result := r == 1;
  }

  /** ftbasefindsmoothrec: improve `best` by products of `seed` with factors from `least` up. */
  function FindRec(n: int, seed: nat, least: int, best: nat): (r: nat)
    requires seed >= 1
    ensures r <= best
    decreases n - seed
  {
    if seed >= n then Min(best, seed)
    else
      var best2 := if least <= 2 then FindRec(n, seed * 2, 2, best) else best;
      var best3 := if least <= 3 then FindRec(n, seed * 3, 3, best2) else best2;
      if least <= 5 then FindRec(n, seed * 5, 5, best3) else best3
  }

  ghost predicate Reaches(n: int, seed: nat, least: int, r: nat) {
    r >= n && exists u: nat :: Product(least, u) && r == seed * u
  }

  /** The result is the old best or a product of the seed that is large enough. */
  lemma {:induction false} FindRecSound(n: int, seed: nat, least: int, best: nat)
    requires seed >= 1
    ensures var r := FindRec(n, seed, least, best); r == best || Reaches(n, seed, least, r)
    decreases n - seed
  {
    if seed >= n {
      var one: nat := 1;
      assert Product(least, one) && seed == seed * one;
    } else {
      var best2 := if least <= 2 then FindRec(n, seed * 2, 2, best) else best;
      var best3 := if least <= 3 then FindRec(n, seed * 3, 3, best2) else best2;
      if least <= 2 {
        FindRecSound(n, seed * 2, 2, best);
        ReachesVia(n, seed, 2, least, best2);
      }
      if least <= 3 {
        FindRecSound(n, seed * 3, 3, best2);
        ReachesVia(n, seed, 3, least, best3);
      }
      if least <= 5 {
        FindRecSound(n, seed * 5, 5, best3);
        ReachesVia(n, seed, 5, least, FindRec(n, seed * 5, 5, best3));
      }
    }
  }

  lemma {:induction false} ProductTimes(i: int, least: int, u: nat, v: nat)
    requires (i == 2 || i == 3 || i == 5) && least <= i && Product(i, u) && v == i * u
    ensures Product(least, v)
  {
    if i == 2 {
      TwosPositive(u);
      assert v / 2 == u && v % 2 == 0;
    } else if i == 3 {
      ThreesOdd(u);
      assert v / 3 == u && v % 3 == 0;
    } else {
      FivesResidues(u);
      assert v / 5 == u && v % 5 == 0;
    }
  }

  lemma {:induction false} ReachesVia(n: int, seed: nat, i: int, least: int, r: nat)
    requires (i == 2 || i == 3 || i == 5) && least <= i
    ensures Reaches(n, seed * i, i, r) ==> Reaches(n, seed, least, r)
  {
    if Reaches(n, seed * i, i, r) {
      var u: nat :| Product(i, u) && r == seed * i * u;
      var v: nat := i * u;
      ProductTimes(i, least, u, v);
      Regroup(seed, i, u);
      assert r == seed * v;
    }
  }

  lemma {:induction false} Regroup(x: int, y: int, z: int)
    ensures x * y * z == x * (y * z)
  {
  }

  /** No product of the seed that is large enough beats the result. */
  lemma {:induction false} FindRecMinimal(n: int, seed: nat, least: int, best: nat, u: nat)
    requires seed >= 1 && least <= 5 && Product(least, u) && seed * u >= n
    ensures FindRec(n, seed, least, best) <= seed * u
    decreases n - seed
  {
    if least <= 2 { TwosPositive(u); } else if least <= 3 { ThreesOdd(u); } else { FivesResidues(u); }
    if seed >= n {
      assert seed * (u - 1) >= 0;
    } else {
      assert u != 1;
      var best2 := if least <= 2 then FindRec(n, seed * 2, 2, best) else best;
      var best3 := if least <= 3 then FindRec(n, seed * 3, 3, best2) else best2;
      if least <= 2 && !Threes(u) {
        FactorOut(seed, 2, u);
        FindRecMinimal(n, seed * 2, 2, best, u / 2);
      } else if least <= 3 && !Fives(u) {
        FactorOut(seed, 3, u);
        FindRecMinimal(n, seed * 3, 3, best2, u / 3);
      } else {
        FactorOut(seed, 5, u);
        FindRecMinimal(n, seed * 5, 5, best3, u / 5);
      }
    }
  }

  lemma {:induction false} FactorOut(seed: nat, i: int, u: nat)
    requires i > 0 && u % i == 0
    ensures seed * i * (u / i) == seed * u
  {
    assert i * (u / i) == u;
    assert seed * i * (u / i) == seed * (i * (u / i));
  }

  predicate PowerOfTwo(p: nat) {
    p == 1 || (p > 0 && p % 2 == 0 && PowerOfTwo(p / 2))
  }

  lemma {:induction false} PowerIsSmooth(p: nat)
    requires PowerOfTwo(p)
    ensures IsSmooth(p)
  {
    if p > 1 { PowerIsSmooth(p / 2); }
  }

  /** `p` is the least smooth number, and the least even one, that reaches n. */
  ghost predicate LeastSmooth(n: int, p: nat) {
    IsSmooth(p) && n <= p && forall u: nat :: IsSmooth(u) && u >= n ==> p <= u
  }

  ghost predicate LeastEvenSmooth(n: int, p: nat) {
    IsSmooth(p) && p % 2 == 0 && n <= p && forall u: nat :: IsSmooth(u) && u % 2 == 0 && u >= n ==> p <= u
  }

  /** The search starts from the first power of two from 2 on that reaches n. */
  method FirstDouble(n: int) returns (best: nat)
    ensures best >= n && best % 2 == 0 && IsSmooth(best)
  {
    best := 2;
    assert PowerOfTwo(2) by { assert PowerOfTwo(1); }
    while best < n
      invariant best > 0 && best % 2 == 0 && PowerOfTwo(best)
      decreases n - best
    {
      assert (2 * best) / 2 == best;
      best := 2 * best;
    }
    PowerIsSmooth(best);
  }

  /** ftbasefindsmooth: the smallest smooth number that is at least n. */
  method FindSmooth(n: int) returns (best: nat)
    ensures LeastSmooth(n, best)
  {
    best := FirstDouble(n);
    FindRecSound(n, 1, 2, best);
    ghost var start := best;
    best := FindRec(n, 1, 2, best);
    forall u: nat | IsSmooth(u) && u >= n ensures best <= u { FindRecMinimal(n, 1, 2, start, u); }
  }

  /** ftbasefindsmootheven: the same search from the seed 2 gives the smallest even smooth number that is at least n. */
  method FindSmoothEven(n: int) returns (best: nat)
    ensures LeastEvenSmooth(n, best)
  {
    best := FirstDouble(n);
    FindRecSound(n, 2, 2, best);
    ghost var start := best;
    best := FindRec(n, 2, 2, best);
    TwiceReached(n, best);
    forall u: nat | IsSmooth(u) && u % 2 == 0 && u >= n ensures best <= u { EvenMinimal(n, start, u); }
  }

  /** What the search from 2 finds anew is even and smooth. */
  lemma {:induction false} TwiceReached(n: int, best: nat)
    ensures Reaches(n, 2, 2, best) ==> n <= best && best % 2 == 0 && IsSmooth(best)
  {
    if Reaches(n, 2, 2, best) {
      var u: nat :| Product(2, u) && best == 2 * u;
      ProductTimes(2, 2, u, best);
    }
  }

  lemma {:induction false} EvenMinimal(n: int, start: nat, u: nat)
    requires IsSmooth(u) && u % 2 == 0 && u >= n
    ensures FindRec(n, 2, 2, start) <= u
  {
    TwosPositive(u);
    StripFactor(2, u);
    FindRecMinimal(n, 2, 2, start, u / 2);
  }

  // ---------------------------------------------------------------- what smooth means

  function Power(b: nat, e: nat): nat {
    if e == 0 then 1 else b * Power(b, e - 1)
  }

  /** A product of twos, threes and fives. */
  ghost predicate IsProduct(u: nat) {
    exists i: nat, j: nat, k: nat :: u == ProductOf(i, j, k)
  }

  function ProductOf(i: nat, j: nat, k: nat): nat { Power(2, i) * (Power(3, j) * Power(5, k)) }

  lemma {:induction false} FivesArePowers(u: nat)
    ensures Fives(u) ==> exists k: nat :: u == Power(5, k)
  {
    if Fives(u) {
      if u == 1 {
        assert u == Power(5, 0);
      } else {
        FivesArePowers(u / 5);
        var k: nat :| u / 5 == Power(5, k);
        assert u == 5 * (u / 5) == Power(5, k + 1);
      }
    }
  }

  lemma {:induction false} ThreesArePowers(u: nat)
    ensures Threes(u) ==> exists j: nat, k: nat :: u == Power(3, j) * Power(5, k)
  {
    if Threes(u) {
      if Fives(u) {
        FivesArePowers(u);
        var k: nat :| u == Power(5, k);
        assert u == Power(3, 0) * Power(5, k);
      } else {
        ThreesArePowers(u / 3);
        var j: nat, k: nat :| u / 3 == Power(3, j) * Power(5, k);
        Regroup(3, Power(3, j), Power(5, k));
        assert u == 3 * (u / 3) == Power(3, j + 1) * Power(5, k);
      }
    }
  }

  lemma {:induction false} SmoothIsProduct(u: nat)
    ensures IsSmooth(u) ==> IsProduct(u)
  {
    if Twos(u) {
      if Threes(u) {
        ThreesArePowers(u);
        var j: nat, k: nat :| u == Power(3, j) * Power(5, k);
        assert u == ProductOf(0, j, k);
      } else {
        SmoothIsProduct(u / 2);
        var i: nat, j: nat, k: nat :| u / 2 == ProductOf(i, j, k);
        Regroup(2, Power(2, i), Power(3, j) * Power(5, k));
        assert u == 2 * (u / 2) == ProductOf(i + 1, j, k);
      }
    }
  }

  lemma {:induction false} PowersAreFives(k: nat, u: nat)
    requires u == Power(5, k)
    ensures Product(5, u)
  {
    if k > 0 {
      PowersAreFives(k - 1, Power(5, k - 1));
      ProductTimes(5, 5, Power(5, k - 1), u);
    }
  }

  /** Multiplying by powers of 2 or 3 keeps a product of factors from that one up. */
  lemma {:induction false} PowersMultiply(b: nat, e: nat, p: nat, u: nat, v: nat)
    requires (b == 2 || b == 3) && p == Power(b, e) && Product(b, u) && v == p * u
    ensures Product(b, v)
  {
    if e > 0 {
      var q := Power(b, e - 1);
      Regroup(b, q, u);
      PowersMultiply(b, e - 1, q, u, q * u);
      ProductTimes(b, b, q * u, v);
    }
  }

  lemma {:induction false} PowersAreSmooth(i: nat, j: nat, k: nat)
    ensures IsSmooth(ProductOf(i, j, k))
  {
    var u, v := Power(5, k), Power(3, j) * Power(5, k);
    PowersAreFives(k, u);
    PowersMultiply(3, j, Power(3, j), u, v);
    PowersMultiply(2, i, Power(2, i), v, ProductOf(i, j, k));
  }

  /** The smooth numbers are the products of powers of 2, 3 and 5. */
  lemma {:induction false} SmoothExactlyProducts(u: nat)
    ensures IsSmooth(u) <==> IsProduct(u)
  {
    SmoothIsProduct(u);
    if IsProduct(u) {
      var i: nat, j: nat, k: nat :| u == ProductOf(i, j, k);
      PowersAreSmooth(i, j, k);
    }
  }
}
