/** What convolution and correlation mean: impulses, sums of responses, delays and energy. */
module ConvMeaning {
  import opened ConvSpec
  import opened Dft

  // ---------------------------------------------------------------- convolution

  /** A single unit at position t delays the signal by t. */
  lemma {:induction false} ImpulseDelays(a: seq<Complex>, t: nat, k: int)
    ensures LinAt(a, Zeros(t) + [ONE], k) == At(a, k - t)
    ensures CircAt(a, Zeros(t) + [ONE], k) == Around(a, k - t)
  {
    AfterZeros(Behind(a, k), t, ONE);
    AfterZeros(BehindAround(a, k), t, ONE);
    MulOne(At(a, k - t));
    MulOne(Around(a, k - t));
  }

  lemma {:induction false} AfterZeros(f: int -> Complex, t: nat, v: Complex)
    ensures Dot(f, Zeros(t) + [v]) == Mul(f(t), v)
  {
    var b := Zeros(t) + [v];
    assert b[..|b| - 1] == Zeros(t);
    DotSnoc(f, b);
    DotZeros(f, t);
    AddZero(Mul(f(t), v));
  }

  /** Responses that add up give results that add up, and a scaled response gives a scaled result: with
      `ImpulseDelays` this says what the convolution of any two signals is. */
  lemma {:induction false} ResponsesAdd(a: seq<Complex>, b: seq<Complex>, c: seq<Complex>, d: seq<Complex>, k: int)
    requires |b| == |c| == |d| && forall j :: 0 <= j < |b| ==> d[j] == Add(b[j], c[j])
    ensures LinAt(a, d, k) == Add(LinAt(a, b, k), LinAt(a, c, k))
    ensures CircAt(a, d, k) == Add(CircAt(a, b, k), CircAt(a, c, k))
  {
    DotTermwise(Behind(a, k), b, c, d);
    DotTermwise(BehindAround(a, k), b, c, d);
  }

  lemma {:induction false} ResponseScales(a: seq<Complex>, b: seq<Complex>, d: seq<Complex>, v: Complex, k: int)
    requires |b| == |d| && forall j :: 0 <= j < |b| ==> d[j] == Mul(b[j], v)
    ensures LinAt(a, d, k) == Mul(LinAt(a, b, k), v) && CircAt(a, d, k) == Mul(CircAt(a, b, k), v)
  {
    DotDataScaled(Behind(a, k), b, d, v);
    DotDataScaled(BehindAround(a, k), b, d, v);
  }

  // ---------------------------------------------------------------- correlation

  /** The sum of the squared magnitudes. */
  function Energy(a: seq<Complex>): (e: real)
    ensures e >= 0.0
  {
    if a == [] then 0.0
    else
      SquareNonNegative(a[0].re);
      SquareNonNegative(a[0].im);
      a[0].re * a[0].re + a[0].im * a[0].im + Energy(a[1..])
  }

  lemma {:induction false} SquareNonNegative(v: real)
    ensures v * v >= 0.0
  {
  }

  lemma {:induction false} EnergySnoc(a: seq<Complex>, v: Complex)
    ensures Energy(a + [v]) == Energy(a) + (v.re * v.re + v.im * v.im)
  {
    if a == [] {
      assert [v][1..] == [];
    } else {
      assert (a + [v])[1..] == a[1..] + [v];
      EnergySnoc(a[1..], v);
    }
  }

  lemma {:induction false} TimesConjugate(v: Complex)
    ensures Mul(v, Conj(v)) == Complex(v.re * v.re + v.im * v.im, 0.0)
  {
  }

  /** The kernel runs over the pattern itself. */
  lemma {:induction false} DotIsEnergy(f: int -> Complex, p: seq<Complex>, c: seq<Complex>)
    requires |c| == |p| && forall j :: 0 <= j < |p| ==> f(j) == p[j] && c[j] == Conj(p[j])
    ensures Dot(f, c) == Complex(Energy(p), 0.0)
  {
    if p != [] {
      var n := |p| - 1;
      DotIsEnergy(f, p[..n], c[..n]);
      DotSnoc(f, c);
      TimesConjugate(p[n]);
      EnergySnoc(p[..n], p[n]);
      assert p == p[..n] + [p[n]];
    }
  }

  /** A pattern that occurs in a signal after t samples correlates with it at lag t by its energy. */
  lemma {:induction false} OccurrenceFound(front: seq<Complex>, pattern: seq<Complex>, rest: seq<Complex>)
    ensures CorrAt(front + pattern + rest, pattern, |front|) == Complex(Energy(pattern), 0.0)
    ensures pattern != [] ==>
      CircCorrAt(front + pattern + rest, pattern, |front|) == Complex(Energy(pattern), 0.0)
  {
    var s, c, t := front + pattern + rest, Conjugate(pattern), |front|;
    forall j | 0 <= j < |pattern| ensures Ahead(s, t)(j) == pattern[j] && s[t + j] == pattern[j] {
      assert Ahead(s, t)(j) == At(s, t + j);
    }
    DotIsEnergy(Ahead(s, t), pattern, c);
    if pattern != [] {
      forall j | 0 <= j < |pattern| ensures AheadAround(s, t)(j) == pattern[j] {
        ModBelow(t + j, |s|);
        assert AheadAround(s, t)(j) == Around(s, t + j);
      }
      DotIsEnergy(AheadAround(s, t), pattern, c);
    }
  }

  /** Negative lags: a pattern whose tail begins the signal correlates there by what it shares with it. */
  lemma {:induction false} NegativeLag(signal: seq<Complex>, pattern: seq<Complex>, lag: int)
    requires -|pattern| < lag < 0
    ensures CorrAt(signal, pattern, lag) == CorrAt(signal, pattern[-lag..], 0)
  {
    var t := -lag;
    var front, tail := pattern[..t], pattern[t..];
    assert Conjugate(pattern) == Conjugate(front) + Conjugate(tail);
    forall j | 0 <= j < |tail| ensures Ahead(signal, 0)(j) == Ahead(signal, lag)(t + j) {
      assert Ahead(signal, 0)(j) == At(signal, j) && Ahead(signal, lag)(t + j) == At(signal, lag + (t + j));
    }
    DotConcat(Ahead(signal, lag), Ahead(signal, 0), Conjugate(front), Conjugate(tail));
    forall j | 0 <= j < t ensures Ahead(signal, lag)(j) == ZERO {
      assert Ahead(signal, lag)(j) == At(signal, lag + j);
    }
    DotZero(Ahead(signal, lag), Conjugate(front));
    AddZero(Dot(Ahead(signal, 0), Conjugate(tail)));
  }
}
