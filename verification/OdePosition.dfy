/** How the solver moves along the grid: truncation, rejection, acceptance, and why runs end. */
module OdePosition {
  import opened OdeTableau

  ghost predicate Ascending(xg: seq<real>) {
    forall a, b :: 0 <= a < b < |xg| ==> xg[a] < xg[b]
  }

  /** On the way to grid point i: at xc, about to step by h; `grid` says that the step ends on the grid point. */
  datatype Position = Position(i: nat, xc: real, h: real, grid: bool)

  /** Between grid points i-1 and i, short of i, with a positive step. */
  ghost predicate InCell(xg: seq<real>, p: Position) {
    1 <= p.i < |xg| && xg[p.i - 1] <= p.xc < xg[p.i] && p.h > 0.0
  }

  /** Moreover the step stays in the cell and reaches its end exactly when it is marked so. */
  ghost predicate OnStep(xg: seq<real>, p: Position) {
    InCell(xg, p) && p.xc + p.h <= xg[p.i] && (p.grid <==> p.xc + p.h == xg[p.i])
  }

  /** Cut the step at the grid point if it would pass it. */
  function Truncated(xg: seq<real>, p: Position): Position
    requires p.i < |xg|
  {
    if p.xc + p.h >= xg[p.i] then p.(h := xg[p.i] - p.xc, grid := true) else p.(grid := false)
  }

  lemma {:induction false} TruncatedIsOnStep(xg: seq<real>, p: Position)
    requires InCell(xg, p)
    ensures OnStep(xg, Truncated(xg, p)) && Truncated(xg, p).h <= p.h
    ensures Truncated(xg, p).i == p.i && Truncated(xg, p).xc == p.xc
    ensures Truncated(xg, p).h == p.h || Truncated(xg, p).xc + Truncated(xg, p).h == xg[p.i]
  {
  }

  /** A finished step: the same place with a new length if the error is too large, else the end of the step. */
  function Finished(p: Position, eps: real, err: real, scaled: real): Position {
    var h2 := NextStep(p.h, eps, err, scaled);
    if err > eps then p.(h := h2) else Position(if p.grid then p.i + 1 else p.i, p.xc + p.h, h2, p.grid)
  }

  /** An error estimate and a scaled step as the controller may see them. */
  predicate Legal(h: real, eps: real, err: real, scaled: real) {
    eps > 0.0 && err >= 0.0 && (err > 0.0 ==> ScaledStep(h, eps, err, scaled))
  }

  /** Rejected steps stay and shrink; accepted steps land inside the cell or exactly on its grid point; new lengths are
      within the bounds. */
  lemma {:induction false} FinishedStep(xg: seq<real>, p: Position, eps: real, err: real, scaled: real)
    requires Ascending(xg) && OnStep(xg, p) && Legal(p.h, eps, err, scaled)
    ensures var q := Finished(p, eps, err, scaled);
      && p.h / 10.0 <= q.h <= 3.0 * p.h && q.h > 0.0
      && (err > eps ==> q.i == p.i && q.xc == p.xc && q.h < p.h)
      && (err <= eps ==> q.xc == p.xc + p.h && q.h >= p.h && q.i == if p.grid then p.i + 1 else p.i)
      && (err <= eps && p.grid ==> q.xc == xg[p.i])
      && (q.i < |xg| ==> InCell(xg, q))
  {
    StepBounds(p.h, eps, err, scaled);
  }

  /** Finish a step and, unless that was the last one, prepare the next. */
  function Advanced(xg: seq<real>, p: Position, eps: real, err: real, scaled: real): Position {
    var q := Finished(p, eps, err, scaled);
    if q.i < |xg| then Truncated(xg, q) else q
  }

  lemma {:induction false} AdvancedStep(xg: seq<real>, p: Position, eps: real, err: real, scaled: real)
    requires Ascending(xg) && OnStep(xg, p) && Legal(p.h, eps, err, scaled)
    ensures var q := Advanced(xg, p, eps, err, scaled);
      && (q.i < |xg| ==> OnStep(xg, q))
      && (q.i == |xg| ==> q.xc == xg[|xg| - 1])
      && p.xc <= q.xc && p.i <= q.i <= |xg|
  {
    FinishedStep(xg, p, eps, err, scaled);
    var q := Finished(p, eps, err, scaled);
    if q.i < |xg| { TruncatedIsOnStep(xg, q); }
  }

  /** The outcome of one attempted step. */
  datatype Attempt = Attempt(err: real, scaled: real)

  /** A run from p through a sequence of attempts. */
  function Run(xg: seq<real>, p: Position, eps: real, attempts: seq<Attempt>): Position
    decreases attempts
  {
    if attempts == [] || p.i >= |xg| then p
    else Run(xg, Advanced(xg, p, eps, attempts[0].err, attempts[0].scaled), eps, attempts[1..])
  }

  ghost predicate LegalRun(xg: seq<real>, p: Position, eps: real, attempts: seq<Attempt>)
    decreases attempts
  {
    attempts == [] || p.i >= |xg|
    || (Legal(p.h, eps, attempts[0].err, attempts[0].scaled)
        && LegalRun(xg, Advanced(xg, p, eps, attempts[0].err, attempts[0].scaled), eps, attempts[1..]))
  }

  /** Throughout any run, whatever the errors turn out to be, the position is in its cell with a positive step that does
      not pass the grid point, until the last grid point is hit exactly. */
  lemma {:induction false} RunsStayOnGrid(xg: seq<real>, p: Position, eps: real, attempts: seq<Attempt>)
    requires Ascending(xg) && OnStep(xg, p) && LegalRun(xg, p, eps, attempts)
    ensures var q := Run(xg, p, eps, attempts);
      && (q.i < |xg| ==> OnStep(xg, q))
      && (q.i >= |xg| ==> q.i == |xg| && q.xc == xg[|xg| - 1])
      && p.xc <= q.xc
    decreases attempts
  {
    if attempts != [] {
      var a := attempts[0];
      var q := Advanced(xg, p, eps, a.err, a.scaled);
      AdvancedStep(xg, p, eps, a.err, a.scaled);
      if q.i < |xg| { RunsStayOnGrid(xg, q, eps, attempts[1..]); }
    }
  }

  /** How many more steps fit before the grid point, counting a marked last step as none. */
  function StepsLeft(xg: seq<real>, p: Position): int
    requires p.i < |xg|
  {
    if p.grid || p.h <= 0.0 then 0 else ((xg[p.i] - p.xc) / p.h).Floor
  }

  lemma {:induction false} StepsLeftIsNat(xg: seq<real>, p: Position)
    requires OnStep(xg, p)
    ensures StepsLeft(xg, p) >= 0 && (!p.grid ==> StepsLeft(xg, p) >= 1)
  {
    if !p.grid {
      var q := (xg[p.i] - p.xc) / p.h;
      QuotientBound(q, p.h, xg[p.i] - p.xc, 1.0);
    }
  }

  /** A step with no error reaches the next grid point or leaves fewer steps: runs without error end. */
  lemma {:induction false} ErrorFreeProgress(xg: seq<real>, p: Position, eps: real, scaled: real)
    requires Ascending(xg) && OnStep(xg, p) && eps > 0.0
    ensures var q := Advanced(xg, p, eps, 0.0, scaled);
      && q.xc == p.xc + p.h && p.i <= q.i <= |xg|
      && (q.i == p.i ==> OnStep(xg, q) && 0 <= StepsLeft(xg, q) < StepsLeft(xg, p))
  {
    AdvancedStep(xg, p, eps, 0.0, scaled);
    StepsLeftIsNat(xg, p);
    var q := Advanced(xg, p, eps, 0.0, scaled);
    if q.i == p.i {
      StepsLeftIsNat(xg, q);
      if !q.grid { Thirds(xg[p.i] - p.xc, p.h); }
    }
  }

  lemma {:induction false} Thirds(d: real, h: real)
    requires h > 0.0 && d > h
    ensures ((d - h) / (3.0 * h)).Floor < (d / h).Floor
  {
    var q, r := d / h, (d - h) / (3.0 * h);
    assert q * h == d && r * (3.0 * h) == d - h;
    Regroup(q, r, h);
    SameFactor(3.0 * r, q - 1.0, h);
    QuotientBound(q, h, d, 1.0);
  }

  lemma {:induction false} Regroup(q: real, r: real, h: real)
    ensures r * (3.0 * h) == (3.0 * r) * h && (q - 1.0) * h == q * h - h
  {
  }

  lemma {:induction false} SameFactor(a: real, b: real, h: real)
    requires h > 0.0 && a * h == b * h
    ensures a == b
  {
    assert a > b ==> (a - b) * h > 0.0;
    assert a < b ==> (b - a) * h > 0.0;
  }
}
