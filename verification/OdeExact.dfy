/** Runs whose right-hand side both results of a step integrate exactly. */
module OdeExact {
  import opened OdeTableau
  import opened OdePosition
  import opened OdeSolver

  /** The exact solution through y0 at the first grid point, in scaled time t. */
  function Exact(primitive: real -> real, y0: real, pb: Problem, t: real): real
    requires |pb.xg| >= 1
  {
    y0 + primitive(Unscaled(pb.xscale, t)) - primitive(Unscaled(pb.xscale, pb.xg[0]))
  }

  ghost predicate AllIntegrate(fs: seq<real -> real>, primitives: seq<real -> real>) {
    |fs| == |primitives| && forall q :: 0 <= q < |fs| ==> Integrates(fs[q], primitives[q])
  }

  /** `y` is the exact solution at time t. */
  ghost predicate IsSolution(pb: Problem, primitives: seq<real -> real>, y0: Vec, t: real, y: Vec) {
    && |y| == |y0| == |primitives| && |pb.xg| >= 1
    && forall q :: 0 <= q < |y| ==> y[q] == Exact(primitives[q], y0[q], pb, t)
  }

  ghost predicate Tabulated(pb: Problem, primitives: seq<real -> real>, y0: Vec, rows: seq<Vec>) {
    |rows| <= |pb.xg| && forall t :: 0 <= t < |rows| ==> IsSolution(pb, primitives, y0, pb.xg[t], rows[t])
  }

  /** The stage table holds the slopes of the current step. */
  ghost predicate SlopesKnown(pb: Problem, c: Progress, fs: seq<real -> real>) {
    && Shaped(pb.n, c) && |fs| == pb.n
    && forall j, q :: 0 <= j < c.k && 0 <= q < pb.n ==> c.rkk[j][q] == Slope(fs[q], pb.xscale, c.pos.xc, c.pos.h, j)
  }

  /** The caller answered with the right-hand side at the requested time. */
  ghost predicate Answers(fs: seq<real -> real>, x: real, dy: Vec) {
    |dy| == |fs| && forall q :: 0 <= q < |fs| ==> dy[q] == fs[q](x)
  }

  /** On course: the solution so far, the table and the stages are exact. */
  ghost predicate OnCourse(pb: Problem, c: Progress, fs: seq<real -> real>, primitives: seq<real -> real>, y0: Vec) {
    && SlopesKnown(pb, c, fs) && AllIntegrate(fs, primitives)
    && IsSolution(pb, primitives, y0, c.pos.xc, c.yc) && Tabulated(pb, primitives, y0, c.ytbl)
  }

  lemma {:induction false} AbsorbedSlopes(pb: Problem, c: Progress, dy: Vec, fs: seq<real -> real>)
    requires SlopesKnown(pb, c, fs) && c.k < 6 && Answers(fs, StageTime(pb.xscale, c.pos.xc, c.pos.h, c.k), dy)
    ensures SlopesKnown(pb, Absorbed(pb, c, dy), fs)
  {
    var a := Absorbed(pb, c, dy);
    forall j, q | 0 <= j < a.k && 0 <= q < pb.n ensures a.rkk[j][q] == Slope(fs[q], pb.xscale, c.pos.xc, c.pos.h, j) {
      if j == c.k {
        NewSlope(pb, c, dy, fs, q);
      } else {
        assert a.rkk[j] == c.rkk[j];
      }
    }
  }

  lemma {:induction false} NewSlope(pb: Problem, c: Progress, dy: Vec, fs: seq<real -> real>, q: int)
    requires Shaped(pb.n, c) && |fs| == pb.n && c.k < 6 && 0 <= q < pb.n
    requires Answers(fs, StageTime(pb.xscale, c.pos.xc, c.pos.h, c.k), dy)
    ensures Absorbed(pb, c, dy).rkk[c.k][q] == Slope(fs[q], pb.xscale, c.pos.xc, c.pos.h, c.k)
  {
    AbsorbedAt(pb, c, dy, q);
    SlopeIs(fs[q], pb.xscale, c.pos.xc, c.pos.h, c.k, dy[q]);
  }

  lemma {:induction false} SlopeIs(f: real -> real, s: real, xc: real, h: real, k: nat, d: real)
    requires k < 6 && d == f(StageTime(s, xc, h, k))
    ensures Slope(f, s, xc, h, k) == Stride(h, s) * d
  {
  }

  lemma {:induction false} AbsorbedAt(pb: Problem, c: Progress, dy: Vec, q: int)
    requires Shaped(pb.n, c) && c.k < 6 && |dy| == pb.n && 0 <= q < pb.n
    ensures Absorbed(pb, c, dy).rkk[c.k][q] == Stride(c.pos.h, pb.xscale) * dy[q]
  {
    var row := Scaled(dy, Stride(c.pos.h, pb.xscale));
    assert row[q] == Stride(c.pos.h, pb.xscale) * dy[q];
  }

  lemma {:induction false} CombinedIsSum(pb: Problem, c: Progress, fs: seq<real -> real>, rule: Rule, t: nat, q: int)
    requires SlopesKnown(pb, c, fs) && t <= c.k && 0 <= q < pb.n
    ensures Combined(c.yc, RowOf(rule), c.rkk, t)[q] == c.yc[q] + Sum(rule, fs[q], pb.xscale, c.pos.xc, c.pos.h, t)
  {
    if t > 0 {
      CombinedIsSum(pb, c, fs, rule, t - 1, q);
      CombinedAt(c.yc, rule, c.rkk, t, q);
      SumNext(rule, fs[q], pb.xscale, c.pos.xc, c.pos.h, t, c.rkk[t - 1][q]);
    }
  }

  /** The tableau row with a result's weights. */
  function RowOf(rule: Rule): nat { if rule == Result then 6 else 7 }

  lemma {:induction false} CombinedAt(base: Vec, rule: Rule, rows: seq<Vec>, t: nat, q: int)
    requires Rows(rows, |base|) && 0 < t <= |rows| == 6 && 0 <= q < |base|
    ensures Combined(base, RowOf(rule), rows, t)[q]
      == Combined(base, RowOf(rule), rows, t - 1)[q] + Weight(rule, t - 1) * rows[t - 1][q]
  {
  }

  lemma {:induction false} SumNext(rule: Rule, f: real -> real, s: real, xc: real, h: real, t: nat, r: real)
    requires 0 < t <= 6 && r == Slope(f, s, xc, h, t - 1)
    ensures Sum(rule, f, s, xc, h, t) == Sum(rule, f, s, xc, h, t - 1) + Weight(rule, t - 1) * r
  {
  }

  /** After six stages both results are the exact solution at the end of the step. */
  lemma {:induction false} ResultsExact(pb: Problem, c: Progress, fs: seq<real -> real>, primitives: seq<real -> real>,
                                        y0: Vec)
    requires Sound(pb, c) && c.k == 6 && OnCourse(pb, c, fs, primitives, y0)
    ensures IsSolution(pb, primitives, y0, c.pos.xc + c.pos.h, c.yn) && c.yns == c.yn
  {
    forall q | 0 <= q < pb.n
      ensures c.yn[q] == Exact(primitives[q], y0[q], pb, c.pos.xc + c.pos.h) && c.yns[q] == c.yn[q]
    {
      ResultAt(pb, c, fs, primitives, y0, q);
    }
  }

  lemma {:induction false} ResultAt(pb: Problem, c: Progress, fs: seq<real -> real>, primitives: seq<real -> real>,
                                    y0: Vec, q: int)
    requires Sound(pb, c) && c.k == 6 && OnCourse(pb, c, fs, primitives, y0) && 0 <= q < pb.n
    ensures c.yn[q] == Exact(primitives[q], y0[q], pb, c.pos.xc + c.pos.h) && c.yns[q] == c.yn[q]
  {
    CombinedIsSum(pb, c, fs, Result, 6, q);
    CombinedIsSum(pb, c, fs, Embedded, 6, q);
    ExactAfter(pb, fs[q], primitives[q], y0[q], c.pos.xc, c.pos.h, c.yc[q]);
  }

  /** An exact step from an exact value ends in an exact value. */
  lemma {:induction false} ExactAfter(pb: Problem, f: real -> real, primitive: real -> real, y0: real, xc: real,
                                      h: real, y: real)
    requires |pb.xg| >= 1 && (pb.xscale == 1.0 || pb.xscale == -1.0) && Integrates(f, primitive)
      && y == Exact(primitive, y0, pb, xc)
    ensures y + Sum(Result, f, pb.xscale, xc, h, 6) == Exact(primitive, y0, pb, xc + h)
    ensures Sum(Embedded, f, pb.xscale, xc, h, 6) == Sum(Result, f, pb.xscale, xc, h, 6)
  {
    StepAt(f, primitive, pb.xscale, xc, h);
  }

  lemma {:induction false} StepAt(f: real -> real, primitive: real -> real, s: real, xc: real, h: real)
    requires Integrates(f, primitive) && (s == 1.0 || s == -1.0)
    ensures Sum(Result, f, s, xc, h, 6) == primitive(Unscaled(s, xc + h)) - primitive(Unscaled(s, xc))
    ensures Sum(Embedded, f, s, xc, h, 6) == Sum(Result, f, s, xc, h, 6)
  {
    assert Sum(Embedded, f, s, xc, h, 6) == primitive(Unscaled(s, xc + h)) - primitive(Unscaled(s, xc));
  }

  /** A step on course is accepted, stays on course, and makes progress. */
  lemma {:induction false} SteppedExact(pb: Problem, a: Progress, root: real -> real, fs: seq<real -> real>,
                                        primitives: seq<real -> real>, y0: Vec)
    requires Sound(pb, a) && a.k == 6 && OnCourse(pb, a, fs, primitives, y0) && FifthRoots(root)
    ensures ErrorOf(pb, a) == 0.0
    ensures var r := Stepped(pb, a, root);
      && r.pos == Advanced(pb.xg, a.pos, pb.eps, 0.0, 0.0)
      && Tabulated(pb, primitives, y0, r.ytbl)
      && (r.pos.i < |pb.xg| ==> Sound(pb, r) && r.k == 0 && OnCourse(pb, r, fs, primitives, y0))
      && (r.pos.i >= |pb.xg| ==> Complete(pb, r))
  {
    ResultsExact(pb, a, fs, primitives, y0);
    NoError(pb.relative, a.yn, a.escale, pb.n);
    SteppedSound(pb, a, root);
    AcceptedExact(pb, a, primitives, y0);
  }

  /** An accepted step whose result is exact keeps the solution and the table exact. */
  lemma {:induction false} AcceptedExact(pb: Problem, a: Progress, primitives: seq<real -> real>, y0: Vec)
    requires Sound(pb, a) && IsSolution(pb, primitives, y0, a.pos.xc + a.pos.h, a.yn)
      && Tabulated(pb, primitives, y0, a.ytbl)
    ensures var d := Decided(pb, a, 0.0, 0.0);
      IsSolution(pb, primitives, y0, d.pos.xc, d.yc) && Tabulated(pb, primitives, y0, d.ytbl)
  {
  }

  lemma {:induction false} InitialOnCourse(pb: Problem, y0: Vec, fs: seq<real -> real>, primitives: seq<real -> real>)
    requires Proper(pb) && |y0| == |fs| == pb.n && AllIntegrate(fs, primitives)
    ensures OnCourse(pb, Initial(pb, y0), fs, primitives, y0)
  {
    InitialSound(pb, y0);
    assert IsSolution(pb, primitives, y0, pb.xg[0], y0);
  }

  /** Answered with the right-hand side, a run on course rejects nothing, stays on course, and gets closer to its
      end. */
  lemma {:induction false} ResumedExact(pb: Problem, c: Progress, dy: Vec, root: real -> real, fs: seq<real -> real>,
                                        primitives: seq<real -> real>, y0: Vec)
    requires Sound(pb, c) && c.k < 6 && OnCourse(pb, c, fs, primitives, y0) && FifthRoots(root)
    requires Answers(fs, StageTime(pb.xscale, c.pos.xc, c.pos.h, c.k), dy)
    ensures c.k == 5 ==> ErrorOf(pb, Absorbed(pb, c, dy)) == 0.0
    ensures var r := Resumed(pb, c, dy, root);
      && Tabulated(pb, primitives, y0, r.ytbl)
      && (r.pos.i < |pb.xg| ==> OnCourse(pb, r, fs, primitives, y0))
      && (c.k < 5 ==> r.pos == c.pos && r.k == c.k + 1)
      && (c.k == 5 ==>
            r.pos.i > c.pos.i || (r.pos.i == c.pos.i && 0 <= StepsLeft(pb.xg, r.pos) < StepsLeft(pb.xg, c.pos)))
  {
    AbsorbedSlopes(pb, c, dy, fs);
    AbsorbedSound(pb, c, dy);
    var a := Absorbed(pb, c, dy);
    if c.k == 5 {
      SteppedExact(pb, a, root, fs, primitives, y0);
      ErrorFreeProgress(pb.xg, c.pos, pb.eps, 0.0);
    }
  }

  /** The caller's answer. */
  method Answer(fs: seq<real -> real>, x: real) returns (dy: Vec)
    ensures Answers(fs, x, dy)
  {
    dy := seq(|fs|, q requires 0 <= q < |fs| => fs[q](x));
  }

  /** A run's state is one turn closer to the end. */
  ghost predicate Closer(pb: Problem, c: Progress, r: Progress)
    requires c.pos.i < |pb.xg| && r.pos.i < |pb.xg|
  {
    || (r.pos == c.pos && r.k == c.k + 1)
    || r.pos.i > c.pos.i
    || (r.pos.i == c.pos.i && 0 <= StepsLeft(pb.xg, r.pos) < StepsLeft(pb.xg, c.pos))
  }

  /** One turn: the caller answers and the solver goes on. */
  method Turn(solver: Solver, root: real -> real, fs: seq<real -> real>, ghost primitives: seq<real -> real>,
              ghost y0: Vec)
    returns (more: bool)
    requires FifthRoots(root) && solver.Waiting() && OnCourse(solver.problem, solver.progress, fs, primitives, y0)
    modifies solver
    ensures solver.problem == old(solver.problem) && solver.rejected == old(solver.rejected)
    ensures more ==> solver.Waiting() && OnCourse(solver.problem, solver.progress, fs, primitives, y0)
    ensures more ==> Closer(solver.problem, old(solver.progress), solver.progress)
    ensures !more ==> solver.termination == 1 && Complete(solver.problem, solver.progress)
    ensures !more ==> Tabulated(solver.problem, primitives, y0, solver.progress.ytbl)
  {
    solver.dy := Answer(fs, solver.x);
    ResumedExact(solver.problem, solver.progress, solver.dy, root, fs, primitives, y0);
    more := solver.Iteration(root);
  }

  /** A whole run against a right-hand side that steps integrate exactly: it ends, rejects nothing, and tabulates the
      exact solution. */
  method Drive(solver: Solver, root: real -> real, fs: seq<real -> real>, ghost primitives: seq<real -> real>,
               ghost y0: Vec)
    requires FifthRoots(root) && AllIntegrate(fs, primitives)
    requires solver.stage == -1 && solver.termination == 0 && Proper(solver.problem)
    requires solver.progress.yc == y0 && |y0| == |fs| == solver.problem.n && solver.rejected == 0
    modifies solver
    ensures solver.problem == old(solver.problem) && solver.termination == 1 && solver.rejected == 0
    ensures Complete(solver.problem, solver.progress) && Tabulated(solver.problem, primitives, y0, solver.progress.ytbl)
  {
    ghost var pb := solver.problem;
    InitialOnCourse(pb, y0, fs, primitives);
    var more := solver.Iteration(root);
    ghost var grid, steps, stages := |pb.xg| - solver.progress.pos.i, StepsLeft(pb.xg, solver.progress.pos),
      6 - solver.progress.k;
    StepsLeftIsNat(pb.xg, solver.progress.pos);
    while more
      invariant solver.problem == pb && solver.rejected == 0
      invariant more ==> solver.Waiting() && OnCourse(pb, solver.progress, fs, primitives, y0)
      invariant more ==> grid == |pb.xg| - solver.progress.pos.i && steps == StepsLeft(pb.xg, solver.progress.pos) >= 0
      invariant more ==> stages == 6 - solver.progress.k
      invariant !more ==> solver.termination == 1 && Complete(pb, solver.progress)
      invariant !more ==> Tabulated(pb, primitives, y0, solver.progress.ytbl)
      decreases more, grid, steps, stages
    {
      more := Turn(solver, root, fs, primitives, y0);
      if more {
        StepsLeftIsNat(pb.xg, solver.progress.pos);
        grid, steps, stages := |pb.xg| - solver.progress.pos.i, StepsLeft(pb.xg, solver.progress.pos),
          6 - solver.progress.k;
      }
    }
  }

  /** odesolverrkck, driven to the end for right-hand sides in x alone that a step integrates exactly. */
  method Solve(y0: Vec, xs: seq<real>, e: real, h: real, fs: seq<real -> real>, ghost primitives: seq<real -> real>,
               root: real -> real)
    returns (code: int, xtbl: seq<real>, ytbl: seq<Vec>, ghost rejected: nat)
    requires FifthRoots(root) && AllIntegrate(fs, primitives) && |fs| == |y0| && |xs| != 1
    ensures code == if y0 == [] || xs == [] || e == 0.0 then -1 else if Ascending(xs) || Descending(xs) then 1 else -2
    ensures code == 1 ==> rejected == 0 && xtbl == xs && |ytbl| == |xs| && Rows(ytbl, |y0|)
    ensures code == 1 ==> forall t, q :: 0 <= t < |xs| && 0 <= q < |y0| ==>
      ytbl[t][q] == y0[q] + primitives[q](xs[t]) - primitives[q](xs[0])
    ensures code < 0 ==> xtbl == [] && ytbl == []
  {
    var solver := new Solver.Create(y0, xs, e, h);
    if solver.termination == 0 {
      Drive(solver, root, fs, primitives, y0);
    }
    var evaluations;
    code, xtbl, ytbl, evaluations := solver.Results();
    rejected := solver.rejected;
    if code == 1 { TableInOriginalTime(solver.problem, y0, xs, e, h, primitives, xtbl, ytbl); }
  }

  lemma {:induction false} GridInOriginalTime(pb: Problem, y0: Vec, xs: seq<real>, e: real, h: real, t: int)
    requires SetUp(pb, y0, xs, e, h) && 0 <= t < |xs|
    ensures Unscaled(pb.xscale, pb.xg[t]) == xs[t]
  {
  }

  lemma {:induction false} TableInOriginalTime(pb: Problem, y0: Vec, xs: seq<real>, e: real, h: real,
                                               primitives: seq<real -> real>, xtbl: seq<real>, ytbl: seq<Vec>)
    requires SetUp(pb, y0, xs, e, h) && Tabulated(pb, primitives, y0, ytbl) && |ytbl| == |xs| == |xtbl|
      && |primitives| == |y0|
    requires forall t :: 0 <= t < |xtbl| ==> xtbl[t] == Unscaled(pb.xscale, pb.xg[t])
    ensures xtbl == xs
    ensures forall t, q :: 0 <= t < |xs| && 0 <= q < |y0| ==>
      |ytbl[t]| == |y0| && ytbl[t][q] == y0[q] + primitives[q](xs[t]) - primitives[q](xs[0])
  {
    forall t | 0 <= t < |xs| ensures xtbl[t] == xs[t] { GridInOriginalTime(pb, y0, xs, e, h, t); }
    forall t, q | 0 <= t < |xs| && 0 <= q < |y0|
      ensures |ytbl[t]| == |y0| && ytbl[t][q] == y0[q] + primitives[q](xs[t]) - primitives[q](xs[0])
    {
      GridInOriginalTime(pb, y0, xs, e, h, t);
      GridInOriginalTime(pb, y0, xs, e, h, 0);
      assert IsSolution(pb, primitives, y0, pb.xg[t], ytbl[t]);
    }
  }

  /** For every system of polynomials in x of degree at most three a run ends, rejects no step, and tabulates the exact
      solution. */
  method SolveCubics(y0: Vec, xs: seq<real>, e: real, h: real, ps: seq<Cubic>, root: real -> real)
    returns (code: int, xtbl: seq<real>, ytbl: seq<Vec>, ghost rejected: nat)
    requires FifthRoots(root) && |ps| == |y0| && |xs| != 1
    ensures code == if y0 == [] || xs == [] || e == 0.0 then -1 else if Ascending(xs) || Descending(xs) then 1 else -2
    ensures code == 1 ==> rejected == 0 && xtbl == xs && |ytbl| == |xs| && Rows(ytbl, |y0|)
    ensures code == 1 ==> forall t, q :: 0 <= t < |xs| && 0 <= q < |y0| ==>
      ytbl[t][q] == y0[q] + ps[q].Primitive(xs[t]) - ps[q].Primitive(xs[0])
  {
    var fs := seq(|ps|, q requires 0 <= q < |ps| => Value(ps[q]));
    ghost var primitives := seq(|ps|, q requires 0 <= q < |ps| => Antiderivative(ps[q]));
    forall q | 0 <= q < |ps| ensures Integrates(fs[q], primitives[q]) { CubicsIntegrate(ps[q]); }
    code, xtbl, ytbl, rejected := Solve(y0, xs, e, h, fs, primitives, root);
    if code == 1 {
      forall t, q | 0 <= t < |xs| && 0 <= q < |y0|
        ensures ytbl[t][q] == y0[q] + ps[q].Primitive(xs[t]) - ps[q].Primitive(xs[0])
      {
        assert ytbl[t][q] == y0[q] + primitives[q](xs[t]) - primitives[q](xs[0]);
      }
    }
  }
}
