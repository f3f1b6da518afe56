/** The reverse-communication solver: a state machine that asks for derivatives and advances along the grid. */
module OdeSolver {
  import opened Reals
  import opened OdeTableau
  import opened OdePosition

  type Vec = seq<real>

  function AddScaled(a: Vec, b: Vec, v: real): (r: Vec)
    requires |a| == |b|
    ensures |r| == |a|
  {
    seq(|a|, c requires 0 <= c < |a| => a[c] + v * b[c])
  }

  function Scaled(a: Vec, v: real): (r: Vec)
    ensures |r| == |a|
  {
    seq(|a|, c requires 0 <= c < |a| => v * a[c])
  }

  /** Componentwise the larger of a scale and the magnitude of y. */
  function Raised(scale: Vec, y: Vec): (r: Vec)
    requires |scale| == |y|
    ensures |r| == |y|
  {
    seq(|y|, c requires 0 <= c < |y| => Max(scale[c], Abs(y[c])))
  }

  predicate Rows(rows: seq<Vec>, n: nat) {
    forall j :: 0 <= j < |rows| ==> |rows[j]| == n
  }

  /** Row k of the tableau: stage weights for k below six, then the weights of the two results. */
  function TableauWeight(k: nat, j: nat): real
    requires k < 8 && j < 6 && (k < 6 ==> j < k)
  {
    if k < 6 then B(k, j) else if k == 6 then C(j) else Cs(j)
  }

  /** `base` plus the first t stage derivatives, weighted by row k of the tableau. */
  function Combined(base: Vec, k: nat, rows: seq<Vec>, t: nat): (r: Vec)
    requires Rows(rows, |base|) && t <= |rows| == 6 && k < 8 && (k < 6 ==> t <= k)
    ensures |r| == |base|
  {
    if t == 0 then base else AddScaled(Combined(base, k, rows, t - 1), rows[t - 1], TableauWeight(k, t - 1))
  }

  /** Changing later rows does not matter. */
  lemma {:induction false} CombinedFrame(base: Vec, k: nat, rows: seq<Vec>, rows': seq<Vec>, t: nat)
    requires Rows(rows, |base|) && Rows(rows', |base|) && |rows| == |rows'| == 6 && k < 8 && t <= 6
      && (k < 6 ==> t <= k)
    requires forall j :: 0 <= j < t ==> rows[j] == rows'[j]
    ensures Combined(base, k, rows, t) == Combined(base, k, rows', t)
  {
    if t > 0 { CombinedFrame(base, k, rows, rows', t - 1); }
  }

  lemma {:induction false} CombinedNext(base: Vec, q: nat, rows: seq<Vec>, k: nat, row: Vec)
    requires Rows(rows, |base|) && |rows| == 6 && |row| == |base| && k < 6 <= q < 8
    ensures Rows(rows[k := row], |base|)
    ensures Combined(base, q, rows[k := row], k + 1) == AddScaled(Combined(base, q, rows, k), row, TableauWeight(q, k))
  {
    CombinedFrame(base, q, rows, rows[k := row], k);
  }

  // ---------------------------------------------------------------- error estimate

  /** The estimated error of one component, absolute or relative to its scale. */
  function ErrorAt(relative: bool, a: real, b: real, scale: real): real {
    if !relative then Abs(a - b) else Abs(a - b) / (if scale == 0.0 then 1.0 else scale)
  }

  function MaxError(relative: bool, yn: Vec, yns: Vec, scale: Vec, j: nat): real
    requires |yn| == |yns| == |scale| && j <= |yn|
  {
    if j == 0 then 0.0
    else Max(MaxError(relative, yn, yns, scale, j - 1), ErrorAt(relative, yn[j - 1], yns[j - 1], scale[j - 1]))
  }

  /** The estimate is at most a bound exactly when the error of every component is. */
  lemma {:induction false} MaxErrorBounds(relative: bool, yn: Vec, yns: Vec, scale: Vec, j: nat, bound: real)
    requires |yn| == |yns| == |scale| && j <= |yn| && bound >= 0.0
    ensures MaxError(relative, yn, yns, scale, j) >= 0.0
    ensures MaxError(relative, yn, yns, scale, j) <= bound
      <==> forall c :: 0 <= c < j ==> ErrorAt(relative, yn[c], yns[c], scale[c]) <= bound
  {
    if j > 0 { MaxErrorBounds(relative, yn, yns, scale, j - 1, bound); }
  }

  /** Agreeing results have no error. */
  lemma {:induction false} NoError(relative: bool, yn: Vec, scale: Vec, j: nat)
    requires |yn| == |scale| && j <= |yn|
    ensures MaxError(relative, yn, yn, scale, j) == 0.0
  {
    if j > 0 {
      NoError(relative, yn, scale, j - 1);
      ZeroOver(if scale[j - 1] == 0.0 then 1.0 else scale[j - 1]);
    }
  }

  lemma {:induction false} ZeroOver(v: real)
    requires v != 0.0
    ensures 0.0 / v == 0.0
  {
  }

  // ---------------------------------------------------------------- the state of a run

  /** Fifth roots, as pow(x, 0.2) returns them. */
  ghost predicate FifthRoots(root: real -> real) {
    forall x :: x > 0.0 ==> FifthRoot(root(x), x)
  }

  /** The step scaled by the fifth root of eps/err. */
  function ScaledBy(root: real -> real, h: real, eps: real, err: real): real {
    if err > 0.0 then h * root(eps / err) else 0.0
  }

  lemma {:induction false} ScaledByIsLegal(root: real -> real, h: real, eps: real, err: real)
    requires FifthRoots(root) && h > 0.0 && eps > 0.0 && err >= 0.0
    ensures Legal(h, eps, err, ScaledBy(root, h, eps, err))
  {
    if err > 0.0 {
      assert eps / err > 0.0;
      RootScales(h, eps, err, root(eps / err));
    }
  }

  lemma {:induction false} NewLengthLaw(root: real -> real, h: real, eps: real, err: real)
    requires eps > 0.0 && err >= 0.0
    ensures FifthRoots(root) && h > 0.0 ==> LengthLaw(h, eps, err, NextStep(h, eps, err, ScaledBy(root, h, eps, err)))
  {
    if err == 0.0 {
      assert MAX_GROW_POW * err == 0.0 && 243.0 * err == 0.0;
    } else if FifthRoots(root) && h > 0.0 {
      assert eps / err > 0.0;
      NextStepLaw(h, eps, err, root(eps / err), ScaledBy(root, h, eps, err));
    }
  }

  /** What is fixed when the solver is created: n equations, the grid scaled to ascend, the tolerance, the first
      step. */
  datatype Problem = Problem(n: nat, xg: seq<real>, xscale: real, eps: real, relative: bool, h0: real)

  ghost predicate Proper(pb: Problem) {
    pb.n >= 1 && |pb.xg| >= 2 && Ascending(pb.xg) && (pb.xscale == 1.0 || pb.xscale == -1.0) && pb.eps > 0.0
      && pb.h0 > 0.0
  }

  /** What changes: the position, the stages so far, the solution with its scales, both results, the stage table and the
      tabulated rows. */
  datatype Progress = Progress(pos: Position, k: nat, yc: Vec, yn: Vec, yns: Vec, escale: Vec, rkk: seq<Vec>,
                               ytbl: seq<Vec>)

  predicate Shaped(n: nat, c: Progress) {
    |c.yc| == |c.yn| == |c.yns| == |c.escale| == n && |c.rkk| == 6 && Rows(c.rkk, n) && Rows(c.ytbl, n) && c.k <= 6
  }

  /** Both results hold the stages so far. */
  predicate Accumulated(n: nat, c: Progress)
    requires Shaped(n, c)
  {
    c.yn == Combined(c.yc, 6, c.rkk, c.k) && c.yns == Combined(c.yc, 7, c.rkk, c.k)
  }

  ghost predicate Sound(pb: Problem, c: Progress) {
    Proper(pb) && Shaped(pb.n, c) && Accumulated(pb.n, c) && OnStep(pb.xg, c.pos) && |c.ytbl| == c.pos.i
  }

  /** Begin an attempt: cut the step at the grid point, raise the scales, restart both results. */
  function Prepared(pb: Problem, c: Progress): Progress
    requires c.pos.i < |pb.xg| && |c.escale| == |c.yc|
  {
    c.(pos := Truncated(pb.xg, c.pos), escale := Raised(c.escale, c.yc), yn := c.yc, yns := c.yc, k := 0)
  }

  /** The first attempt. */
  function Initial(pb: Problem, y0: Vec): Progress
    requires |pb.xg| >= 2 && |y0| == pb.n
  {
    var zeros := seq(pb.n, c => 0.0);
    Prepared(pb, Progress(Position(1, pb.xg[0], pb.h0, false), 0, y0, y0, y0, zeros,
                          [zeros, zeros, zeros, zeros, zeros, zeros], [y0]))
  }

  /** The caller's derivative goes into the stage table and into both results. */
  function Absorbed(pb: Problem, c: Progress, dy: Vec): Progress
    requires Shaped(pb.n, c) && c.k < 6 && |dy| == pb.n
  {
    var row := Scaled(dy, Stride(c.pos.h, pb.xscale));
    c.(rkk := c.rkk[c.k := row], yn := AddScaled(c.yn, row, C(c.k)), yns := AddScaled(c.yns, row, Cs(c.k)),
       k := c.k + 1)
  }

  function ErrorOf(pb: Problem, c: Progress): real
    requires Shaped(pb.n, c)
  {
    MaxError(pb.relative, c.yn, c.yns, c.escale, pb.n)
  }

  /** Reject the step or accept it, and tabulate the solution at a grid point. */
  function Decided(pb: Problem, c: Progress, err: real, scaled: real): Progress {
    var pos := Finished(c.pos, pb.eps, err, scaled);
    if err > pb.eps then c.(pos := pos)
    else c.(pos := pos, yc := c.yn, ytbl := if c.pos.grid then c.ytbl + [c.yn] else c.ytbl)
  }

  /** What one answer of the caller leads to. */
  function Resumed(pb: Problem, c: Progress, dy: Vec, root: real -> real): Progress
    requires Shaped(pb.n, c) && c.k < 6 && |dy| == pb.n
  {
    var a := Absorbed(pb, c, dy);
    if a.k < 6 then a
    else Stepped(pb, a, root)
  }

  /** After six stages: decide, and prepare the next attempt unless the grid is done. */
  function Stepped(pb: Problem, a: Progress, root: real -> real): Progress
    requires Shaped(pb.n, a)
  {
    var err := ErrorOf(pb, a);
    var d := Decided(pb, a, err, ScaledBy(root, a.pos.h, pb.eps, err));
    if d.pos.i < |pb.xg| then Prepared(pb, d) else d
  }

  /** The grid is done: every row is tabulated. */
  predicate Complete(pb: Problem, c: Progress) {
    c.pos.i == |pb.xg| == |c.ytbl| && Rows(c.ytbl, pb.n)
  }

  lemma {:induction false} AbsorbedSound(pb: Problem, c: Progress, dy: Vec)
    requires Sound(pb, c) && c.k < 6 && |dy| == pb.n
    ensures Sound(pb, Absorbed(pb, c, dy))
  {
    var row := Scaled(dy, Stride(c.pos.h, pb.xscale));
    CombinedNext(c.yc, 6, c.rkk, c.k, row);
    CombinedNext(c.yc, 7, c.rkk, c.k, row);
  }

  lemma {:induction false} PreparedSound(pb: Problem, c: Progress)
    requires Proper(pb) && Shaped(pb.n, c) && InCell(pb.xg, c.pos) && |c.ytbl| == c.pos.i
    ensures Sound(pb, Prepared(pb, c))
  {
    TruncatedIsOnStep(pb.xg, c.pos);
  }

  lemma {:induction false} InitialSound(pb: Problem, y0: Vec)
    requires Proper(pb) && |y0| == pb.n
    ensures Sound(pb, Initial(pb, y0)) && Initial(pb, y0).k == 0
  {
    var zeros := seq(pb.n, c => 0.0);
    var rows := [zeros, zeros, zeros, zeros, zeros, zeros];
    assert forall j :: 0 <= j < 6 ==> rows[j] == zeros;
    PreparedSound(pb, Progress(Position(1, pb.xg[0], pb.h0, false), 0, y0, y0, y0, zeros, rows, [y0]));
  }

  /** After six stages a sound state leads to a sound state, or the grid is complete. */
  lemma {:induction false} SteppedSound(pb: Problem, a: Progress, root: real -> real)
    requires Sound(pb, a) && FifthRoots(root)
    ensures var r := Stepped(pb, a, root);
      if r.pos.i < |pb.xg| then Sound(pb, r) && r.k == 0 else Complete(pb, r)
  {
    var err := ErrorOf(pb, a);
    MaxErrorBounds(pb.relative, a.yn, a.yns, a.escale, pb.n, 0.0);
    var scaled := ScaledBy(root, a.pos.h, pb.eps, err);
    ScaledByIsLegal(root, a.pos.h, pb.eps, err);
    FinishedStep(pb.xg, a.pos, pb.eps, err, scaled);
    var d := Decided(pb, a, err, scaled);
    if d.pos.i < |pb.xg| { PreparedSound(pb, d); }
  }

  /** Every answer, whatever it is, leads from a sound state to a sound one that waits for the next, or completes the
      grid. */
  lemma {:induction false} ResumedSound(pb: Problem, c: Progress, dy: Vec, root: real -> real)
    requires Sound(pb, c) && c.k < 6 && |dy| == pb.n && FifthRoots(root)
    ensures var r := Resumed(pb, c, dy, root);
      if r.pos.i < |pb.xg| then Sound(pb, r) && r.k < 6 else Complete(pb, r)
  {
    AbsorbedSound(pb, c, dy);
    if c.k == 5 { SteppedSound(pb, Absorbed(pb, c, dy), root); }
  }

  // ---------------------------------------------------------------- what is too inaccurate

  function Apart(a: real, b: real): real { if a < b then b - a else a - b }

  /** The largest magnitude of component c among some vectors, zero if there are none. */
  ghost predicate IsLargest(vs: seq<Vec>, c: nat, v: real)
    requires forall j :: 0 <= j < |vs| ==> c < |vs[j]|
  {
    && v >= 0.0 && (forall j :: 0 <= j < |vs| ==> -v <= vs[j][c] <= v)
    && (v == 0.0 || exists j :: 0 <= j < |vs| && (vs[j][c] == v || vs[j][c] == -v))
  }

  /** The scales are the largest magnitudes at the starts of the attempts so far. */
  ghost predicate ScalesOf(scale: Vec, starts: seq<Vec>) {
    Rows(starts, |scale|) && forall c :: 0 <= c < |scale| ==> IsLargest(starts, c, scale[c])
  }

  /** Some component of the two results differs by more than the tolerance: eps itself, or eps times the scale of the
      component, which counts as one where it is zero. */
  ghost predicate Inaccurate(eps: real, relative: bool, starts: seq<Vec>, yn: Vec, yns: Vec)
    requires |yn| == |yns| && Rows(starts, |yn|)
  {
    exists c :: 0 <= c < |yn| && ExceedsAt(eps, relative, starts, yn[c], yns[c], c)
  }

  ghost predicate ExceedsAt(eps: real, relative: bool, starts: seq<Vec>, a: real, b: real, c: nat)
    requires forall j :: 0 <= j < |starts| ==> c < |starts[j]|
  {
    if relative then exists s :: IsLargest(starts, c, s) && Apart(a, b) > eps * (if s == 0.0 then 1.0 else s)
    else Apart(a, b) > eps
  }

  lemma {:induction false} LargestUnique(vs: seq<Vec>, c: nat, v: real, w: real)
    requires (forall j :: 0 <= j < |vs| ==> c < |vs[j]|) && IsLargest(vs, c, v) && IsLargest(vs, c, w)
    ensures v == w
  {
  }

  lemma {:induction false} RaisedLargest(vs: seq<Vec>, c: nat, v: real, y: Vec)
    requires (forall j :: 0 <= j < |vs| ==> c < |vs[j]|) && c < |y| && IsLargest(vs, c, v)
    ensures IsLargest(vs + [y], c, Max(v, Abs(y[c])))
  {
    var w, all := Max(v, Abs(y[c])), vs + [y];
    assert all[|vs|] == y;
    if v != 0.0 && w == v {
      var j :| 0 <= j < |vs| && (vs[j][c] == v || vs[j][c] == -v);
      assert all[j] == vs[j];
    } else if w != 0.0 {
      assert all[|vs|][c] == w || all[|vs|][c] == -w;
    }
  }

  lemma {:induction false} RaisedScales(scale: Vec, starts: seq<Vec>, y: Vec)
    requires ScalesOf(scale, starts) && |y| == |scale|
    ensures ScalesOf(Raised(scale, y), starts + [y])
  {
    forall c | 0 <= c < |scale| ensures IsLargest(starts + [y], c, Raised(scale, y)[c]) {
      RaisedLargest(starts, c, scale[c], y);
    }
  }

  lemma {:induction false} QuotientExceeds(d: real, scale: real, eps: real)
    requires scale > 0.0
    ensures d / scale > eps <==> d > eps * scale
  {
    var q := d / scale;
    assert q * scale == d;
    assert q > eps ==> (q - eps) * scale > 0.0;
    assert q <= eps ==> (eps - q) * scale >= 0.0;
  }

  lemma {:induction false} ErrorExceeds(eps: real, relative: bool, starts: seq<Vec>, a: real, b: real, scale: real,
                                        c: nat)
    requires (forall j :: 0 <= j < |starts| ==> c < |starts[j]|) && IsLargest(starts, c, scale)
    ensures ErrorAt(relative, a, b, scale) > eps <==> ExceedsAt(eps, relative, starts, a, b, c)
  {
    if relative {
      var unit := if scale == 0.0 then 1.0 else scale;
      QuotientExceeds(Apart(a, b), unit, eps);
      forall s | IsLargest(starts, c, s) ensures s == scale { LargestUnique(starts, c, s, scale); }
    }
  }

  /** The error estimate exceeds the tolerance exactly when the results are too inaccurate. */
  lemma {:induction false} ErrorMeans(pb: Problem, c: Progress, starts: seq<Vec>)
    requires Shaped(pb.n, c) && pb.eps >= 0.0 && ScalesOf(c.escale, starts)
    ensures ErrorOf(pb, c) > pb.eps <==> Inaccurate(pb.eps, pb.relative, starts, c.yn, c.yns)
  {
    MaxErrorBounds(pb.relative, c.yn, c.yns, c.escale, pb.n, pb.eps);
    forall q | 0 <= q < pb.n
      ensures ErrorAt(pb.relative, c.yn[q], c.yns[q], c.escale[q]) > pb.eps
        <==> ExceedsAt(pb.eps, pb.relative, starts, c.yn[q], c.yns[q], q)
    {
      ErrorExceeds(pb.eps, pb.relative, starts, c.yn[q], c.yns[q], c.escale[q], q);
    }
  }

  /** After an accepted step the solver stands at its end with its result, tabulated if that is a grid point; after a
      rejected one it stands where it was. */
  predicate Moved(a: Progress, r: Progress, accepted: bool) {
    if accepted then
      && r.yc == a.yn && r.pos.xc == a.pos.xc + a.pos.h && r.pos.i == (if a.pos.grid then a.pos.i + 1 else a.pos.i)
      && r.ytbl == if a.pos.grid then a.ytbl + [a.yn] else a.ytbl
    else r.yc == a.yc && r.pos.xc == a.pos.xc && r.pos.i == a.pos.i && r.ytbl == a.ytbl
  }

  lemma {:induction false} SteppedMoves(pb: Problem, a: Progress, root: real -> real)
    requires Sound(pb, a)
    ensures Moved(a, Stepped(pb, a, root), ErrorOf(pb, a) <= pb.eps)
  {
  }

  /** The new step has the length that the controller prescribes, or ends on the grid point if it would pass it. */
  ghost predicate Relengthed(pb: Problem, a: Progress, r: Progress)
    requires Shaped(pb.n, a)
  {
    exists h2 :: LengthLaw(a.pos.h, pb.eps, ErrorOf(pb, a), h2) && CutTo(pb.xg, r.pos, h2)
  }

  predicate CutTo(xg: seq<real>, p: Position, h: real) {
    p.h == if p.i < |xg| && xg[p.i] - p.xc < h then xg[p.i] - p.xc else h
  }

  lemma {:induction false} SteppedLength(pb: Problem, a: Progress, root: real -> real)
    requires Sound(pb, a) && FifthRoots(root)
    ensures Relengthed(pb, a, Stepped(pb, a, root))
  {
    var err := ErrorOf(pb, a);
    MaxErrorBounds(pb.relative, a.yn, a.yns, a.escale, pb.n, 0.0);
    NewLengthLaw(root, a.pos.h, pb.eps, err);
    var h2 := NextStep(a.pos.h, pb.eps, err, ScaledBy(root, a.pos.h, pb.eps, err));
    assert CutTo(pb.xg, Stepped(pb, a, root).pos, h2);
  }

  // ---------------------------------------------------------------- the solver object

  ghost predicate Descending(xs: seq<real>) {
    forall a, b :: 0 <= a < b < |xs| ==> xs[a] > xs[b]
  }

  /** Whether the points are strictly ordered, in either direction. */
  method CheckOrder(xs: seq<real>) returns (ok: bool)
    requires |xs| >= 2
    ensures ok <==> Ascending(xs) || Descending(xs)
  {
    if xs[1] == xs[0] { return false; }
    for i := 1 to |xs|
      invariant xs[1] > xs[0] ==> forall a, b :: 0 <= a < b < i ==> xs[a] < xs[b]
      invariant xs[1] < xs[0] ==> forall a, b :: 0 <= a < b < i ==> xs[a] > xs[b]
    {
      if (xs[1] > xs[0] && xs[i] <= xs[i - 1]) || (xs[1] < xs[0] && xs[i] >= xs[i - 1]) { return false; }
    }
    ok := true;
  }

  /** v is the smallest distance between neighbouring points. */
  ghost predicate SmallestStep(xs: seq<real>, v: real) {
    && (forall i :: 0 < i < |xs| ==> v <= Abs(xs[i] - xs[i - 1]))
    && exists i :: 0 < i < |xs| && v == Abs(xs[i] - xs[i - 1])
  }

  method SmallestGap(xs: seq<real>) returns (v: real)
    requires |xs| >= 2 && (Ascending(xs) || Descending(xs))
    ensures v > 0.0 && SmallestStep(xs, v)
  {
    v := Abs(xs[1] - xs[0]);
    ghost var at := 1;
    for i := 2 to |xs|
      invariant v > 0.0 && 0 < at < |xs| && v == Abs(xs[at] - xs[at - 1])
      invariant forall t :: 0 < t < i ==> v <= Abs(xs[t] - xs[t - 1])
    {
      if Abs(xs[i] - xs[i - 1]) < v {
        v, at := Abs(xs[i] - xs[i - 1]), i;
      }
    }
  }

  /** The problem that a correct call sets up. */
  ghost predicate SetUp(pb: Problem, y0: Vec, xs: seq<real>, e: real, h: real) {
    && Proper(pb) && pb.n == |y0| && pb.eps == Abs(e) && (pb.relative <==> e < 0.0) && (h != 0.0 ==> pb.h0 == Abs(h))
    && (h == 0.0 ==> exists v :: SmallestStep(xs, v) && pb.h0 == 0.001 * v)
    && (pb.xscale == 1.0 <==> Ascending(xs))
    && |pb.xg| == |xs| && forall t :: 0 <= t < |xs| ==> pb.xg[t] == if pb.xscale == 1.0 then xs[t] else -xs[t]
  }

  /** In the caller's terms: with e > 0 results are too inaccurate if some component differs by more than e, and with
      e < 0 if one differs by more than |e| times its largest magnitude at the starts of the attempts so far. */
  lemma {:induction false} ToleranceMeans(pb: Problem, y0: Vec, xs: seq<real>, e: real, h: real, starts: seq<Vec>,
                                          yn: Vec, yns: Vec)
    requires SetUp(pb, y0, xs, e, h) && |yn| == |yns| && Rows(starts, |yn|)
    ensures e > 0.0 ==>
      (Inaccurate(pb.eps, pb.relative, starts, yn, yns) <==> exists c :: 0 <= c < |yn| && Apart(yn[c], yns[c]) > e)
    ensures e < 0.0 ==>
      (Inaccurate(pb.eps, pb.relative, starts, yn, yns) <==>
       exists c, s :: 0 <= c < |yn| && IsLargest(starts, c, s)
         && Apart(yn[c], yns[c]) > -e * (if s == 0.0 then 1.0 else s))
  {
    if e > 0.0 {
      forall c | 0 <= c < |yn|
        ensures ExceedsAt(pb.eps, pb.relative, starts, yn[c], yns[c], c) <==> Apart(yn[c], yns[c]) > e
      {
      }
    }
    if e < 0.0 && Inaccurate(pb.eps, pb.relative, starts, yn, yns) {
      var c :| 0 <= c < |yn| && ExceedsAt(pb.eps, pb.relative, starts, yn[c], yns[c], c);
    }
  }

  /** The grid in scaled time, which always ascends. */
  method ScaleGrid(xs: seq<real>) returns (xg: seq<real>, xscale: real)
    requires |xs| >= 2 && (Ascending(xs) || Descending(xs))
    ensures |xg| == |xs| && Ascending(xg) && (if Ascending(xs) then xscale == 1.0 else xscale == -1.0)
    ensures forall t :: 0 <= t < |xs| ==> xg[t] == if xscale == 1.0 then xs[t] else -xs[t]
  {
    if xs[1] > xs[0] {
      xg, xscale := xs, 1.0;
    } else {
      xg, xscale := seq(|xs|, t requires 0 <= t < |xs| => -xs[t]), -1.0;
    }
  }

  class Solver {
    var problem: Problem
    var progress: Progress
    /** The time and the values at which the caller is asked for the derivative. */
    var x: real
    var y: Vec
    /** The caller's answer. */
    var dy: Vec
    var needdy: bool
    var stage: int
    var termination: int
    var nfev: nat
    /** How many steps were rejected, and the solution at the start of every attempt. */
    ghost var rejected: nat
    ghost var starts: seq<Vec>

    /** A derivative is being waited for, at the exact point of stage k of the current step. */
    ghost predicate Waiting()
      reads this
    {
      && Sound(problem, progress) && progress.k < 6 && stage == 0 && termination == 0 && needdy
      && ScalesOf(progress.escale, starts)
      && x == StageTime(problem.xscale, progress.pos.xc, progress.pos.h, progress.k)
      && y == Combined(progress.yc, progress.k, progress.rkk, progress.k)
    }

    /** odesolverinit: bad parameters and unordered points are reported; a single point needs no run. */
    constructor Create(y0: Vec, xs: seq<real>, e: real, h: real)
      ensures stage == -1 && !needdy && rejected == 0
      ensures termination == if y0 == [] || xs == [] || e == 0.0 then -1
        else if |xs| == 1 then 1 else if Ascending(xs) || Descending(xs) then 0 else -2
      ensures termination == 1 ==> progress.ytbl == [y0]
      ensures termination == 0 ==> SetUp(problem, y0, xs, e, h) && progress.yc == y0
    {
      stage, needdy, x, y, dy, nfev, rejected, starts := -1, false, 0.0, [], [], 0, 0, [];
      problem := Problem(0, [], 1.0, 0.0, false, 0.0);
      progress := Progress(Position(0, 0.0, 0.0, false), 0, y0, y0, y0, [], [], [y0]);
      if y0 == [] || xs == [] || e == 0.0 {
        termination := -1;
      } else if |xs| == 1 {
        termination := 1;
      } else {
        var ok := CheckOrder(xs);
        if !ok {
          termination := -2;
        } else {
          var h0 := Abs(h);
          if h0 == 0.0 {
            var v := SmallestGap(xs);
            h0 := 0.001 * v;
          }
          var xg, xscale := ScaleGrid(xs);
          problem := Problem(|y0|, xg, xscale, Abs(e), e < 0.0, h0);
          termination := 0;
        }
      }
    }

    /** Begin an attempt. */
    method PrepareStep()
      requires progress.pos.i < |problem.xg| && |progress.escale| == |progress.yc|
      requires ScalesOf(progress.escale, starts)
      modifies this`progress, this`starts
      ensures progress == Prepared(problem, old(progress))
      ensures starts == old(starts) + [progress.yc] && ScalesOf(progress.escale, starts)
    {
      RaisedScales(progress.escale, starts, progress.yc);
      starts := starts + [progress.yc];
      var p := progress.pos;
      if p.xc + p.h >= problem.xg[p.i] {
        p := p.(h := problem.xg[p.i] - p.xc, grid := true);
      } else {
        p := p.(grid := false);
      }
      progress := progress.(pos := p, escale := Raised(progress.escale, progress.yc));
      progress := progress.(yn := progress.yc, yns := progress.yc, k := 0);
    }

    /** Ask the caller for the derivative at stage k. */
    method Request()
      requires Sound(problem, progress) && progress.k < 6 && termination == 0 && ScalesOf(progress.escale, starts)
      modifies this`x, this`y, this`needdy, this`stage
      ensures Waiting()
    {
      var k := progress.k;
      x := StageTime(problem.xscale, progress.pos.xc, progress.pos.h, k);
      var z := progress.yc;
      for j := 0 to k
        invariant z == Combined(progress.yc, k, progress.rkk, j)
      {
        z := AddScaled(z, progress.rkk[j], B(k, j));
      }
      y := z;
      needdy, stage := true, 0;
    }

    /** Take the caller's derivative into the stage table and into both results. */
    method Absorb()
      requires Shaped(problem.n, progress) && progress.k < 6 && |dy| == problem.n
      modifies this`progress, this`needdy, this`nfev
      ensures progress == Absorbed(problem, old(progress), dy) && !needdy && nfev == old(nfev) + 1
    {
      needdy, nfev := false, nfev + 1;
      var k := progress.k;
      var row := Scaled(dy, Stride(progress.pos.h, problem.xscale));
      progress := progress.(rkk := progress.rkk[k := row]);
      progress := progress.(yn := AddScaled(progress.yn, row, C(k)));
      progress := progress.(yns := AddScaled(progress.yns, row, Cs(k)), k := k + 1);
    }

    method EstimateError() returns (err: real)
      requires Shaped(problem.n, progress)
      ensures err == ErrorOf(problem, progress)
    {
      err := 0.0;
      for j := 0 to problem.n
        invariant err == MaxError(problem.relative, progress.yn, progress.yns, progress.escale, j)
      {
        if !problem.relative {
          err := Max(err, Abs(progress.yn[j] - progress.yns[j]));
        } else {
          var v := progress.escale[j];
          if v == 0.0 { v := 1.0; }
          err := Max(err, Abs(progress.yn[j] - progress.yns[j]) / v);
        }
      }
    }

    /** The length of the next step. */
    method NextLength(err: real, root: real -> real) returns (h2: real)
      requires err >= 0.0 && problem.eps > 0.0
      ensures h2 == NextStep(progress.pos.h, problem.eps, err, ScaledBy(root, progress.pos.h, problem.eps, err))
      ensures FifthRoots(root) && progress.pos.h > 0.0 ==> LengthLaw(progress.pos.h, problem.eps, err, h2)
    {
      NewLengthLaw(root, progress.pos.h, problem.eps, err);
      var h := progress.pos.h;
      if MAX_GROW_POW * err <= problem.eps {
        h2 := MAX_GROW * h;
      } else {
        h2 := h * root(problem.eps / err);
      }
      if h2 < h / MAX_SHRINK { h2 := h / MAX_SHRINK; }
    }

    /** Reject the step, or accept it and tabulate the solution at a grid point. */
    method Decide(err: real, h2: real, ghost scaled: real)
      requires h2 == NextStep(progress.pos.h, problem.eps, err, scaled)
      modifies this`progress, this`rejected
      ensures progress == Decided(problem, old(progress), err, scaled)
      ensures rejected == old(rejected) + if err > problem.eps then 1 else 0
    {
      var p := progress.pos;
      if err > problem.eps {
        progress := progress.(pos := p.(h := h2));
        rejected := rejected + 1;
      } else {
        progress := progress.(pos := p.(xc := p.xc + p.h, h := h2), yc := progress.yn);
        if p.grid {
          progress := progress.(ytbl := progress.ytbl + [progress.yc], pos := progress.pos.(i := p.i + 1));
        }
      }
    }

    /** Estimate the error, choose the next length, and decide on the step. */
    method EndStep(root: real -> real)
      requires Shaped(problem.n, progress) && problem.eps > 0.0 && ScalesOf(progress.escale, starts)
      modifies this`progress, this`rejected
      ensures var err := ErrorOf(problem, old(progress));
        progress == Decided(problem, old(progress), err, ScaledBy(root, old(progress).pos.h, problem.eps, err))
      ensures rejected == old(rejected) +
        if Inaccurate(problem.eps, problem.relative, starts, old(progress).yn, old(progress).yns) then 1 else 0
    {
      ErrorMeans(problem, progress, starts);
      var err := EstimateError();
      MaxErrorBounds(problem.relative, progress.yn, progress.yns, progress.escale, problem.n, 0.0);
      var h2 := NextLength(err, root);
      Decide(err, h2, ScaledBy(root, progress.pos.h, problem.eps, err));
    }

    /** All six stages are in: end the step, and go on or finish. */
    method FinishStep(root: real -> real) returns (more: bool)
      requires Sound(problem, progress) && FifthRoots(root) && termination == 0 && ScalesOf(progress.escale, starts)
      modifies this`progress, this`rejected, this`starts, this`x, this`y, this`needdy, this`stage, this`termination
      ensures progress == Stepped(problem, old(progress), root)
      ensures rejected == old(rejected) +
        if Inaccurate(problem.eps, problem.relative, old(starts), old(progress).yn, old(progress).yns) then 1 else 0
      ensures starts == old(starts) + if more then [progress.yc] else []
      ensures Moved(old(progress), progress, rejected == old(rejected))
      ensures Relengthed(problem, old(progress), progress)
      ensures more <==> progress.pos.i < |problem.xg|
      ensures if more then Waiting() && progress.k == 0 else Complete(problem, progress) && termination == 1
    {
      SteppedSound(problem, progress, root);
      ErrorMeans(problem, progress, starts);
      SteppedMoves(problem, progress, root);
      SteppedLength(problem, progress, root);
      EndStep(root);
      if progress.pos.i >= |problem.xg| {
        termination := 1;
        return false;
      }
      PrepareStep();
      Request();
      return true;
    }

    /** The first call: prepare the tables and make the first request. */
    method Start()
      requires Proper(problem) && |progress.yc| == problem.n && termination == 0
      modifies this`progress, this`nfev, this`starts, this`x, this`y, this`needdy, this`stage
      ensures progress == Initial(problem, old(progress).yc) && Waiting() && nfev == 0
      ensures starts == [old(progress).yc]
      ensures progress.pos.i == 1 && progress.pos.xc == problem.xg[0] && CutTo(problem.xg, progress.pos, problem.h0)
      ensures progress.yc == old(progress).yc && progress.ytbl == [progress.yc]
    {
      InitialSound(problem, progress.yc);
      nfev := 0;
      var zeros := seq(problem.n, c => 0.0);
      var y0 := progress.yc;
      progress := Progress(Position(1, problem.xg[0], problem.h0, false), 0, y0, y0, y0, zeros,
        [zeros, zeros, zeros, zeros, zeros, zeros], [y0]);
      starts := [];
      PrepareStep();
      Request();
    }

    /** odesolveriteration: whatever the caller answers, the solver waits again at an exact stage point, or the grid is
        complete. */
    method Iteration(root: real -> real) returns (more: bool)
      requires FifthRoots(root)
      requires if stage == 0 then Waiting() && |dy| == problem.n
        else termination == 0 ==> Proper(problem) && |progress.yc| == problem.n
      modifies this
      ensures problem == old(problem)
      ensures more ==> Waiting()
      ensures old(stage) != 0 && old(termination) != 0 ==>
        !more && termination == old(termination) && progress == old(progress)
      ensures old(stage) != 0 && old(termination) == 0 ==>
        && more && progress == Initial(problem, old(progress).yc) && nfev == 0 && rejected == old(rejected)
        && starts == [old(progress).yc] && progress.ytbl == [old(progress).yc] && progress.pos.xc == problem.xg[0]
        && progress.pos.i == 1 && CutTo(problem.xg, progress.pos, problem.h0)
      ensures old(stage) == 0 ==>
        && progress == Resumed(problem, old(progress), old(dy), root) && nfev == old(nfev) + 1
        && (!more ==> Complete(problem, progress) && termination == 1)
        && (more <==> progress.pos.i < |problem.xg|)
      ensures old(stage) == 0 && old(progress).k < 5 ==>
        rejected == old(rejected) && starts == old(starts) && progress.pos == old(progress).pos
      ensures old(stage) == 0 && old(progress).k == 5 ==>
        var a := Absorbed(problem, old(progress), old(dy));
        && rejected == old(rejected) +
             (if Inaccurate(problem.eps, problem.relative, old(starts), a.yn, a.yns) then 1 else 0)
        && starts == old(starts) + (if more then [progress.yc] else [])
        && Moved(a, progress, rejected == old(rejected)) && Relengthed(problem, a, progress)
    {
      if stage == 0 {
        AbsorbedSound(problem, progress, dy);
        Absorb();
        if progress.k < 6 {
          Request();
          more := true;
        } else {
          more := FinishStep(root);
        }
      } else if termination != 0 {
        more := false;
      } else {
        Start();
        more := true;
      }
    }

    /** odesolverresults: the grid in original time and the tabulated solution. */
    method Results() returns (code: int, xtbl: seq<real>, ytbl: seq<Vec>, evaluations: nat)
      requires termination > 0 ==> Complete(problem, progress)
      ensures code == termination
      ensures code > 0 ==> |xtbl| == |problem.xg| && ytbl == progress.ytbl && evaluations == nfev
      ensures code > 0 ==> forall t :: 0 <= t < |xtbl| ==> xtbl[t] == Unscaled(problem.xscale, problem.xg[t])
      ensures code <= 0 ==> xtbl == [] && ytbl == [] && evaluations == 0
    {
      code := termination;
      if code <= 0 { return code, [], [], 0; }
      var xg, s := problem.xg, problem.xscale;
      xtbl := seq(|xg|, t requires 0 <= t < |xg| => Unscaled(s, xg[t]));
      ytbl, evaluations := progress.ytbl, nfev;
    }
  }
}
