/** The adaptive integrators `rk21` and `euler_adaptive`: an accept/reject
    loop over the state `(n, htmp, t, y)`. Each pass computes two estimates
    of the next state from `(t[n], y[n])` with trial step `htmp`, an error
    indicator `phi` and a new trial step `hneu`. A pass with `phi > tol` only
    replaces `htmp`; any other pass appends `t[n] + htmp` and the more
    accurate estimate, and clamps the next trial step so that it does not
    pass `te`. The loop stops once `htmp <= 0`. */
module Adaptive {
  import opened Vectors
  import opened SingleStep

  /** The square root as the controller uses it: nonnegative, and at most 1
      on arguments in `[0, 1]`. */
  type SqrtFn = s: real -> real | forall x: real :: 0.0 <= x ==> 0.0 <= s(x) && (x <= 1.0 ==> s(x) <= 1.0)
    witness (x: real) => 0.0

  /** The Euclidean norm as the controller uses it: nonnegative, and zero on
      the zero vector. */
  type NormFn = nm: Vec -> real | (forall v: Vec :: 0.0 <= nm(v)) && (forall d: nat :: nm(Zeros(d)) == 0.0)
    witness (v: Vec) => 0.0

  /** The error indicator of one pass and the state it would record. */
  datatype Estimation = Estimation(phi: real, next: Vec)

  /** What distinguishes the two controllers: from `(tn, yn)` and trial step
      `h`, an error indicator `phi >= 0` and a value of the same dimension. */
  type Estimator = e: (real, real, Vec) -> Estimation
    | forall tn: real, h: real, yn: Vec :: 0.0 <= e(tn, h, yn).phi && |e(tn, h, yn).next| == |yn|
    witness (tn: real, h: real, yn: Vec) => Estimation(0.0, yn)

  /** The arguments `te, tol, scale_factor, hmin, hmax` of both controllers,
      with their estimator and the square root. */
  datatype Params = Params(estimate: Estimator, sqrt: SqrtFn,
                           te: real, tol: real, scaleFactor: real, hmin: real, hmax: real)

  /** Arguments for which numpy's arithmetic never produces NaN in the ratio. */
  predicate ValidParams(p: Params) {
    p.tol > 0.0 && p.scaleFactor > 0.0
  }

  /** `rk21`: Heun's value `y1` against Euler's value `y2`; `phi = |y2 - y1|`. */
  function Rk21Estimate(f: Field, norm: NormFn, tn: real, h: real, yn: Vec): (e: Estimation)
    ensures 0.0 <= e.phi && |e.next| == |yn|
  {
    var k1 := f(tn, yn);
    var k2 := f(tn + h, Add(yn, Scale(h, k1)));
    var y1 := Add(yn, Scale(h / 2.0, Add(k1, k2)));
    var y2 := Add(yn, Scale(h, k1));
    Estimation(norm(Sub(y2, y1)), y1)
  }

  /** `euler_adaptive`: one Euler step `y1` against two half Euler steps `y2`;
      `phi = 2 |y2 - y1|` and the recorded value is `2 y2 - y1`. */
  function EulerAdaptiveEstimate(f: Field, norm: NormFn, tn: real, h: real, yn: Vec): (e: Estimation)
    ensures 0.0 <= e.phi && |e.next| == |yn|
  {
    var fn := f(tn, yn);
    var y1 := Add(yn, Scale(h, fn));
    var half := Add(yn, Scale(h / 2.0, fn));
    var y2 := Add(half, Scale(h / 2.0, f(tn + h / 2.0, half)));
    Estimation(2.0 * norm(Sub(y2, y1)), Sub(Scale(2.0, y2), y1))
  }

  function Rk21Estimator(f: Field, norm: NormFn): Estimator {
    (tn: real, h: real, yn: Vec) => Rk21Estimate(f, norm, tn, h, yn)
  }

  function EulerAdaptiveEstimator(f: Field, norm: NormFn): Estimator {
    (tn: real, h: real, yn: Vec) => EulerAdaptiveEstimate(f, norm, tn, h, yn)
  }

  function Min(a: real, b: real): real {
    if a <= b then a else b
  }

  function Max(a: real, b: real): real {
    if a >= b then a else b
  }

  /** The factor `min(max(scale_factor sqrt(tol / phi), hmin), hmax)` by which
      the trial step changes. At `phi == 0` numpy's quotient is infinite and
      the factor is `hmax`. */
  function StepRatio(p: Params, phi: real): real {
    if phi == 0.0 then p.hmax
    else Min(Max(p.scaleFactor * p.sqrt(p.tol / phi), p.hmin), p.hmax)
  }

  /** The new trial step `hneu = htmp * ratio`. */
  function NewStep(p: Params, htmp: real, phi: real): real {
    htmp * StepRatio(p, phi)
  }

  /** The change of the trial step is clamped into `[hmin, hmax]`: the ratio
      lies between the two bounds, and so `hmin htmp <= hneu <= hmax htmp`. */
  lemma NewStepBounds(p: Params, htmp: real, phi: real)
    requires p.hmin <= p.hmax && 0.0 <= htmp
    ensures p.hmin <= StepRatio(p, phi) <= p.hmax
    ensures p.hmin * htmp <= NewStep(p, htmp, phi) <= p.hmax * htmp
    ensures 0.0 < p.hmin && 0.0 < htmp ==> 0.0 < NewStep(p, htmp, phi)
  {
    var r := StepRatio(p, phi);
    MulMonotone(p.hmin, r, htmp);
    MulMonotone(r, p.hmax, htmp);
    if 0.0 < p.hmin && 0.0 < htmp {
      assert 0.0 < p.hmin * htmp;
    }
  }

  lemma MulMonotone(a: real, b: real, c: real)
    requires a <= b && 0.0 <= c
    ensures a * c <= b * c
  {
  }

  lemma QuotientBelowOne(a: real, b: real)
    requires 0.0 < a < b
    ensures 0.0 < a / b < 1.0
  {
    var q := a / b;
    assert q * b == a;
    if q >= 1.0 {
      MulMonotone(1.0, q, b);
    }
  }

  /** A rejected pass (`phi > tol`) never enlarges the trial step when
      `hmin <= 1` and `scale_factor <= 1`. */
  lemma RejectionShrinks(p: Params, htmp: real, phi: real)
    requires ValidParams(p) && p.scaleFactor <= 1.0 && 0.0 < p.hmin <= 1.0 && p.hmin <= p.hmax
    requires phi > p.tol && 0.0 < htmp
    ensures 0.0 < NewStep(p, htmp, phi) <= htmp
  {
    var x := p.tol / phi;
    QuotientBelowOne(p.tol, phi);
    var s := p.sqrt(x);
    assert 0.0 <= s <= 1.0;
    MulMonotone(s, 1.0, p.scaleFactor);
    assert p.scaleFactor * s <= 1.0;
    var r := StepRatio(p, phi);
    assert r <= 1.0;
    MulMonotone(r, 1.0, htmp);
    NewStepBounds(p, htmp, phi);
    assert 0.0 < p.hmin * htmp;
  }

  /** The loop state of both controllers. */
  datatype State = State(n: nat, htmp: real, t: seq<real>, y: seq<Vec>)

  /** `t` and `y` hold `n + 1` recorded points. */
  predicate Shaped(s: State) {
    |s.t| == |s.y| == s.n + 1
  }

  /** The state before the loop: `t = [t0]`, `y = [y0]`, `htmp = hstart`. */
  function Start(t0: real, y0: Vec, hstart: real): (s: State)
    ensures Shaped(s) && s.t[0] == t0 && s.y[0] == y0
  {
    State(0, hstart, [t0], [y0])
  }

  /** Whether the pass from `s` rejects its trial step. */
  predicate Rejects(p: Params, s: State)
    requires Shaped(s)
  {
    p.estimate(s.t[s.n], s.htmp, s.y[s.n]).phi > p.tol
  }

  /** One pass of the loop body; the record either stays or grows by one point. */
  function Iterate(p: Params, s: State): (r: State)
    requires Shaped(s)
    ensures Shaped(r)
    ensures r.n == s.n || r.n == s.n + 1
  {
    var e := p.estimate(s.t[s.n], s.htmp, s.y[s.n]);
    var hneu := NewStep(p, s.htmp, e.phi);
    if e.phi > p.tol then
      State(s.n, hneu, s.t, s.y)
    else
      var h := s.htmp;
      var t := s.t + [s.t[s.n] + h];
      var y := s.y + [e.next];
      State(s.n + 1, Min(p.te - t[s.n + 1], hneu), t, y)
  }

  /** One pass of the loop body as a map on states; states of the wrong
      shape never occur in the loop. */
  function Pass(p: Params): State -> State {
    // The `else` only makes the map total; the loop's states are always shaped
    // and the source has no such case.
    (s: State) => if Shaped(s) then Iterate(p, s) else s
  }

  lemma PassAt(p: Params, s: State)
    requires Shaped(s)
    ensures Pass(p)(s) == Iterate(p, s)
  {
  }

  /** The state after at most `fuel` passes of `pass`: the loop stops once
      `htmp <= 0`. */
  function Run(pass: State -> State, s: State, fuel: nat): (r: State)
    ensures r == s || fuel > 0
    decreases fuel
  {
    if s.htmp <= 0.0 || fuel == 0 then s
    else Run(pass, pass(s), fuel - 1)
  }

  /** A pass of a loop that has not stopped. */
  lemma RunStep(pass: State -> State, s: State, fuel: nat)
    requires s.htmp > 0.0 && fuel > 0
    ensures Run(pass, s, fuel) == Run(pass, pass(s), fuel - 1)
  {
  }

  /** A rejected pass leaves `n`, `t` and `y` as they were and only replaces
      the trial step, by `hneu`. */
  lemma RejectKeepsRecord(p: Params, s: State)
    requires Shaped(s) && Rejects(p, s)
    ensures var r := Iterate(p, s);
      r.n == s.n && r.t == s.t && r.y == s.y &&
      r.htmp == NewStep(p, s.htmp, p.estimate(s.t[s.n], s.htmp, s.y[s.n]).phi)
  {
  }

  /** An accepted pass appends exactly `t[n] + htmp` and the estimate's value,
      and the next trial step is `hneu` clamped so that it does not pass `te`. */
  lemma AcceptAppends(p: Params, s: State)
    requires Shaped(s) && !Rejects(p, s)
    ensures var r := Iterate(p, s);
      var e := p.estimate(s.t[s.n], s.htmp, s.y[s.n]);
      r.n == s.n + 1 && r.t == s.t + [s.t[s.n] + s.htmp] && r.y == s.y + [e.next] &&
      r.htmp == Min(p.te - r.t[r.n], NewStep(p, s.htmp, e.phi))
  {
  }

  // ----- What the record satisfies -----

  /** The pass from `(tk, yk)` with step `tk1 - tk > 0` was accepted and
      recorded `(tk1, yk1)`. */
  predicate Accepted(p: Params, tk: real, tk1: real, yk: Vec, yk1: Vec) {
    tk < tk1 &&
    var e := p.estimate(tk, tk1 - tk, yk);
    e.phi <= p.tol && e.next == yk1
  }

  /** The record starts at `(t0, y0)`, holds as many times as states, and
      every consecutive pair is an accepted step. */
  ghost predicate IsTrace(p: Params, t0: real, y0: Vec, t: seq<real>, y: seq<Vec>) {
    |t| == |y| >= 1 && t[0] == t0 && y[0] == y0 &&
    forall k :: 0 <= k < |t| - 1 ==> Accepted(p, t[k], t[k + 1], y[k], y[k + 1])
  }

  /** A pass with a positive trial step keeps the record a trace. */
  lemma IterateKeepsTrace(p: Params, t0: real, y0: Vec, s: State)
    requires Shaped(s) && IsTrace(p, t0, y0, s.t, s.y) && s.htmp > 0.0
    ensures IsTrace(p, t0, y0, Iterate(p, s).t, Iterate(p, s).y)
  {
    var r := Iterate(p, s);
    if !Rejects(p, s) {
      AcceptAppends(p, s);
      var n := s.n;
      assert r.t[n + 1] - r.t[n] == s.htmp;
      assert Accepted(p, r.t[n], r.t[n + 1], r.y[n], r.y[n + 1]);
      forall k | 0 <= k < |r.t| - 1
        ensures Accepted(p, r.t[k], r.t[k + 1], r.y[k], r.y[k + 1])
      {
        if k < n {
          assert r.t[k] == s.t[k] && r.t[k + 1] == s.t[k + 1] && r.y[k] == s.y[k] && r.y[k + 1] == s.y[k + 1];
        }
      }
    }
  }

  /** Any number of passes keeps the record a trace. */
  lemma {:induction false} RunKeepsTrace(p: Params, t0: real, y0: Vec, s: State, fuel: nat)
    requires Shaped(s) && IsTrace(p, t0, y0, s.t, s.y)
    ensures Shaped(Run(Pass(p), s, fuel))
    ensures IsTrace(p, t0, y0, Run(Pass(p), s, fuel).t, Run(Pass(p), s, fuel).y)
    decreases fuel
  {
    if s.htmp > 0.0 && fuel > 0 {
      PassAt(p, s);
      IterateKeepsTrace(p, t0, y0, s);
      RunKeepsTrace(p, t0, y0, Iterate(p, s), fuel - 1);
    }
  }

  /** Recorded times strictly increase. */
  lemma {:induction false} TraceIncreasing(p: Params, t0: real, y0: Vec, t: seq<real>, y: seq<Vec>, i: nat, j: nat)
    requires IsTrace(p, t0, y0, t, y)
    requires i < j < |t|
    ensures t[i] < t[j]
    decreases j - i
  {
    assert Accepted(p, t[j - 1], t[j], y[j - 1], y[j]);
    if i < j - 1 {
      TraceIncreasing(p, t0, y0, t, y, i, j - 1);
    }
  }

  // ----- Landing on te -----

  /** Conditions under which the controller ends exactly at `te`: the trial
      step never grows on rejection, the ratio is clamped into a nonempty
      positive range, and the first trial step does not pass `te`. */
  ghost predicate Shrinks(p: Params, t0: real, hstart: real) {
    ValidParams(p) && p.scaleFactor <= 1.0 && 0.0 < p.hmin <= 1.0 && p.hmin <= p.hmax &&
    0.0 < hstart <= p.te - t0
  }

  /** Either a positive trial step that does not pass `te`, or a stopped
      loop whose last time is `te`. */
  ghost predicate OnCourse(p: Params, s: State)
    requires Shaped(s)
  {
    (0.0 < s.htmp <= p.te - s.t[s.n]) || (s.htmp <= 0.0 && s.t[s.n] == p.te)
  }

  lemma IterateOnCourse(p: Params, t0: real, hstart: real, s: State)
    requires Shrinks(p, t0, hstart)
    requires Shaped(s) && OnCourse(p, s) && s.htmp > 0.0
    ensures OnCourse(p, Iterate(p, s))
  {
    var e := p.estimate(s.t[s.n], s.htmp, s.y[s.n]);
    var hneu := NewStep(p, s.htmp, e.phi);
    NewStepBounds(p, s.htmp, e.phi);
    assert 0.0 < p.hmin * s.htmp;
    assert 0.0 < hneu;
    if Rejects(p, s) {
      RejectionShrinks(p, s.htmp, e.phi);
      RejectKeepsRecord(p, s);
    } else {
      AcceptAppends(p, s);
    }
  }

  lemma {:induction false} RunOnCourse(p: Params, t0: real, hstart: real, s: State, fuel: nat)
    requires Shrinks(p, t0, hstart)
    requires Shaped(s) && OnCourse(p, s)
    ensures Shaped(Run(Pass(p), s, fuel)) && OnCourse(p, Run(Pass(p), s, fuel))
    decreases fuel
  {
    if s.htmp > 0.0 && fuel > 0 {
      PassAt(p, s);
      IterateOnCourse(p, t0, hstart, s);
      RunOnCourse(p, t0, hstart, Iterate(p, s), fuel - 1);
    }
  }

  /** What the loop has produced after at most `fuel` passes from the start:
      a trace, and under `Shrinks` times up to `te`, ending at `te` once the
      loop has stopped. */
  lemma RunOutcome(p: Params, t0: real, y0: Vec, hstart: real, fuel: nat)
    ensures var r := Run(Pass(p), Start(t0, y0, hstart), fuel);
      Shaped(r) && IsTrace(p, t0, y0, r.t, r.y) &&
      (Shrinks(p, t0, hstart) ==> r.t[|r.t| - 1] <= p.te) &&
      (Shrinks(p, t0, hstart) && r.htmp <= 0.0 ==> r.t[|r.t| - 1] == p.te)
  {
    var start := Start(t0, y0, hstart);
    RunKeepsTrace(p, t0, y0, start, fuel);
    if Shrinks(p, t0, hstart) {
      RunOnCourse(p, t0, hstart, start, fuel);
    }
  }

  // ----- The loop -----

  /** The controller loop of `rk21` and `euler_adaptive`, stopped after at
      most `maxIterations` passes; `done` says whether it stopped because
      `htmp <= 0`. */
  method Integrate(p: Params, y0: Vec, t0: real, hstart: real, maxIterations: nat)
    returns (t: seq<real>, y: seq<Vec>, done: bool)
    requires ValidParams(p)
    ensures var r := Run(Pass(p), Start(t0, y0, hstart), maxIterations);
      t == r.t && y == r.y && done == (r.htmp <= 0.0)
    ensures IsTrace(p, t0, y0, t, y)
    ensures Shrinks(p, t0, hstart) ==> t[|t| - 1] <= p.te
    ensures Shrinks(p, t0, hstart) && done ==> t[|t| - 1] == p.te
  {
    var n := 0;
    t := [t0];
    y := [y0];
    var htmp := hstart;
    var fuel := maxIterations;
    while htmp > 0.0 && fuel > 0
      invariant |t| == |y| == n + 1
      invariant Run(Pass(p), State(n, htmp, t, y), fuel) == Run(Pass(p), Start(t0, y0, hstart), maxIterations)
      decreases fuel
    {
      ghost var s := State(n, htmp, t, y);
      var e := p.estimate(t[n], htmp, y[n]);
      var hneu := NewStep(p, htmp, e.phi);
      if e.phi > p.tol {
        htmp := hneu;
        RejectKeepsRecord(p, s);
        assert State(n, htmp, t, y) == Iterate(p, s);
      } else {
        var h := htmp;
        t := t + [t[n] + h];
        y := y + [e.next];
        htmp := Min(p.te - t[n + 1], hneu);
        n := n + 1;
        AcceptAppends(p, s);
        assert State(n, htmp, t, y) == Iterate(p, s);
      }
      PassAt(p, s);
      RunStep(Pass(p), s, fuel);
      fuel := fuel - 1;
    }
    done := htmp <= 0.0;
    RunOutcome(p, t0, y0, hstart, maxIterations);
  }

  // ----- The two controllers -----

  /** The value the estimator records is the value of `step`. */
  ghost predicate Records(estimate: Estimator, step: StepFn) {
    forall tn: real, h: real, yn: Vec :: estimate(tn, h, yn).next == step(tn, h, yn)
  }

  /** On the grid of times it chose, the controller's record is exactly what
      the fixed-step method of its recorded value produces on that grid. */
  lemma {:induction false} TraceIsFixedStep(p: Params, step: StepFn, t0: real, y0: Vec, t: seq<real>, y: seq<Vec>, k: nat)
    requires Records(p.estimate, step)
    requires IsTrace(p, t0, y0, t, y)
    requires k < |t|
    ensures y[k] == Row(step, y0, t, k)
  {
    if k > 0 {
      TraceIsFixedStep(p, step, t0, y0, t, y, k - 1);
      assert Accepted(p, t[k - 1], t[k], y[k - 1], y[k]);
      RowNext(step, y0, t, k - 1);
    }
  }

  /** The value `rk21` records is the Heun-2 step. */
  lemma Rk21RecordsHeun2(f: Field, norm: NormFn)
    ensures Records(Rk21Estimator(f, norm), Stepper(Heun2, f))
  {
    forall tn: real, h: real, yn: Vec
      ensures Rk21Estimator(f, norm)(tn, h, yn).next == Stepper(Heun2, f)(tn, h, yn)
    {
      StepperAt(Heun2, f, tn, h, yn);
    }
  }

  /** The value `euler_adaptive` records, `2 y2 - y1`, is the improved Euler
      step: the Euler parts cancel and `yn + h f(tn + h/2, half)` remains. */
  lemma EulerAdaptiveIsEulerImproved(f: Field, norm: NormFn, tn: real, h: real, yn: Vec)
    ensures EulerAdaptiveEstimate(f, norm, tn, h, yn).next == EulerImprovedStep(f, tn, h, yn)
  {
    var fn := f(tn, yn);
    var y1 := Add(yn, Scale(h, fn));
    var half := Add(yn, Scale(h / 2.0, fn));
    var k2 := f(tn + h / 2.0, half);
    var y2 := Add(half, Scale(h / 2.0, k2));
    var l := Sub(Scale(2.0, y2), y1);
    var r := Add(yn, Scale(h, k2));
    forall i | 0 <= i < |yn| ensures l[i] == r[i] {
      assert l[i] == 2.0 * (yn[i] + (h / 2.0) * fn[i] + (h / 2.0) * k2[i]) - (yn[i] + h * fn[i]);
    }
  }

  lemma EulerAdaptiveRecordsEulerImproved(f: Field, norm: NormFn)
    ensures Records(EulerAdaptiveEstimator(f, norm), Stepper(EulerImproved, f))
  {
    forall tn: real, h: real, yn: Vec
      ensures EulerAdaptiveEstimator(f, norm)(tn, h, yn).next == Stepper(EulerImproved, f)(tn, h, yn)
    {
      StepperAt(EulerImproved, f, tn, h, yn);
      EulerAdaptiveIsEulerImproved(f, norm, tn, h, yn);
    }
  }

  /** `rk21`: the loop with Heun's and Euler's estimates. Its record is the
      Heun-2 trajectory on the times it chose. */
  method Rk21Solve(f: Field, norm: NormFn, sqrt: SqrtFn, y0: Vec, t0: real, te: real, maxIterations: nat,
                   tol: real := 0.00001, hstart: real := 0.1, scaleFactor: real := 0.9,
                   hmin: real := 0.2, hmax: real := 10.0)
    returns (t: seq<real>, y: seq<Vec>, done: bool)
    requires tol > 0.0 && scaleFactor > 0.0
    ensures var r := Run(Pass(Params(Rk21Estimator(f, norm), sqrt, te, tol, scaleFactor, hmin, hmax)),
                         Start(t0, y0, hstart), maxIterations);
      t == r.t && y == r.y && done == (r.htmp <= 0.0)
    ensures IsTrace(Params(Rk21Estimator(f, norm), sqrt, te, tol, scaleFactor, hmin, hmax), t0, y0, t, y)
    ensures forall k :: 0 <= k < |t| ==> y[k] == Row(Stepper(Heun2, f), y0, t, k)
    ensures Shrinks(Params(Rk21Estimator(f, norm), sqrt, te, tol, scaleFactor, hmin, hmax), t0, hstart)
      ==> t[|t| - 1] <= te
    ensures Shrinks(Params(Rk21Estimator(f, norm), sqrt, te, tol, scaleFactor, hmin, hmax), t0, hstart) && done
      ==> t[|t| - 1] == te
  {
    var p := Params(Rk21Estimator(f, norm), sqrt, te, tol, scaleFactor, hmin, hmax);
    t, y, done := Integrate(p, y0, t0, hstart, maxIterations);
    Rk21RecordsHeun2(f, norm);
    forall k | 0 <= k < |t| ensures y[k] == Row(Stepper(Heun2, f), y0, t, k) {
      TraceIsFixedStep(p, Stepper(Heun2, f), t0, y0, t, y, k);
    }
  }

  /** `euler_adaptive`: the loop with one Euler step against two half steps.
      Its record is the improved Euler trajectory on the times it chose. */
  method EulerAdaptiveSolve(f: Field, norm: NormFn, sqrt: SqrtFn, y0: Vec, t0: real, te: real, maxIterations: nat,
                            tol: real := 0.00001, hstart: real := 0.1, scaleFactor: real := 0.9,
                            hmin: real := 0.2, hmax: real := 10.0)
    returns (t: seq<real>, y: seq<Vec>, done: bool)
    requires tol > 0.0 && scaleFactor > 0.0
    ensures var r := Run(Pass(Params(EulerAdaptiveEstimator(f, norm), sqrt, te, tol, scaleFactor, hmin, hmax)),
                         Start(t0, y0, hstart), maxIterations);
      t == r.t && y == r.y && done == (r.htmp <= 0.0)
    ensures IsTrace(Params(EulerAdaptiveEstimator(f, norm), sqrt, te, tol, scaleFactor, hmin, hmax), t0, y0, t, y)
    ensures forall k :: 0 <= k < |t| ==> y[k] == Row(Stepper(EulerImproved, f), y0, t, k)
    ensures Shrinks(Params(EulerAdaptiveEstimator(f, norm), sqrt, te, tol, scaleFactor, hmin, hmax), t0, hstart)
      ==> t[|t| - 1] <= te
    ensures Shrinks(Params(EulerAdaptiveEstimator(f, norm), sqrt, te, tol, scaleFactor, hmin, hmax), t0, hstart) && done
      ==> t[|t| - 1] == te
  {
    var p := Params(EulerAdaptiveEstimator(f, norm), sqrt, te, tol, scaleFactor, hmin, hmax);
    t, y, done := Integrate(p, y0, t0, hstart, maxIterations);
    EulerAdaptiveRecordsEulerImproved(f, norm);
    forall k | 0 <= k < |t| ensures y[k] == Row(Stepper(EulerImproved, f), y0, t, k) {
      TraceIsFixedStep(p, Stepper(EulerImproved, f), t0, y0, t, y, k);
    }
  }

  // ----- Constant derivative -----

  /** On a constant derivative Heun's and Euler's values agree, so `phi == 0`. */
  lemma Rk21ExactOnConstantField(f: Field, norm: NormFn, c: Vec, tn: real, h: real, yn: Vec)
    requires ConstantField(f, c) && |yn| == |c|
    ensures Rk21Estimate(f, norm, tn, h, yn).phi == 0.0
  {
    var k1 := f(tn, yn);
    var k2 := f(tn + h, Add(yn, Scale(h, k1)));
    assert k1 == c && k2 == c;
    var y1 := Add(yn, Scale(h / 2.0, Add(k1, k2)));
    var y2 := Add(yn, Scale(h, k1));
    var d := Sub(y2, y1);
    forall i | 0 <= i < |d| ensures d[i] == 0.0 {
      assert d[i] == (yn[i] + h * c[i]) - (yn[i] + (h / 2.0) * (c[i] + c[i]));
    }
    assert d == Zeros(|yn|);
  }

  /** On a constant derivative one full and two half Euler steps agree, so `phi == 0`. */
  lemma EulerAdaptiveExactOnConstantField(f: Field, norm: NormFn, c: Vec, tn: real, h: real, yn: Vec)
    requires ConstantField(f, c) && |yn| == |c|
    ensures EulerAdaptiveEstimate(f, norm, tn, h, yn).phi == 0.0
  {
    var fn := f(tn, yn);
    var y1 := Add(yn, Scale(h, fn));
    var half := Add(yn, Scale(h / 2.0, fn));
    var k2 := f(tn + h / 2.0, half);
    assert fn == c && k2 == c;
    var y2 := Add(half, Scale(h / 2.0, k2));
    var d := Sub(y2, y1);
    forall i | 0 <= i < |d| ensures d[i] == 0.0 {
      assert d[i] == (yn[i] + (h / 2.0) * c[i] + (h / 2.0) * c[i]) - (yn[i] + h * c[i]);
    }
    assert d == Zeros(|yn|);
  }

  /** A pass whose estimates agree (`phi == 0`) is accepted, and the new trial
      step is `hmax` times the current one, clamped at `te`. */
  lemma AcceptsWhenExact(p: Params, s: State)
    requires ValidParams(p)
    requires Shaped(s) && p.estimate(s.t[s.n], s.htmp, s.y[s.n]).phi == 0.0
    ensures !Rejects(p, s)
    ensures Iterate(p, s).htmp == Min(p.te - (s.t[s.n] + s.htmp), p.hmax * s.htmp)
  {
  }
}
