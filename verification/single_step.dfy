/** The fixed-step single-step integrators: explicit Euler, improved Euler,
    Heun-2, Ralston, the generalised two-stage Runge-Kutta method, Heun-3 and
    classical RK4. Each one allocates a `len(t) x len(y0)` buffer, stores `y0`
    in row 0 and fills row `n+1` from row `n` with step `h = t[n+1] - t[n]`.
    The stage formulas are the methods' Butcher tableaux over exact reals. */
module SingleStep {
  import opened Vectors
  import opened Results

  /** Which single-step scheme to run; `GRk2` carries its parameter alpha. */
  datatype Method = EulerExp | EulerImproved | Heun2 | Ralston | GRk2(alpha: real) | Heun3 | Rk4

  /** The generalised method divides by `2 * alpha`. */
  predicate WellFormed(m: Method) {
    m.GRk2? ==> m.alpha != 0.0
  }

  /** Explicit Euler: `y + h k1`, `k1 = f(t, y)`. */
  function EulerExpStep(f: Field, tn: real, h: real, y: Vec): Vec {
    Add(y, Scale(h, f(tn, y)))
  }

  /** Improved Euler: `k2` is taken at the half step; `y + h k2`. */
  function EulerImprovedStep(f: Field, tn: real, h: real, y: Vec): Vec {
    var k1 := f(tn, y);
    var k2 := f(tn + h / 2.0, Add(y, Scale(h / 2.0, k1)));
    Add(y, Scale(h, k2))
  }

  /** Heun-2: `k2` is taken at the full step; `y + (h/2)(k1 + k2)`. */
  function Heun2Step(f: Field, tn: real, h: real, y: Vec): Vec {
    var k1 := f(tn, y);
    var k2 := f(tn + h, Add(y, Scale(h, k1)));
    Add(y, Scale(h / 2.0, Add(k1, k2)))
  }

  /** Ralston: `k2` is taken at two thirds of the step; `y + (h/4)(k1 + 3 k2)`. */
  function RalstonStep(f: Field, tn: real, h: real, y: Vec): Vec {
    var k1 := f(tn, y);
    var k2 := f(tn + (2.0 / 3.0) * h, Add(y, Scale(h * (2.0 / 3.0), k1)));
    Add(y, Scale(h / 4.0, Add(k1, Scale(3.0, k2))))
  }

  /** Generalised RK2: `k2` at `alpha h`; `y + (h / 2 alpha)((2 alpha - 1) k1 + k2)`. */
  function GRk2Step(f: Field, alpha: real, tn: real, h: real, y: Vec): Vec
    requires alpha != 0.0
  {
    var k1 := f(tn, y);
    var k2 := f(tn + alpha * h, Add(y, Scale(h * alpha, k1)));
    Add(y, Scale(h / (2.0 * alpha), Add(Scale(2.0 * alpha - 1.0, k1), k2)))
  }

  /** Heun-3: stages at 0, h/3 and 2h/3; `y + (h/4)(k1 + 3 k3)`. */
  function Heun3Step(f: Field, tn: real, h: real, y: Vec): Vec {
    var k1 := f(tn, y);
    var k2 := f(tn + h / 3.0, Add(y, Scale(h / 3.0, k1)));
    var k3 := f(tn + (2.0 / 3.0) * h, Add(y, Scale((2.0 / 3.0) * h, k2)));
    Add(y, Scale(h / 4.0, Add(k1, Scale(3.0, k3))))
  }

  /** Classical RK4: `y + (h/6)(k1 + 2 k2 + 2 k3 + k4)`. */
  function Rk4Step(f: Field, tn: real, h: real, y: Vec): Vec {
    var k1 := f(tn, y);
    var k2 := f(tn + h / 2.0, Add(y, Scale(h / 2.0, k1)));
    var k3 := f(tn + h / 2.0, Add(y, Scale(h / 2.0, k2)));
    var k4 := f(tn + h, Add(y, Scale(h, k3)));
    Add(y, Scale(h / 6.0, Add(Add(Add(k1, Scale(2.0, k2)), Scale(2.0, k3)), k4)))
  }

  /** One step of method `m` from `(tn, y)` with step `h`; it keeps the dimension. */
  function Step(m: Method, f: Field, tn: real, h: real, y: Vec): (r: Vec)
    requires WellFormed(m)
    ensures |r| == |y|
  {
    match m
    case EulerExp => EulerExpStep(f, tn, h, y)
    case EulerImproved => EulerImprovedStep(f, tn, h, y)
    case Heun2 => Heun2Step(f, tn, h, y)
    case Ralston => RalstonStep(f, tn, h, y)
    case GRk2(alpha) => GRk2Step(f, alpha, tn, h, y)
    case Heun3 => Heun3Step(f, tn, h, y)
    case Rk4 => Rk4Step(f, tn, h, y)
  }

  /** A one-step map `(tn, h, y) -> y_next` that keeps the dimension. */
  type StepFn = s: (real, real, Vec) -> Vec | forall tn: real, h: real, y: Vec :: |s(tn, h, y)| == |y|
    witness (tn: real, h: real, y: Vec) => y

  /** Method `m` on derivative `f`, as a one-step map. */
  function Stepper(m: Method, f: Field): StepFn
    requires WellFormed(m)
  {
    (tn: real, h: real, y: Vec) => Step(m, f, tn, h, y)
  }

  lemma StepperAt(m: Method, f: Field, tn: real, h: real, y: Vec)
    requires WellFormed(m)
    ensures Stepper(m, f)(tn, h, y) == Step(m, f, tn, h, y)
  {
  }

  /** Row `n` of the trajectory that `step` produces on grid `t` from `y0`:
      `y0` for `n = 0`, otherwise one step from row `n-1` with `h = t[n] - t[n-1]`.
      Every row has the dimension of `y0`. */
  function Row(step: StepFn, y0: Vec, t: seq<real>, n: nat): (r: Vec)
    requires n < |t|
    ensures |r| == |y0|
    decreases n
  {
    if n == 0 then y0
    else step(t[n - 1], t[n] - t[n - 1], Row(step, y0, t, n - 1))
  }

  lemma RowNext(step: StepFn, y0: Vec, t: seq<real>, n: nat)
    requires n + 1 < |t|
    ensures Row(step, y0, t, n + 1) == step(t[n], t[n + 1] - t[n], Row(step, y0, t, n))
  {
  }

  /** The shared stepping loop: allocate the zero buffer, store `y0` in row 0,
      then fill row `n+1` from row `n` alone, leaving later rows untouched. */
  method Solve(step: StepFn, y0: Vec, t: seq<real>) returns (y: array<Vec>)
    requires |t| >= 1
    ensures fresh(y) && y.Length == |t|
    ensures forall k {:trigger Row(step, y0, t, k)} :: 0 <= k < |t| ==> y[k] == Row(step, y0, t, k)
  {
    var zero := Zeros(|y0|);
    y := new Vec[|t|](_ => zero);
    y[0] := y0;
    var n := 0;
    while n < |t| - 1
      invariant 0 <= n < |t| == y.Length
      invariant forall k {:trigger Row(step, y0, t, k)} :: 0 <= k <= n ==> y[k] == Row(step, y0, t, k)
      invariant forall k {:trigger y[k]} :: n < k < |t| ==> y[k] == zero
    {
      var h := t[n + 1] - t[n];
      ghost var before := y[..];
      var next := step(t[n], h, y[n]);
      RowNext(step, y0, t, n);
      y[n + 1] := next;
      assert y[..] == before[n + 1 := next];
      n := n + 1;
    }
  }

  /** What every wrapper below promises: `len(t)` rows of dimension `len(y0)`,
      row 0 is `y0`, and each later row is one step from the row before. */
  ghost predicate IsTrajectory(step: StepFn, y0: Vec, t: seq<real>, y: seq<Vec>) {
    |y| == |t| >= 1 &&
    y[0] == y0 &&
    (forall k :: 0 <= k < |y| ==> |y[k]| == |y0|) &&
    (forall n :: 0 <= n < |t| - 1 ==> y[n + 1] == step(t[n], t[n + 1] - t[n], y[n]))
  }

  /** The rows form a trajectory. */
  lemma {:induction false} RowsAreTrajectory(step: StepFn, y0: Vec, t: seq<real>, y: seq<Vec>)
    requires |y| == |t| >= 1
    requires forall k :: 0 <= k < |t| ==> y[k] == Row(step, y0, t, k)
    ensures IsTrajectory(step, y0, t, y)
  {
    forall n | 0 <= n < |t| - 1
      ensures y[n + 1] == step(t[n], t[n + 1] - t[n], y[n])
    {
      assert y[n + 1] == Row(step, y0, t, n + 1);
    }
  }

  /** A trajectory is determined by the step, `y0` and `t`: it is the row function. */
  lemma {:induction false} TrajectoryIsRows(step: StepFn, y0: Vec, t: seq<real>, y: seq<Vec>, n: nat)
    requires IsTrajectory(step, y0, t, y)
    requires n < |t|
    ensures y[n] == Row(step, y0, t, n)
    decreases n
  {
    if n > 0 {
      TrajectoryIsRows(step, y0, t, y, n - 1);
    }
  }

  /** On a trajectory of method `m`, row `n+1` is one step of `m` from row `n`. */
  lemma StepRecurrence(m: Method, f: Field, y0: Vec, t: seq<real>, y: seq<Vec>)
    requires WellFormed(m)
    requires IsTrajectory(Stepper(m, f), y0, t, y)
    ensures forall n :: 0 <= n < |t| - 1 ==> y[n + 1] == Step(m, f, t[n], t[n + 1] - t[n], y[n])
  {
    forall n | 0 <= n < |t| - 1
      ensures y[n + 1] == Step(m, f, t[n], t[n + 1] - t[n], y[n])
    {
      StepperAt(m, f, t[n], t[n + 1] - t[n], y[n]);
    }
  }

  method EulerExpSolve(f: Field, y0: Vec, t: seq<real>) returns (r: Result<array<Vec>>)
    ensures r.Failure? <==> |t| == 0
    ensures r.Failure? ==> r.error == IndexError
    ensures r.Ok? ==> fresh(r.value) && IsTrajectory(Stepper(EulerExp, f), y0, t, r.value[..])
    ensures r.Ok? ==> forall n :: 0 <= n < |t| - 1 ==>
      r.value[n + 1] == EulerExpStep(f, t[n], t[n + 1] - t[n], r.value[n])
  {
    if |t| == 0 {
      return Failure(IndexError);
    }
    var y := Solve(Stepper(EulerExp, f), y0, t);
    RowsAreTrajectory(Stepper(EulerExp, f), y0, t, y[..]);
    StepRecurrence(EulerExp, f, y0, t, y[..]);
    return Ok(y);
  }

  method EulerImprovedSolve(f: Field, y0: Vec, t: seq<real>) returns (r: Result<array<Vec>>)
    ensures r.Failure? <==> |t| == 0
    ensures r.Failure? ==> r.error == IndexError
    ensures r.Ok? ==> fresh(r.value) && IsTrajectory(Stepper(EulerImproved, f), y0, t, r.value[..])
    ensures r.Ok? ==> forall n :: 0 <= n < |t| - 1 ==>
      r.value[n + 1] == EulerImprovedStep(f, t[n], t[n + 1] - t[n], r.value[n])
  {
    if |t| == 0 {
      return Failure(IndexError);
    }
    var y := Solve(Stepper(EulerImproved, f), y0, t);
    RowsAreTrajectory(Stepper(EulerImproved, f), y0, t, y[..]);
    StepRecurrence(EulerImproved, f, y0, t, y[..]);
    return Ok(y);
  }

  method Heun2Solve(f: Field, y0: Vec, t: seq<real>) returns (r: Result<array<Vec>>)
    ensures r.Failure? <==> |t| == 0
    ensures r.Failure? ==> r.error == IndexError
    ensures r.Ok? ==> fresh(r.value) && IsTrajectory(Stepper(Heun2, f), y0, t, r.value[..])
    ensures r.Ok? ==> forall n :: 0 <= n < |t| - 1 ==>
      r.value[n + 1] == Heun2Step(f, t[n], t[n + 1] - t[n], r.value[n])
  {
    if |t| == 0 {
      return Failure(IndexError);
    }
    var y := Solve(Stepper(Heun2, f), y0, t);
    RowsAreTrajectory(Stepper(Heun2, f), y0, t, y[..]);
    StepRecurrence(Heun2, f, y0, t, y[..]);
    return Ok(y);
  }

  method RalstonSolve(f: Field, y0: Vec, t: seq<real>) returns (r: Result<array<Vec>>)
    ensures r.Failure? <==> |t| == 0
    ensures r.Failure? ==> r.error == IndexError
    ensures r.Ok? ==> fresh(r.value) && IsTrajectory(Stepper(Ralston, f), y0, t, r.value[..])
    ensures r.Ok? ==> forall n :: 0 <= n < |t| - 1 ==>
      r.value[n + 1] == RalstonStep(f, t[n], t[n + 1] - t[n], r.value[n])
  {
    if |t| == 0 {
      return Failure(IndexError);
    }
    var y := Solve(Stepper(Ralston, f), y0, t);
    RowsAreTrajectory(Stepper(Ralston, f), y0, t, y[..]);
    StepRecurrence(Ralston, f, y0, t, y[..]);
    return Ok(y);
  }

  /** `g_rk2` divides by `2 alpha`: with `alpha = 0` every step it takes is
      undefined, so only a grid without steps gives a result. */
  method GRk2Solve(f: Field, y0: Vec, t: seq<real>, alpha: real := 0.5) returns (r: Result<array<Vec>>)
    ensures r.Failure? <==> |t| == 0 || (alpha == 0.0 && |t| >= 2)
    ensures r.Failure? ==> r.error == (if |t| == 0 then IndexError else DivisionByZero)
    ensures r.Ok? ==> fresh(r.value) && r.value.Length == |t| && r.value[0] == y0
    ensures r.Ok? && alpha != 0.0 ==> IsTrajectory(Stepper(GRk2(alpha), f), y0, t, r.value[..])
    ensures r.Ok? && alpha != 0.0 ==> forall n :: 0 <= n < |t| - 1 ==>
      r.value[n + 1] == GRk2Step(f, alpha, t[n], t[n + 1] - t[n], r.value[n])
  {
    if |t| == 0 {
      return Failure(IndexError);
    }
    if alpha == 0.0 {
      if |t| >= 2 {
        return Failure(DivisionByZero);
      }
      var y := new Vec[1](_ => y0);
      return Ok(y);
    }
    var y := Solve(Stepper(GRk2(alpha), f), y0, t);
    RowsAreTrajectory(Stepper(GRk2(alpha), f), y0, t, y[..]);
    StepRecurrence(GRk2(alpha), f, y0, t, y[..]);
    return Ok(y);
  }

  method Heun3Solve(f: Field, y0: Vec, t: seq<real>) returns (r: Result<array<Vec>>)
    ensures r.Failure? <==> |t| == 0
    ensures r.Failure? ==> r.error == IndexError
    ensures r.Ok? ==> fresh(r.value) && IsTrajectory(Stepper(Heun3, f), y0, t, r.value[..])
    ensures r.Ok? ==> forall n :: 0 <= n < |t| - 1 ==>
      r.value[n + 1] == Heun3Step(f, t[n], t[n + 1] - t[n], r.value[n])
  {
    if |t| == 0 {
      return Failure(IndexError);
    }
    var y := Solve(Stepper(Heun3, f), y0, t);
    RowsAreTrajectory(Stepper(Heun3, f), y0, t, y[..]);
    StepRecurrence(Heun3, f, y0, t, y[..]);
    return Ok(y);
  }

  method Rk4Solve(f: Field, y0: Vec, t: seq<real>) returns (r: Result<array<Vec>>)
    ensures r.Failure? <==> |t| == 0
    ensures r.Failure? ==> r.error == IndexError
    ensures r.Ok? ==> fresh(r.value) && IsTrajectory(Stepper(Rk4, f), y0, t, r.value[..])
    ensures r.Ok? ==> forall n :: 0 <= n < |t| - 1 ==>
      r.value[n + 1] == Rk4Step(f, t[n], t[n + 1] - t[n], r.value[n])
  {
    if |t| == 0 {
      return Failure(IndexError);
    }
    var y := Solve(Stepper(Rk4, f), y0, t);
    RowsAreTrajectory(Stepper(Rk4, f), y0, t, y[..]);
    StepRecurrence(Rk4, f, y0, t, y[..]);
    return Ok(y);
  }

  // ----- The generalised method and its three named instances -----

  /** Two one-step maps that agree everywhere produce the same rows. */
  lemma {:induction false} SameStepsSameRows(s1: StepFn, s2: StepFn, y0: Vec, t: seq<real>, n: nat)
    requires n < |t|
    requires forall tn: real, h: real, y: Vec :: s1(tn, h, y) == s2(tn, h, y)
    ensures Row(s1, y0, t, n) == Row(s2, y0, t, n)
    decreases n
  {
    if n > 0 {
      SameStepsSameRows(s1, s2, y0, t, n - 1);
    }
  }

  lemma GRk2HalfStep(f: Field, tn: real, h: real, y: Vec)
    ensures GRk2Step(f, 0.5, tn, h, y) == EulerImprovedStep(f, tn, h, y)
  {
    var k1 := f(tn, y);
    assert h * 0.5 == h / 2.0 && 0.5 * h == h / 2.0;
    var k2 := f(tn + h / 2.0, Add(y, Scale(h / 2.0, k1)));
    assert Add(Scale(2.0 * 0.5 - 1.0, k1), k2) == k2;
  }

  lemma GRk2OneStep(f: Field, tn: real, h: real, y: Vec)
    ensures GRk2Step(f, 1.0, tn, h, y) == Heun2Step(f, tn, h, y)
  {
    var k1 := f(tn, y);
    assert Scale(h * 1.0, k1) == Scale(h, k1);
    assert Scale(2.0 * 1.0 - 1.0, k1) == k1;
  }

  lemma GRk2TwoThirdsStep(f: Field, tn: real, h: real, y: Vec)
    ensures GRk2Step(f, 2.0 / 3.0, tn, h, y) == RalstonStep(f, tn, h, y)
  {
    var k1 := f(tn, y);
    var k2 := f(tn + (2.0 / 3.0) * h, Add(y, Scale(h * (2.0 / 3.0), k1)));
    var g := Scale(h / (2.0 * (2.0 / 3.0)), Add(Scale(2.0 * (2.0 / 3.0) - 1.0, k1), k2));
    var r := Scale(h / 4.0, Add(k1, Scale(3.0, k2)));
    forall i | 0 <= i < |g| ensures g[i] == r[i] {
      assert g[i] == (3.0 * h / 4.0) * ((1.0 / 3.0) * k1[i] + k2[i]);
    }
  }

  /** The generalised method with alpha = 1/2, 1 and 2/3 gives exactly the
      trajectories of improved Euler, Heun-2 and Ralston. */
  lemma GRk2Instances(f: Field, y0: Vec, t: seq<real>, n: nat)
    requires n < |t|
    ensures Row(Stepper(GRk2(0.5), f), y0, t, n) == Row(Stepper(EulerImproved, f), y0, t, n)
    ensures Row(Stepper(GRk2(1.0), f), y0, t, n) == Row(Stepper(Heun2, f), y0, t, n)
    ensures Row(Stepper(GRk2(2.0 / 3.0), f), y0, t, n) == Row(Stepper(Ralston, f), y0, t, n)
  {
    forall tn: real, h: real, y: Vec
      ensures Stepper(GRk2(0.5), f)(tn, h, y) == Stepper(EulerImproved, f)(tn, h, y)
      ensures Stepper(GRk2(1.0), f)(tn, h, y) == Stepper(Heun2, f)(tn, h, y)
      ensures Stepper(GRk2(2.0 / 3.0), f)(tn, h, y) == Stepper(Ralston, f)(tn, h, y)
    {
      GRk2HalfStep(f, tn, h, y);
      GRk2OneStep(f, tn, h, y);
      GRk2TwoThirdsStep(f, tn, h, y);
    }
    SameStepsSameRows(Stepper(GRk2(0.5), f), Stepper(EulerImproved, f), y0, t, n);
    SameStepsSameRows(Stepper(GRk2(1.0), f), Stepper(Heun2, f), y0, t, n);
    SameStepsSameRows(Stepper(GRk2(2.0 / 3.0), f), Stepper(Ralston, f), y0, t, n);
  }

  // ----- Constant derivative: every method is exact -----

  lemma EulerExpOnConstant(f: Field, c: Vec, tn: real, h: real, y: Vec)
    requires ConstantField(f, c) && |y| == |c|
    ensures EulerExpStep(f, tn, h, y) == Add(y, Scale(h, c))
  {
    assert f(tn, y) == c;
  }

  lemma EulerImprovedOnConstant(f: Field, c: Vec, tn: real, h: real, y: Vec)
    requires ConstantField(f, c) && |y| == |c|
    ensures EulerImprovedStep(f, tn, h, y) == Add(y, Scale(h, c))
  {
    var k1 := f(tn, y);
    assert k1 == c;
    assert f(tn + h / 2.0, Add(y, Scale(h / 2.0, k1))) == c;
  }

  lemma Heun2OnConstant(f: Field, c: Vec, tn: real, h: real, y: Vec)
    requires ConstantField(f, c) && |y| == |c|
    ensures Heun2Step(f, tn, h, y) == Add(y, Scale(h, c))
  {
    var k1 := f(tn, y);
    assert k1 == c;
    assert f(tn + h, Add(y, Scale(h, k1))) == c;
    var r := Heun2Step(f, tn, h, y);
    forall i | 0 <= i < |r| ensures r[i] == y[i] + h * c[i] {
      assert r[i] == y[i] + (h / 2.0) * (c[i] + c[i]);
    }
    ConstantIncrement(y, c, h, r);
  }

  lemma RalstonOnConstant(f: Field, c: Vec, tn: real, h: real, y: Vec)
    requires ConstantField(f, c) && |y| == |c|
    ensures RalstonStep(f, tn, h, y) == Add(y, Scale(h, c))
  {
    var k1 := f(tn, y);
    assert k1 == c;
    assert f(tn + (2.0 / 3.0) * h, Add(y, Scale(h * (2.0 / 3.0), k1))) == c;
    var r := RalstonStep(f, tn, h, y);
    forall i | 0 <= i < |r| ensures r[i] == y[i] + h * c[i] {
      assert r[i] == y[i] + (h / 4.0) * (c[i] + 3.0 * c[i]);
    }
    ConstantIncrement(y, c, h, r);
  }

  lemma GRk2OnConstant(f: Field, alpha: real, c: Vec, tn: real, h: real, y: Vec)
    requires alpha != 0.0
    requires ConstantField(f, c) && |y| == |c|
    ensures GRk2Step(f, alpha, tn, h, y) == Add(y, Scale(h, c))
  {
    var k1 := f(tn, y);
    assert k1 == c;
    assert f(tn + alpha * h, Add(y, Scale(h * alpha, k1))) == c;
    var r := GRk2Step(f, alpha, tn, h, y);
    var q := h / (2.0 * alpha);
    assert q * (2.0 * alpha) == h;
    forall i | 0 <= i < |r| ensures r[i] == y[i] + h * c[i] {
      assert r[i] == y[i] + q * ((2.0 * alpha - 1.0) * c[i] + c[i]);
      assert q * ((2.0 * alpha - 1.0) * c[i] + c[i]) == (q * (2.0 * alpha)) * c[i];
    }
    ConstantIncrement(y, c, h, r);
  }

  lemma Heun3OnConstant(f: Field, c: Vec, tn: real, h: real, y: Vec)
    requires ConstantField(f, c) && |y| == |c|
    ensures Heun3Step(f, tn, h, y) == Add(y, Scale(h, c))
  {
    var k1 := f(tn, y);
    assert k1 == c;
    var k2 := f(tn + h / 3.0, Add(y, Scale(h / 3.0, k1)));
    assert k2 == c;
    assert f(tn + (2.0 / 3.0) * h, Add(y, Scale((2.0 / 3.0) * h, k2))) == c;
    var r := Heun3Step(f, tn, h, y);
    forall i | 0 <= i < |r| ensures r[i] == y[i] + h * c[i] {
      assert r[i] == y[i] + (h / 4.0) * (c[i] + 3.0 * c[i]);
    }
    ConstantIncrement(y, c, h, r);
  }

  lemma Rk4OnConstant(f: Field, c: Vec, tn: real, h: real, y: Vec)
    requires ConstantField(f, c) && |y| == |c|
    ensures Rk4Step(f, tn, h, y) == Add(y, Scale(h, c))
  {
    var k1 := f(tn, y);
    assert k1 == c;
    var k2 := f(tn + h / 2.0, Add(y, Scale(h / 2.0, k1)));
    assert k2 == c;
    var k3 := f(tn + h / 2.0, Add(y, Scale(h / 2.0, k2)));
    assert k3 == c;
    assert f(tn + h, Add(y, Scale(h, k3))) == c;
    var r := Rk4Step(f, tn, h, y);
    forall i | 0 <= i < |r| ensures r[i] == y[i] + h * c[i] {
      assert r[i] == y[i] + (h / 6.0) * (c[i] + 2.0 * c[i] + 2.0 * c[i] + c[i]);
    }
    ConstantIncrement(y, c, h, r);
  }

  /** For a constant derivative `c`, one step of any method is `y + h c`:
      each tableau's weights sum to one. */
  lemma StepOnConstantField(m: Method, f: Field, c: Vec, tn: real, h: real, y: Vec)
    requires WellFormed(m)
    requires ConstantField(f, c)
    requires |y| == |c|
    ensures Stepper(m, f)(tn, h, y) == Add(y, Scale(h, c))
  {
    StepperAt(m, f, tn, h, y);
    match m
    case EulerExp => EulerExpOnConstant(f, c, tn, h, y);
    case EulerImproved => EulerImprovedOnConstant(f, c, tn, h, y);
    case Heun2 => Heun2OnConstant(f, c, tn, h, y);
    case Ralston => RalstonOnConstant(f, c, tn, h, y);
    case GRk2(alpha) => GRk2OnConstant(f, alpha, c, tn, h, y);
    case Heun3 => Heun3OnConstant(f, c, tn, h, y);
    case Rk4 => Rk4OnConstant(f, c, tn, h, y);
  }

  /** `step` advances every state of dimension `|c|` by `h c`. */
  ghost predicate AddsConstant(step: StepFn, c: Vec) {
    forall tn: real, h: real, y: Vec :: |y| == |c| ==> step(tn, h, y) == Add(y, Scale(h, c))
  }

  /** A step that advances by `h c` produces `y0 + (t[n] - t[0]) c` at grid point `n`. */
  lemma {:induction false} RowOfConstantIncrement(step: StepFn, c: Vec, y0: Vec, t: seq<real>, n: nat)
    requires AddsConstant(step, c)
    requires |y0| == |c|
    requires n < |t|
    ensures Row(step, y0, t, n) == Add(y0, Scale(t[n] - t[0], c))
    decreases n
  {
    if n == 0 {
      AddZeroScale(y0, c);
    } else {
      RowOfConstantIncrement(step, c, y0, t, n - 1);
      AdvanceConstant(step, c, y0, Row(step, y0, t, n - 1), t[n - 1], t[n] - t[n - 1], t[n - 1] - t[0], t[n] - t[0]);
    }
  }

  /** One step that advances by `h c` from `y0 + a c` reaches `y0 + s c`, where `s = a + h`. */
  lemma AdvanceConstant(step: StepFn, c: Vec, y0: Vec, prev: Vec, tn: real, h: real, a: real, s: real)
    requires AddsConstant(step, c)
    requires |y0| == |c|
    requires prev == Add(y0, Scale(a, c))
    requires a + h == s
    ensures step(tn, h, prev) == Add(y0, Scale(s, c))
  {
    assert step(tn, h, prev) == Add(prev, Scale(h, c));
    AddScales(y0, a, h, c, s);
  }

  /** For a constant derivative `c`, every method reproduces the exact
      solution `y0 + (t[n] - t[0]) c` at every grid point. */
  lemma RowOnConstantField(m: Method, f: Field, c: Vec, y0: Vec, t: seq<real>, n: nat)
    requires WellFormed(m)
    requires ConstantField(f, c)
    requires |y0| == |c|
    requires n < |t|
    ensures Row(Stepper(m, f), y0, t, n) == Add(y0, Scale(t[n] - t[0], c))
  {
    forall tn: real, h: real, y: Vec | |y| == |c|
      ensures Stepper(m, f)(tn, h, y) == Add(y, Scale(h, c))
    {
      StepOnConstantField(m, f, c, tn, h, y);
    }
    RowOfConstantIncrement(Stepper(m, f), c, y0, t, n);
  }
}
