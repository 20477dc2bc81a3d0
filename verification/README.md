# Explicit ODE integrators in Dafny

This project models the integrator library `explicit.py` over exact real arithmetic.
The library solves `y' = f(t, y)` with three families of explicit methods:

- **Fixed-step single-step methods.** These are `euler_exp`, `euler_improved`, `heun2`,
  `ralston`, `g_rk2`, `heun3` and `rk4`. Each one allocates a `len(t) x len(y0)` buffer,
  stores `y0` in row 0, and fills row `n+1` from row `n` with step `h = t[n+1] - t[n]`,
  using the stages of the method's Butcher tableau.
- **Adams-Bashforth multi-step methods.** These are `ab2` and `ab3`. The caller supplies
  two or three starting rows. Row `n+2` (`n+3`) is extrapolated from the previous two
  (three) rows, with `h = t[n+1] - t[n]` taken from the first interval of the window.
- **Adaptive controllers.** These are `rk21` and `euler_adaptive`: an accept/reject loop
  over `(n, htmp, t, y)`. Each pass computes two estimates and an error indicator `phi`.
  It then computes a new trial step `hneu = htmp * min(max(scale_factor sqrt(tol/phi),
  hmin), hmax)`.
  - A pass with `phi > tol` only replaces `htmp`.
  - Any other pass appends `t[n] + htmp` and the more accurate estimate, and sets
    `htmp = min(te - t[n+1], hneu)`.

  The loop ends once `htmp <= 0`.

Modules, one per file:

- `Vectors` (`vectors.dfy`): state vectors as `seq<real>` with component-wise `Add`,
  `Sub` and `Scale`. The derivative `f` is a `Field`, a function that keeps the dimension.
- `Results` (`results.dfy`): `Result` and `Error` describe a call that fails.
- `SingleStep` (`single_step.dfy`):
  - The seven step functions.
  - The generic buffer-filling loop `Solve` over an array of rows, proved equal to the
    recursive row function `Row`.
  - One method per integrator.
  - The `g_rk2` specialisations.
  - Exactness on a constant derivative.
- `AdamsBashforth` (`adams_bashforth.dfy`):
  - The two- and three-step updates.
  - Their loops `Solve2` and `Solve3`, proved equal to `Row2` and `Row3`.
  - The methods `Ab2` and `Ab3`.
  - Exactness on a constant derivative and a uniform grid.
- `Adaptive` (`adaptive.dfy`):
  - The two estimators.
  - The step-size rule.
  - The loop `Integrate`, proved equal to a pass function iterated by `Run`.
  - The invariants of the record it builds: equal lengths, strictly increasing times,
    every step accepted with `phi <= tol`, and ending at `te`.
  - The two controllers `Rk21Solve` and `EulerAdaptiveSolve`.

`sqrt` and the Euclidean norm are parameters of the adaptive methods. They are known only
through the properties the controller needs:
- The square root is nonnegative, and at most 1 on `[0, 1]`.
- The norm is nonnegative, and zero on the zero vector.

Where the doc comment of `ab3` (explicit.py:124-127) and its code (explicit.py:135)
disagree, the code is modelled. The doc comment writes `y_{n+1}` and `- (5/12)`. The code
computes `y[n+2] + h ((23/12) f2 - (16/12) f1 + (5/12) f0)`.
Likewise, the comment at explicit.py:213 says the value `rk21` records equals the improved
Euler method. The code at explicit.py:203 records the Heun-2 step, and the model follows the
code. In this file `euler_improved` (explicit.py:37-41) is the midpoint method.

The default arguments of the source are the Dafny defaults of the corresponding parameters:
`alpha = 0.5` for `g_rk2`, and `tol = 1e-5`, `hstart = 0.1`, `scale_factor = 0.9`,
`hmin = 0.2`, `hmax = 10` for both adaptive controllers.

## Model

| member | source | states |
|---|---|---|
| SingleStep.Step | explicit.py:12-182 | one step of any of the seven methods keeps the dimension of the state |
| SingleStep.Row | explicit.py:13-17 | the recursive meaning of the buffer: row 0 is `y0`, row `n` is one step from row `n-1` with `h = t[n] - t[n-1]`; every row has the dimension of `y0` |
| SingleStep.Solve | explicit.py:13-17 | the shared loop allocates exactly `len(t)` rows and every row `k` equals `Row(step, y0, t, k)`, so row `n+1` is the step from row `n` alone |
| SingleStep.RowsAreTrajectory | explicit.py:13-17 | rows equal to the row function form a trajectory: `len(t)` rows of dimension `len(y0)`, row 0 is `y0`, row `n+1` is one step from row `n` |
| SingleStep.TrajectoryIsRows | explicit.py:13-17 | conversely, any trajectory is the row function: the output is determined by the step, `y0` and `t` |
| SingleStep.StepRecurrence | explicit.py:16-17 | on a trajectory of method `m`, row `n+1` is `m`'s tableau step from row `n` with `h = t[n+1] - t[n]` |
| SingleStep.EulerExpSolve | explicit.py:12-18 | `IndexError` exactly when `t` is empty; otherwise a fresh buffer that is a trajectory with `y[n+1] = y[n] + h f(t[n], y[n])` |
| SingleStep.EulerImprovedSolve | explicit.py:32-42 | `IndexError` exactly when `t` is empty; otherwise a trajectory with `y[n+1] = y[n] + h k2`, `k2` taken at the half step |
| SingleStep.Heun2Solve | explicit.py:54-62 | `IndexError` exactly when `t` is empty; otherwise a trajectory with `y[n+1] = y[n] + (h/2)(k1 + k2)`, `k2` taken at the full step |
| SingleStep.RalstonSolve | explicit.py:74-82 | `IndexError` exactly when `t` is empty; otherwise a trajectory with `y[n+1] = y[n] + (h/4)(k1 + 3 k2)`, `k2` taken at two thirds of the step |
| SingleStep.GRk2Solve | explicit.py:99-107 | `IndexError` exactly when `t` is empty, division by zero exactly when `alpha = 0` and a step is taken; otherwise row 0 is `y0` and, for `alpha != 0`, a trajectory with `y[n+1] = y[n] + (h/(2 alpha))((2 alpha - 1) k1 + k2)` |
| SingleStep.Heun3Solve | explicit.py:149-158 | `IndexError` exactly when `t` is empty; otherwise a trajectory with `y[n+1] = y[n] + (h/4)(k1 + 3 k3)`, stages at 0, h/3 and 2h/3 |
| SingleStep.Rk4Solve | explicit.py:172-182 | `IndexError` exactly when `t` is empty; otherwise a trajectory with `y[n+1] = y[n] + (h/6)(k1 + 2 k2 + 2 k3 + k4)` |
| SingleStep.SameStepsSameRows | explicit.py:13-17 | two step maps that agree everywhere produce the same buffer on every grid |
| SingleStep.GRk2HalfStep | explicit.py:94-97 | the generalised step with alpha = 1/2 is the improved Euler step |
| SingleStep.GRk2OneStep | explicit.py:94-97 | the generalised step with alpha = 1 is the Heun-2 step |
| SingleStep.GRk2TwoThirdsStep | explicit.py:94-97 | the generalised step with alpha = 2/3 is the Ralston step |
| SingleStep.GRk2Instances | explicit.py:94-107 | `g_rk2` with alpha = 1/2, 1, 2/3 yields exactly the trajectories of `euler_improved`, `heun2` and `ralston` on every grid |
| SingleStep.EulerExpOnConstant | explicit.py:17 | on a constant derivative `c`, one explicit Euler step is `y + h c` |
| SingleStep.EulerImprovedOnConstant | explicit.py:37-41 | on a constant derivative `c`, one improved Euler step is `y + h c` |
| SingleStep.Heun2OnConstant | explicit.py:59-61 | on a constant derivative `c`, one Heun-2 step is `y + h c` (weights 1/2 + 1/2) |
| SingleStep.RalstonOnConstant | explicit.py:79-81 | on a constant derivative `c`, one Ralston step is `y + h c` (weights 1/4 + 3/4) |
| SingleStep.GRk2OnConstant | explicit.py:104-106 | on a constant derivative `c`, one generalised step is `y + h c` for every `alpha != 0` |
| SingleStep.Heun3OnConstant | explicit.py:154-157 | on a constant derivative `c`, one Heun-3 step is `y + h c` |
| SingleStep.Rk4OnConstant | explicit.py:177-181 | on a constant derivative `c`, one RK4 step is `y + h c` (weights 1/6, 2/6, 2/6, 1/6) |
| SingleStep.StepOnConstantField | explicit.py:12-182 | on a constant derivative every single-step method advances by exactly `h c` |
| SingleStep.RowOfConstantIncrement | explicit.py:13-17 | a step that advances by `h c` puts `y0 + (t[n] - t[0]) c` in row `n`, on any grid |
| SingleStep.RowOnConstantField | explicit.py:12-182 | every single-step method reproduces the exact solution `y0 + (t[n] - t[0]) c` of `y' = c` at every grid point |
| AdamsBashforth.Ab2Update | explicit.py:120 | the two-step extrapolation keeps the dimension of the rows |
| AdamsBashforth.Ab3Update | explicit.py:135 | the three-step extrapolation keeps the dimension of the rows |
| AdamsBashforth.Ab2Window | explicit.py:119-120 | the two-step update with `h` taken from the window's first interval keeps the dimension |
| AdamsBashforth.Ab3Window | explicit.py:134-135 | the three-step update with `h` taken from the window's first interval keeps the dimension |
| AdamsBashforth.Row2 | explicit.py:115-120 | the recursive meaning of the `ab2` buffer: rows 0 and 1 are `y0` and `y1`, row `n` is the update of rows `n-2` and `n-1`; every row has the dimension of `y0` |
| AdamsBashforth.Row3 | explicit.py:129-135 | the recursive meaning of the `ab3` buffer with three starting rows |
| AdamsBashforth.Solve2 | explicit.py:115-121 | the two-step loop allocates `len(t)` rows and every row `k` equals `Row2(u, y0, y1, t, k)` |
| AdamsBashforth.Solve3 | explicit.py:129-136 | the three-step loop allocates `len(t)` rows and every row `k` equals `Row3(u, y0, y1, y2, t, k)` |
| AdamsBashforth.Rows2AreTrajectory | explicit.py:115-120 | those rows keep `y0`, `y1` in rows 0 and 1, have dimension `len(y0)` and satisfy the two-step recurrence |
| AdamsBashforth.Rows3AreTrajectory | explicit.py:129-135 | those rows keep `y0`, `y1`, `y2` in rows 0-2, have dimension `len(y0)` and satisfy the three-step recurrence |
| AdamsBashforth.Ab2Recurrence | explicit.py:119-120 | on an `ab2` trajectory, row `n+2 = y[n+1] + (3/2) h f(t[n+1], y[n+1]) - (1/2) h f(t[n], y[n])` with `h = t[n+1] - t[n]` |
| AdamsBashforth.Ab3Recurrence | explicit.py:134-135 | on an `ab3` trajectory, row `n+3 = y[n+2] + h((23/12) f2 - (16/12) f1 + (5/12) f0)` with `h = t[n+1] - t[n]` |
| AdamsBashforth.Ab2 | explicit.py:114-121 | `IndexError` exactly when `len(t) < 2`; otherwise a fresh buffer keeping `y0`, `y1` with the two-step recurrence in every later row |
| AdamsBashforth.Ab3 | explicit.py:128-136 | `IndexError` exactly when `len(t) < 3`; otherwise a fresh buffer keeping `y0`, `y1`, `y2` with the three-step recurrence in every later row |
| AdamsBashforth.Ab2OnConstantField | explicit.py:120 | on a constant derivative the two-step update adds `h c` (3/2 - 1/2 = 1) |
| AdamsBashforth.Ab3OnConstantField | explicit.py:135 | on a constant derivative the three-step update adds `h c` (23/12 - 16/12 + 5/12 = 1) |
| AdamsBashforth.Ab2WindowOnConstantField | explicit.py:119-120 | on a constant derivative a two-step window advances the newer row by `(t[n+1] - t[n]) c` |
| AdamsBashforth.Ab3WindowOnConstantField | explicit.py:134-135 | on a constant derivative a three-step window advances the newest row by `(t[n+1] - t[n]) c` |
| AdamsBashforth.Rows2OfConstantIncrement | explicit.py:115-120 | a two-step update that advances the newer row by the window's first interval times `c` gives `y0 + (t[n] - t[0]) c` in every row of a uniform grid with exact starting rows |
| AdamsBashforth.Rows3OfConstantIncrement | explicit.py:129-135 | likewise for a three-step update with three exact starting rows |
| AdamsBashforth.Ab2RowOnConstantField | explicit.py:115-120 | on a uniform grid with exact starting rows, `ab2` reproduces `y0 + (t[n] - t[0]) c` at every grid point |
| AdamsBashforth.Ab3RowOnConstantField | explicit.py:129-135 | on a uniform grid with exact starting rows, `ab3` reproduces `y0 + (t[n] - t[0]) c` at every grid point |
| Adaptive.Rk21Estimate | explicit.py:201-206 | `rk21`'s indicator `phi = norm(y2 - y1)` is nonnegative and the Heun value it records has the dimension of `y[n]` |
| Adaptive.EulerAdaptiveEstimate | explicit.py:228-233 | `euler_adaptive`'s indicator `phi = 2 norm(y2 - y1)` is nonnegative and `2 y2 - y1` has the dimension of `y[n]` |
| Adaptive.NewStepBounds | explicit.py:207 | the step ratio is clamped into `[hmin, hmax]`, so `hmin htmp <= hneu <= hmax htmp`, and `hneu > 0` when `hmin > 0` and `htmp > 0` |
| Adaptive.RejectionShrinks | explicit.py:207-209 | with `scale_factor <= 1` and `0 < hmin <= 1`, a rejected step is replaced by a positive step no larger than it |
| Adaptive.Start | explicit.py:196-199 | the loop starts with `n = 0`, `t = [t0]`, `y = [y0]` and equal lengths |
| Adaptive.Iterate | explicit.py:200-215 | one pass keeps `len(t) == len(y) == n + 1` and either keeps `n` or increments it |
| Adaptive.Run | explicit.py:200 | the loop either has not moved or has used at least one pass |
| Adaptive.RejectKeepsRecord | explicit.py:208-209 | a rejected pass (`phi > tol`) leaves `n`, `t` and `y` unchanged and replaces `htmp` by `hneu` |
| Adaptive.AcceptAppends | explicit.py:210-215 | an accepted pass appends exactly `t[n] + htmp` and the estimate's value, increments `n`, and sets `htmp = min(te - t[n+1], hneu)` |
| Adaptive.IterateKeepsTrace | explicit.py:200-215 | a pass keeps the record a trace: starts at `(t0, y0)`, equal lengths, each consecutive pair an accepted step with `phi <= tol` and positive step |
| Adaptive.RunKeepsTrace | explicit.py:200-215 | any number of passes keeps the record shaped and a trace |
| Adaptive.TraceIncreasing | explicit.py:200-212 | recorded times strictly increase |
| Adaptive.IterateOnCourse | explicit.py:207-214 | under the landing conditions, a pass keeps `0 < htmp <= te - t[n]`, or stops with `t[n] = te` |
| Adaptive.RunOnCourse | explicit.py:200-214 | under the landing conditions, that holds after any number of passes |
| Adaptive.RunOutcome | explicit.py:196-216 | from the start the loop yields a trace; under the landing conditions no time passes `te`, and a stopped loop ends exactly at `te` |
| Adaptive.Integrate | explicit.py:196-216 | the imperative loop returns the state `Run` describes, a trace from `(t0, y0)`, times up to `te` and, once stopped, ending at `te` under the landing conditions |
| Adaptive.TraceIsFixedStep | explicit.py:210-213 | when an estimator records the value of a step map, the controller's record is that fixed-step trajectory on the times it chose |
| Adaptive.Rk21RecordsHeun2 | explicit.py:201-213 | the value `rk21` records is the Heun-2 step |
| Adaptive.EulerAdaptiveIsEulerImproved | explicit.py:228-240 | `2 y2 - y1` of `euler_adaptive` equals the improved Euler step |
| Adaptive.EulerAdaptiveRecordsEulerImproved | explicit.py:228-240 | the value `euler_adaptive` records is always the improved Euler step |
| Adaptive.Rk21Solve | explicit.py:195-216 | `rk21` returns exactly the times, states and stop flag of the loop run from `(t0, y0, hstart)`: a trace whose every step had `phi <= tol`, whose states are the Heun-2 trajectory on the returned times, whose times do not pass `te` under the landing conditions and end at `te` once the loop has stopped |
| Adaptive.EulerAdaptiveSolve | explicit.py:222-243 | `euler_adaptive` returns exactly the times, states and stop flag of the loop run: a trace whose states are the improved Euler trajectory on the returned times, bounded by `te` and ending at `te` once stopped, under the landing conditions |
| Adaptive.Rk21ExactOnConstantField | explicit.py:201-206 | on a constant derivative Heun's and Euler's values agree and `phi = 0` |
| Adaptive.EulerAdaptiveExactOnConstantField | explicit.py:228-233 | on a constant derivative one full and two half Euler steps agree and `phi = 0` |
| Adaptive.AcceptsWhenExact | explicit.py:207-214 | a pass with `phi = 0` is accepted and the next trial step is `min(te - t[n+1], hmax htmp)` |

The landing conditions (`Adaptive.Shrinks`) are:
- `tol > 0`
- `0 < scale_factor <= 1`
- `0 < hmin <= 1`
- `hmin <= hmax`
- `0 < hstart <= te - t0`

The source's defaults (`scale_factor = 0.9`, `hmin = 0.2`, `hmax = 10`) meet them.

## Left out

- Floating point: the model computes over exact reals. Rounding, convergence order and accuracy against reference solutions are not modelled.
- numpy's shapes: the buffer is an array of rows, and `np.append` is sequence concatenation.
  - Broadcasting is not modelled. `Ab2` and `Ab3` require starting rows of the dimension of `y0`, and `f` always returns a vector of the dimension it is given.
- AdamsBashforth.Ab3: the complex element type of the `ab3` buffer is modelled as `real`. Every input is real, so no imaginary part arises.
- Adaptive.Integrate: the source loop `while htmp > 0` has no bound. The model stops after at most `maxIterations` passes and reports in `done` whether `htmp <= 0` ended it. Its results hold on every exit; termination is not claimed.
- Adaptive.Integrate: requires `tol > 0` and `scale_factor > 0`. Outside those values numpy's ratio can be NaN or infinite, and IEEE comparisons are not modelled.
- Adaptive.Rk21Solve: ends at `te` only under the landing conditions. Outside them a rejection can enlarge the step past `te - t[n]` and the source overshoots `te`.
- Adaptive.EulerAdaptiveSolve: the same landing conditions apply as for `Rk21Solve`.
- At `phi = 0` numpy's `tol/phi` is infinite and the ratio is clamped to `hmax`; the model writes that case out.
- `np.sqrt` and `np.linalg.norm` are foreign numerics. They are parameters, known only through nonnegativity, `sqrt(x) <= 1` on `[0, 1]`, and norm zero on the zero vector.
- SingleStep.GRk2Solve: with `alpha = 0` and at least one step, the model returns `DivisionByZero`. The source gets NaN rows from numpy, or a `ZeroDivisionError` on plain Python floats.
- `methods/adapt_compare.py` is a benchmarking and plotting script with wall-clock timing, scipy and matplotlib. It has no logic of its own and is not part of this model.
