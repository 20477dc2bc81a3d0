/** The fixed-step Adams-Bashforth integrators with two and three steps.
    The caller supplies the first two (three) rows; each later row is an
    extrapolation from the previous two (three) rows and their derivatives.
    Both methods take one step size per window, `h = t[n+1] - t[n]`, the
    FIRST interval of the window, even on a non-uniform grid. */
module AdamsBashforth {
  import opened Vectors
  import opened Results

  /** Row `n+2` from rows `n` and `n+1`:
      `y[n+1] + (3/2) h f(t[n+1], y[n+1]) - (1/2) h f(t[n], y[n])`. */
  function Ab2Update(f: Field, tn: real, tn1: real, h: real, yn: Vec, yn1: Vec): (r: Vec)
    requires |yn| == |yn1|
    ensures |r| == |yn1|
  {
    Sub(Add(yn1, Scale((3.0 / 2.0) * h, f(tn1, yn1))), Scale((1.0 / 2.0) * h, f(tn, yn)))
  }

  /** Row `n+3` from rows `n`, `n+1` and `n+2`:
      `y[n+2] + h ((23/12) f2 - (16/12) f1 + (5/12) f0)`. */
  function Ab3Update(f: Field, tn: real, tn1: real, tn2: real, h: real, yn: Vec, yn1: Vec, yn2: Vec): (r: Vec)
    requires |yn| == |yn1| == |yn2|
    ensures |r| == |yn2|
  {
    Add(yn2, Scale(h, Add(Sub(Scale(23.0 / 12.0, f(tn2, yn2)), Scale(16.0 / 12.0, f(tn1, yn1))),
                          Scale(5.0 / 12.0, f(tn, yn)))))
  }

  /** A two-step update: the next row from the times and rows of a window of
      two. It keeps the dimension of the rows. */
  type Update2 = u: (real, real, Vec, Vec) -> Vec
    | forall tn: real, tn1: real, yn: Vec, yn1: Vec :: |u(tn, tn1, yn, yn1)| == |yn1|
    witness (tn: real, tn1: real, yn: Vec, yn1: Vec) => yn1

  /** A three-step update, likewise over a window of three. */
  type Update3 = u: (real, real, real, Vec, Vec, Vec) -> Vec
    | forall tn: real, tn1: real, tn2: real, yn: Vec, yn1: Vec, yn2: Vec :: |u(tn, tn1, tn2, yn, yn1, yn2)| == |yn2|
    witness (tn: real, tn1: real, tn2: real, yn: Vec, yn1: Vec, yn2: Vec) => yn2

  /** The two-step Adams-Bashforth update on `f` with `h = tn1 - tn`, as an
      `Update2`; rows of unequal dimension never occur in a trajectory. */
  function Ab2Updater(f: Field): Update2 {
    (tn: real, tn1: real, yn: Vec, yn1: Vec) => Ab2Window(f, tn, tn1, yn, yn1)
  }

  /** `Ab2Update` with `h = tn1 - tn`, and the newer row when the dimensions differ. */
  function Ab2Window(f: Field, tn: real, tn1: real, yn: Vec, yn1: Vec): (r: Vec)
    ensures |r| == |yn1|
  {
    if |yn| == |yn1| then Ab2Update(f, tn, tn1, tn1 - tn, yn, yn1)
    // Only so that `Ab2Updater` is defined on all arguments: rows of a
    // trajectory always have equal dimensions, and the source has no such case.
    else yn1
  }

  /** The three-step Adams-Bashforth update on `f` with `h = tn1 - tn`. */
  function Ab3Updater(f: Field): Update3 {
    (tn: real, tn1: real, tn2: real, yn: Vec, yn1: Vec, yn2: Vec) => Ab3Window(f, tn, tn1, tn2, yn, yn1, yn2)
  }

  /** `Ab3Update` with `h = tn1 - tn`, and the newest row when the dimensions differ. */
  function Ab3Window(f: Field, tn: real, tn1: real, tn2: real, yn: Vec, yn1: Vec, yn2: Vec): (r: Vec)
    ensures |r| == |yn2|
  {
    if |yn| == |yn1| == |yn2| then Ab3Update(f, tn, tn1, tn2, tn1 - tn, yn, yn1, yn2)
    // Only so that `Ab3Updater` is defined on all arguments; no source case.
    else yn2
  }

  lemma Ab2UpdaterAt(f: Field, tn: real, tn1: real, yn: Vec, yn1: Vec)
    requires |yn| == |yn1|
    ensures Ab2Updater(f)(tn, tn1, yn, yn1) == Ab2Update(f, tn, tn1, tn1 - tn, yn, yn1)
  {
  }

  lemma Ab3UpdaterAt(f: Field, tn: real, tn1: real, tn2: real, yn: Vec, yn1: Vec, yn2: Vec)
    requires |yn| == |yn1| == |yn2|
    ensures Ab3Updater(f)(tn, tn1, tn2, yn, yn1, yn2) == Ab3Update(f, tn, tn1, tn2, tn1 - tn, yn, yn1, yn2)
  {
  }

  /** Row `n` of a two-step trajectory: the two starting rows, then updates. */
  function Row2(u: Update2, y0: Vec, y1: Vec, t: seq<real>, n: nat): (r: Vec)
    requires |y1| == |y0|
    requires n < |t|
    ensures |r| == |y0|
    decreases n
  {
    if n == 0 then y0
    else if n == 1 then y1
    else u(t[n - 2], t[n - 1], Row2(u, y0, y1, t, n - 2), Row2(u, y0, y1, t, n - 1))
  }

  /** Row `n` of a three-step trajectory: the three starting rows, then updates. */
  function Row3(u: Update3, y0: Vec, y1: Vec, y2: Vec, t: seq<real>, n: nat): (r: Vec)
    requires |y1| == |y0| && |y2| == |y0|
    requires n < |t|
    ensures |r| == |y0|
    decreases n
  {
    if n == 0 then y0
    else if n == 1 then y1
    else if n == 2 then y2
    else u(t[n - 3], t[n - 2], t[n - 1],
           Row3(u, y0, y1, y2, t, n - 3), Row3(u, y0, y1, y2, t, n - 2), Row3(u, y0, y1, y2, t, n - 1))
  }

  lemma Row2Next(u: Update2, y0: Vec, y1: Vec, t: seq<real>, n: nat)
    requires |y1| == |y0|
    requires n + 2 < |t|
    ensures Row2(u, y0, y1, t, n + 2) == u(t[n], t[n + 1], Row2(u, y0, y1, t, n), Row2(u, y0, y1, t, n + 1))
  {
  }

  lemma Row3Next(u: Update3, y0: Vec, y1: Vec, y2: Vec, t: seq<real>, n: nat)
    requires |y1| == |y0| && |y2| == |y0|
    requires n + 3 < |t|
    ensures Row3(u, y0, y1, y2, t, n + 3)
         == u(t[n], t[n + 1], t[n + 2], Row3(u, y0, y1, y2, t, n), Row3(u, y0, y1, y2, t, n + 1),
              Row3(u, y0, y1, y2, t, n + 2))
  {
  }

  /** A two-step trajectory: `len(t)` rows of dimension `len(y0)`, rows 0 and 1
      are the starting values, and row `n+2` is the update from rows `n`, `n+1`. */
  ghost predicate IsTrajectory2(u: Update2, y0: Vec, y1: Vec, t: seq<real>, y: seq<Vec>) {
    |y| == |t| >= 2 &&
    y[0] == y0 && y[1] == y1 &&
    (forall k :: 0 <= k < |y| ==> |y[k]| == |y0|) &&
    (forall n :: 0 <= n < |t| - 2 ==> y[n + 2] == u(t[n], t[n + 1], y[n], y[n + 1]))
  }

  /** A three-step trajectory, likewise with three starting rows. */
  ghost predicate IsTrajectory3(u: Update3, y0: Vec, y1: Vec, y2: Vec, t: seq<real>, y: seq<Vec>) {
    |y| == |t| >= 3 &&
    y[0] == y0 && y[1] == y1 && y[2] == y2 &&
    (forall k :: 0 <= k < |y| ==> |y[k]| == |y0|) &&
    (forall n :: 0 <= n < |t| - 3 ==> y[n + 3] == u(t[n], t[n + 1], t[n + 2], y[n], y[n + 1], y[n + 2]))
  }

  lemma {:induction false} Rows2AreTrajectory(u: Update2, y0: Vec, y1: Vec, t: seq<real>, y: seq<Vec>)
    requires |y1| == |y0|
    requires |y| == |t| >= 2
    requires forall k :: 0 <= k < |t| ==> y[k] == Row2(u, y0, y1, t, k)
    ensures IsTrajectory2(u, y0, y1, t, y)
  {
    forall n | 0 <= n < |t| - 2
      ensures y[n + 2] == u(t[n], t[n + 1], y[n], y[n + 1])
    {
      Row2Next(u, y0, y1, t, n);
    }
  }

  lemma {:induction false} Rows3AreTrajectory(u: Update3, y0: Vec, y1: Vec, y2: Vec, t: seq<real>, y: seq<Vec>)
    requires |y1| == |y0| && |y2| == |y0|
    requires |y| == |t| >= 3
    requires forall k :: 0 <= k < |t| ==> y[k] == Row3(u, y0, y1, y2, t, k)
    ensures IsTrajectory3(u, y0, y1, y2, t, y)
  {
    forall n | 0 <= n < |t| - 3
      ensures y[n + 3] == u(t[n], t[n + 1], t[n + 2], y[n], y[n + 1], y[n + 2])
    {
      Row3Next(u, y0, y1, y2, t, n);
    }
  }

  /** The first `n + 2` entries of `s` are rows 0 to `n + 1` of the two-step trajectory. */
  ghost predicate Filled2(u: Update2, y0: Vec, y1: Vec, t: seq<real>, s: seq<Vec>, n: nat)
    requires |y1| == |y0|
  {
    |s| == |t| && n + 1 < |t| &&
    forall k {:trigger s[k]} :: 0 <= k <= n + 1 ==> s[k] == Row2(u, y0, y1, t, k)
  }

  /** The first `n + 3` entries of `s` are rows 0 to `n + 2` of the three-step trajectory. */
  ghost predicate Filled3(u: Update3, y0: Vec, y1: Vec, y2: Vec, t: seq<real>, s: seq<Vec>, n: nat)
    requires |y1| == |y0| && |y2| == |y0|
  {
    |s| == |t| && n + 2 < |t| &&
    forall k {:trigger s[k]} :: 0 <= k <= n + 2 ==> s[k] == Row3(u, y0, y1, y2, t, k)
  }

  /** Storing the update of the last window extends the filled prefix by one row. */
  lemma Filled2Step(u: Update2, y0: Vec, y1: Vec, t: seq<real>, s: seq<Vec>, n: nat, next: Vec)
    requires |y1| == |y0|
    requires Filled2(u, y0, y1, t, s, n) && n + 2 < |t|
    requires next == u(t[n], t[n + 1], s[n], s[n + 1])
    ensures Filled2(u, y0, y1, t, s[n + 2 := next], n + 1)
  {
    Row2Next(u, y0, y1, t, n);
  }

  lemma Filled3Step(u: Update3, y0: Vec, y1: Vec, y2: Vec, t: seq<real>, s: seq<Vec>, n: nat, next: Vec)
    requires |y1| == |y0| && |y2| == |y0|
    requires Filled3(u, y0, y1, y2, t, s, n) && n + 3 < |t|
    requires next == u(t[n], t[n + 1], t[n + 2], s[n], s[n + 1], s[n + 2])
    ensures Filled3(u, y0, y1, y2, t, s[n + 3 := next], n + 1)
  {
    Row3Next(u, y0, y1, y2, t, n);
  }

  /** The two-step loop: rows 0 and 1 are `y0`, `y1`; row `n+2` is filled
      from rows `n` and `n+1`. */
  method Solve2(u: Update2, y0: Vec, y1: Vec, t: seq<real>) returns (y: array<Vec>)
    requires |t| >= 2
    requires |y1| == |y0|
    ensures fresh(y) && y.Length == |t|
    ensures forall k {:trigger Row2(u, y0, y1, t, k)} :: 0 <= k < |t| ==> y[k] == Row2(u, y0, y1, t, k)
  {
    var zero := Zeros(|y0|);
    y := new Vec[|t|](_ => zero);
    y[0] := y0;
    y[1] := y1;
    var n := 0;
    while n < |t| - 2
      invariant 0 <= n <= |t| - 2 && y.Length == |t|
      invariant Filled2(u, y0, y1, t, y[..], n)
    {
      ghost var before := y[..];
      var next := u(t[n], t[n + 1], y[n], y[n + 1]);
      Filled2Step(u, y0, y1, t, before, n, next);
      y[n + 2] := next;
      assert y[..] == before[n + 2 := next];
      n := n + 1;
    }
    assert forall k :: 0 <= k < |t| ==> y[k] == y[..][k];
  }

  /** The three-step loop: rows 0 to 2 are `y0`, `y1`, `y2`; row `n+3` is
      filled from rows `n`, `n+1` and `n+2`. */
  method Solve3(u: Update3, y0: Vec, y1: Vec, y2: Vec, t: seq<real>) returns (y: array<Vec>)
    requires |t| >= 3
    requires |y1| == |y0| && |y2| == |y0|
    ensures fresh(y) && y.Length == |t|
    ensures forall k {:trigger Row3(u, y0, y1, y2, t, k)} :: 0 <= k < |t| ==> y[k] == Row3(u, y0, y1, y2, t, k)
  {
    var zero := Zeros(|y0|);
    y := new Vec[|t|](_ => zero);
    y[0] := y0;
    y[1] := y1;
    y[2] := y2;
    var n := 0;
    while n < |t| - 3
      invariant 0 <= n <= |t| - 3 && y.Length == |t|
      invariant Filled3(u, y0, y1, y2, t, y[..], n)
    {
      ghost var before := y[..];
      var next := u(t[n], t[n + 1], t[n + 2], y[n], y[n + 1], y[n + 2]);
      Filled3Step(u, y0, y1, y2, t, before, n, next);
      y[n + 3] := next;
      assert y[..] == before[n + 3 := next];
      n := n + 1;
    }
    assert forall k :: 0 <= k < |t| ==> y[k] == y[..][k];
  }

  /** From a two-step trajectory of `Ab2Updater(f)` to the update formula. */
  lemma Ab2Recurrence(f: Field, y0: Vec, y1: Vec, t: seq<real>, y: seq<Vec>)
    requires IsTrajectory2(Ab2Updater(f), y0, y1, t, y)
    ensures forall n :: 0 <= n < |t| - 2 ==>
      y[n + 2] == Ab2Update(f, t[n], t[n + 1], t[n + 1] - t[n], y[n], y[n + 1])
  {
    forall n | 0 <= n < |t| - 2
      ensures y[n + 2] == Ab2Update(f, t[n], t[n + 1], t[n + 1] - t[n], y[n], y[n + 1])
    {
      Ab2UpdaterAt(f, t[n], t[n + 1], y[n], y[n + 1]);
    }
  }

  /** From a three-step trajectory of `Ab3Updater(f)` to the update formula. */
  lemma Ab3Recurrence(f: Field, y0: Vec, y1: Vec, y2: Vec, t: seq<real>, y: seq<Vec>)
    requires IsTrajectory3(Ab3Updater(f), y0, y1, y2, t, y)
    ensures forall n :: 0 <= n < |t| - 3 ==>
      y[n + 3] == Ab3Update(f, t[n], t[n + 1], t[n + 2], t[n + 1] - t[n], y[n], y[n + 1], y[n + 2])
  {
    forall n | 0 <= n < |t| - 3
      ensures y[n + 3] == Ab3Update(f, t[n], t[n + 1], t[n + 2], t[n + 1] - t[n], y[n], y[n + 1], y[n + 2])
    {
      Ab3UpdaterAt(f, t[n], t[n + 1], t[n + 2], y[n], y[n + 1], y[n + 2]);
    }
  }

  /** Two-step Adams-Bashforth on the grid `t` from starting rows `y0`, `y1`. */
  method Ab2(f: Field, y0: Vec, y1: Vec, t: seq<real>) returns (r: Result<array<Vec>>)
    requires |y1| == |y0|
    ensures r.Failure? <==> |t| < 2
    ensures r.Failure? ==> r.error == IndexError
    ensures r.Ok? ==> fresh(r.value) && IsTrajectory2(Ab2Updater(f), y0, y1, t, r.value[..])
    ensures r.Ok? ==> forall n :: 0 <= n < |t| - 2 ==>
      r.value[n + 2] == Ab2Update(f, t[n], t[n + 1], t[n + 1] - t[n], r.value[n], r.value[n + 1])
  {
    if |t| < 2 {
      return Failure(IndexError);
    }
    var y := Solve2(Ab2Updater(f), y0, y1, t);
    Rows2AreTrajectory(Ab2Updater(f), y0, y1, t, y[..]);
    Ab2Recurrence(f, y0, y1, t, y[..]);
    return Ok(y);
  }

  /** Three-step Adams-Bashforth on the grid `t` from starting rows `y0`, `y1`, `y2`. */
  method Ab3(f: Field, y0: Vec, y1: Vec, y2: Vec, t: seq<real>) returns (r: Result<array<Vec>>)
    requires |y1| == |y0| && |y2| == |y0|
    ensures r.Failure? <==> |t| < 3
    ensures r.Failure? ==> r.error == IndexError
    ensures r.Ok? ==> fresh(r.value) && IsTrajectory3(Ab3Updater(f), y0, y1, y2, t, r.value[..])
    ensures r.Ok? ==> forall n :: 0 <= n < |t| - 3 ==>
      r.value[n + 3] == Ab3Update(f, t[n], t[n + 1], t[n + 2], t[n + 1] - t[n], r.value[n], r.value[n + 1], r.value[n + 2])
  {
    if |t| < 3 {
      return Failure(IndexError);
    }
    var y := Solve3(Ab3Updater(f), y0, y1, y2, t);
    Rows3AreTrajectory(Ab3Updater(f), y0, y1, y2, t, y[..]);
    Ab3Recurrence(f, y0, y1, y2, t, y[..]);
    return Ok(y);
  }

  // ----- Constant derivative -----

  /** On a constant derivative `c`, the two-step update adds `h c`, where `h`
      is the window's first interval: the weights 3/2 and -1/2 sum to one. */
  lemma Ab2OnConstantField(f: Field, c: Vec, tn: real, tn1: real, h: real, yn: Vec, yn1: Vec)
    requires ConstantField(f, c)
    requires |yn| == |c| && |yn1| == |c|
    ensures Ab2Update(f, tn, tn1, h, yn, yn1) == Add(yn1, Scale(h, c))
  {
    assert f(tn, yn) == c && f(tn1, yn1) == c;
    var r := Ab2Update(f, tn, tn1, h, yn, yn1);
    forall i | 0 <= i < |r| ensures r[i] == yn1[i] + h * c[i] {
      assert r[i] == yn1[i] + (3.0 / 2.0) * h * c[i] - (1.0 / 2.0) * h * c[i];
    }
    ConstantIncrement(yn1, c, h, r);
  }

  /** On a constant derivative `c`, the three-step update adds `h c`: the
      weights 23/12, -16/12 and +5/12 sum to one. */
  lemma Ab3OnConstantField(f: Field, c: Vec, tn: real, tn1: real, tn2: real, h: real, yn: Vec, yn1: Vec, yn2: Vec)
    requires ConstantField(f, c)
    requires |yn| == |c| && |yn1| == |c| && |yn2| == |c|
    ensures Ab3Update(f, tn, tn1, tn2, h, yn, yn1, yn2) == Add(yn2, Scale(h, c))
  {
    assert f(tn, yn) == c && f(tn1, yn1) == c && f(tn2, yn2) == c;
    var r := Ab3Update(f, tn, tn1, tn2, h, yn, yn1, yn2);
    forall i | 0 <= i < |r| ensures r[i] == yn2[i] + h * c[i] {
      assert r[i] == yn2[i] + h * ((23.0 / 12.0) * c[i] - (16.0 / 12.0) * c[i] + (5.0 / 12.0) * c[i]);
    }
    ConstantIncrement(yn2, c, h, r);
  }

  /** All intervals of the grid are equal. */
  ghost predicate Uniform(t: seq<real>) {
    forall k :: 0 <= k < |t| - 1 ==> Interval(t, k) == t[1] - t[0]
  }

  /** The length `t[k+1] - t[k]` of the `k`-th interval of the grid. */
  function Interval(t: seq<real>, k: nat): real
    requires k + 1 < |t|
  {
    t[k + 1] - t[k]
  }

  /** On a constant derivative `c`, a two-step window advances the newer row
      by `(tn1 - tn) c`. */
  lemma Ab2WindowOnConstantField(f: Field, c: Vec, tn: real, tn1: real, yn: Vec, yn1: Vec)
    requires ConstantField(f, c)
    requires |yn| == |c| && |yn1| == |c|
    ensures Ab2Updater(f)(tn, tn1, yn, yn1) == Add(yn1, Scale(tn1 - tn, c))
  {
    Ab2UpdaterAt(f, tn, tn1, yn, yn1);
    Ab2OnConstantField(f, c, tn, tn1, tn1 - tn, yn, yn1);
  }

  /** On a constant derivative `c`, a three-step window advances the newest
      row by `(tn1 - tn) c`. */
  lemma Ab3WindowOnConstantField(f: Field, c: Vec, tn: real, tn1: real, tn2: real, yn: Vec, yn1: Vec, yn2: Vec)
    requires ConstantField(f, c)
    requires |yn| == |c| && |yn1| == |c| && |yn2| == |c|
    ensures Ab3Updater(f)(tn, tn1, tn2, yn, yn1, yn2) == Add(yn2, Scale(tn1 - tn, c))
  {
    Ab3UpdaterAt(f, tn, tn1, tn2, yn, yn1, yn2);
    Ab3OnConstantField(f, c, tn, tn1, tn2, tn1 - tn, yn, yn1, yn2);
  }

  /** `u` advances the newer row of every two-step window of dimension `|c|`
      by `(tn1 - tn) c`. */
  ghost predicate Advances2(u: Update2, c: Vec) {
    forall tn: real, tn1: real, yn: Vec, yn1: Vec :: |yn| == |c| && |yn1| == |c| ==>
      u(tn, tn1, yn, yn1) == Add(yn1, Scale(tn1 - tn, c))
  }

  /** `u` advances the newest row of every three-step window of dimension `|c|`
      by `(tn1 - tn) c`. */
  ghost predicate Advances3(u: Update3, c: Vec) {
    forall tn: real, tn1: real, tn2: real, yn: Vec, yn1: Vec, yn2: Vec ::
      |yn| == |c| && |yn1| == |c| && |yn2| == |c| ==>
      u(tn, tn1, tn2, yn, yn1, yn2) == Add(yn2, Scale(tn1 - tn, c))
  }

  /** A two-step update that advances by the first interval of its window,
      on a uniform grid and from exact starting rows, gives `y0 + (t[n] - t[0]) c`. */
  lemma {:induction false} Rows2OfConstantIncrement(u: Update2, c: Vec, y0: Vec, y1: Vec, t: seq<real>, n: nat)
    requires Advances2(u, c)
    requires |y0| == |c| && |t| >= 2 && Uniform(t)
    requires y1 == Add(y0, Scale(t[1] - t[0], c))
    requires n < |t|
    ensures Row2(u, y0, y1, t, n) == Add(y0, Scale(t[n] - t[0], c))
    decreases n
  {
    if n == 0 {
      AddZeroScale(y0, c);
    } else if n >= 2 {
      var older := Row2(u, y0, y1, t, n - 2);
      var newer := Row2(u, y0, y1, t, n - 1);
      Rows2OfConstantIncrement(u, c, y0, y1, t, n - 1);
      Row2Next(u, y0, y1, t, n - 2);
      assert u(t[n - 2], t[n - 1], older, newer) == Add(newer, Scale(t[n - 1] - t[n - 2], c));
      assert Interval(t, n - 2) == Interval(t, n - 1);
      AddScales(y0, t[n - 1] - t[0], t[n] - t[n - 1], c, t[n] - t[0]);
    }
  }

  /** Likewise for a three-step update and three exact starting rows. */
  lemma {:induction false} Rows3OfConstantIncrement(u: Update3, c: Vec, y0: Vec, y1: Vec, y2: Vec, t: seq<real>, n: nat)
    requires Advances3(u, c)
    requires |y0| == |c| && |t| >= 3 && Uniform(t)
    requires y1 == Add(y0, Scale(t[1] - t[0], c))
    requires y2 == Add(y0, Scale(t[2] - t[0], c))
    requires n < |t|
    ensures Row3(u, y0, y1, y2, t, n) == Add(y0, Scale(t[n] - t[0], c))
    decreases n
  {
    if n == 0 {
      AddZeroScale(y0, c);
    } else if n >= 3 {
      var oldest := Row3(u, y0, y1, y2, t, n - 3);
      var older := Row3(u, y0, y1, y2, t, n - 2);
      var newest := Row3(u, y0, y1, y2, t, n - 1);
      Rows3OfConstantIncrement(u, c, y0, y1, y2, t, n - 1);
      Row3Next(u, y0, y1, y2, t, n - 3);
      assert u(t[n - 3], t[n - 2], t[n - 1], oldest, older, newest)
          == Add(newest, Scale(t[n - 2] - t[n - 3], c));
      assert Interval(t, n - 3) == Interval(t, n - 1);
      AddScales(y0, t[n - 1] - t[0], t[n] - t[n - 1], c, t[n] - t[0]);
    }
  }

  /** On a uniform grid, a constant derivative `c` and exact starting rows,
      the two-step method reproduces `y0 + (t[n] - t[0]) c` at every point. */
  lemma Ab2RowOnConstantField(f: Field, c: Vec, y0: Vec, y1: Vec, t: seq<real>, n: nat)
    requires ConstantField(f, c)
    requires |y0| == |c| && |t| >= 2 && Uniform(t)
    requires y1 == Add(y0, Scale(t[1] - t[0], c))
    requires n < |t|
    ensures Row2(Ab2Updater(f), y0, y1, t, n) == Add(y0, Scale(t[n] - t[0], c))
  {
    forall tn: real, tn1: real, yn: Vec, yn1: Vec | |yn| == |c| && |yn1| == |c|
      ensures Ab2Updater(f)(tn, tn1, yn, yn1) == Add(yn1, Scale(tn1 - tn, c))
    {
      Ab2WindowOnConstantField(f, c, tn, tn1, yn, yn1);
    }
    Rows2OfConstantIncrement(Ab2Updater(f), c, y0, y1, t, n);
  }

  /** Likewise for the three-step method with exact starting rows. */
  lemma Ab3RowOnConstantField(f: Field, c: Vec, y0: Vec, y1: Vec, y2: Vec, t: seq<real>, n: nat)
    requires ConstantField(f, c)
    requires |y0| == |c| && |t| >= 3 && Uniform(t)
    requires y1 == Add(y0, Scale(t[1] - t[0], c))
    requires y2 == Add(y0, Scale(t[2] - t[0], c))
    requires n < |t|
    ensures Row3(Ab3Updater(f), y0, y1, y2, t, n) == Add(y0, Scale(t[n] - t[0], c))
  {
    forall tn: real, tn1: real, tn2: real, yn: Vec, yn1: Vec, yn2: Vec
      | |yn| == |c| && |yn1| == |c| && |yn2| == |c|
      ensures Ab3Updater(f)(tn, tn1, tn2, yn, yn1, yn2) == Add(yn2, Scale(tn1 - tn, c))
    {
      Ab3WindowOnConstantField(f, c, tn, tn1, tn2, yn, yn1, yn2);
    }
    Rows3OfConstantIncrement(Ab3Updater(f), c, y0, y1, y2, t, n);
  }
}
