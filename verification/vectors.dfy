/** State vectors over exact reals and the caller's derivative function.
    These stand in for the numpy arrays the integrators work on: `+`, `-`
    and multiplication by a scalar act component by component. */
module Vectors {

  /** A state vector: one real component per dimension. */
  type Vec = seq<real>

  /** The caller's derivative function, `f(t, y)`. It is pure and returns a
      vector of the same dimension as the state it is given. */
  type Field = f: (real, Vec) -> Vec | forall t: real, y: Vec :: |f(t, y)| == |y|
    witness (t: real, y: Vec) => y

  /** The zero vector of dimension `d` (what `np.zeros` puts in a row). */
  function Zeros(d: nat): Vec {
    seq(d, _ => 0.0)
  }

  /** Component-wise sum `u + v`. */
  function Add(u: Vec, v: Vec): Vec
    requires |u| == |v|
  {
    seq(|u|, i requires 0 <= i < |u| => u[i] + v[i])
  }

  /** Component-wise difference `u - v`. */
  function Sub(u: Vec, v: Vec): Vec
    requires |u| == |v|
  {
    seq(|u|, i requires 0 <= i < |u| => u[i] - v[i])
  }

  /** The scalar multiple `c * v`. */
  function Scale(c: real, v: Vec): Vec {
    seq(|v|, i requires 0 <= i < |v| => c * v[i])
  }

  /** `y + 0 c == y`. */
  lemma AddZeroScale(y: Vec, c: Vec)
    requires |y| == |c|
    ensures Add(y, Scale(0.0, c)) == y
  {
  }

  /** `(y + a c) + b c == y + s c` where `s == a + b`. */
  lemma AddScales(y: Vec, a: real, b: real, c: Vec, s: real)
    requires |y| == |c|
    requires a + b == s
    ensures Add(Add(y, Scale(a, c)), Scale(b, c)) == Add(y, Scale(s, c))
  {
    var l := Add(Add(y, Scale(a, c)), Scale(b, c));
    var r := Add(y, Scale(s, c));
    forall i | 0 <= i < |y| ensures l[i] == r[i] {
      assert l[i] == y[i] + a * c[i] + b * c[i];
    }
  }

  /** `f` ignores time and state and always returns `c`. */
  ghost predicate ConstantField(f: Field, c: Vec) {
    forall s: real, z: Vec :: |z| == |c| ==> f(s, z) == c
  }

  /** A vector whose components are `y[i] + h c[i]` is `y + h c`. */
  lemma ConstantIncrement(y: Vec, c: Vec, h: real, r: Vec)
    requires |y| == |c| == |r|
    requires forall i :: 0 <= i < |r| ==> r[i] == y[i] + h * c[i]
    ensures r == Add(y, Scale(h, c))
  {
    var e := Add(y, Scale(h, c));
    assert forall i :: 0 <= i < |r| ==> r[i] == e[i];
  }
}
