/** Real vectors as sequences, the operations numpy performs on the flat
    coordinate arrays of the NEB code, and the Euclidean norm.

    Dafny has no square root, so the norm is written in terms of a square-root
    function `sqrt` that is passed in; `IsSqrt(sqrt)` states what a square root
    must satisfy, and only the lemmas that need those facts assume it. */
module Vectors {

  type Vector = seq<real>

  /** numpy's `zeros(n)`. */
  function Zero(n: nat): (z: Vector)
    ensures |z| == n
    ensures forall i :: 0 <= i < n ==> z[i] == 0.0
  {
    seq(n, i => 0.0)
  }

  predicate IsZero(v: Vector) {
    forall i :: 0 <= i < |v| ==> v[i] == 0.0
  }

  function Add(u: Vector, v: Vector): (r: Vector)
    requires |u| == |v|
    ensures |r| == |u|
    ensures forall i :: 0 <= i < |r| ==> r[i] == u[i] + v[i]
  {
    seq(|u|, i requires 0 <= i < |u| => u[i] + v[i])
  }

  function Sub(u: Vector, v: Vector): (r: Vector)
    requires |u| == |v|
    ensures |r| == |u|
    ensures forall i :: 0 <= i < |r| ==> r[i] == u[i] - v[i]
  {
    seq(|u|, i requires 0 <= i < |u| => u[i] - v[i])
  }

  function Scale(a: real, v: Vector): (r: Vector)
    ensures |r| == |v|
    ensures forall i :: 0 <= i < |r| ==> r[i] == a * v[i]
  {
    seq(|v|, i requires 0 <= i < |v| => a * v[i])
  }

  /** numpy's unary minus. */
  function Neg(v: Vector): (r: Vector)
    ensures |r| == |v|
    ensures forall i :: 0 <= i < |r| ==> r[i] == -v[i]
  {
    Scale(-1.0, v)
  }

  /** `(1 - a) u + a v`. */
  function Lerp(a: real, u: Vector, v: Vector): (r: Vector)
    requires |u| == |v|
    ensures |r| == |u|
    ensures forall k :: 0 <= k < |r| ==> r[k] == (1.0 - a) * u[k] + a * v[k]
  {
    Add(Scale(1.0 - a, u), Scale(a, v))
  }

  lemma LerpAtZero(u: Vector, v: Vector)
    requires |u| == |v|
    ensures Lerp(0.0, u, v) == u
  {
    assert forall k :: 0 <= k < |u| ==> Lerp(0.0, u, v)[k] == u[k];
  }

  /** `lerp(a, u, v)` lies at `a` times the way from `u` to `v`. */
  lemma LerpOffset(a: real, u: Vector, v: Vector)
    requires |u| == |v|
    ensures Sub(Lerp(a, u, v), u) == Scale(a, Sub(v, u))
  {
    var g := Lerp(a, u, v);
    forall j | 0 <= j < |u|
      ensures Sub(g, u)[j] == Scale(a, Sub(v, u))[j]
    {
      assert g[j] == (1.0 - a) * u[j] + a * v[j];
    }
  }

  function Dot(u: Vector, v: Vector): real
    requires |u| == |v|
    decreases |u|
  {
    if |u| == 0 then 0.0 else u[0] * v[0] + Dot(u[1..], v[1..])
  }

  /** `sqrt` is non-negative on the non-negative reals. */
  ghost predicate NonNegativeRoot(sqrt: real -> real) {
    forall x :: 0.0 <= x ==> 0.0 <= sqrt(x)
  }

  /** `sqrt` returns the non-negative square root of every non-negative real. */
  ghost predicate IsSqrt(sqrt: real -> real) {
    && NonNegativeRoot(sqrt)
    && forall x :: 0.0 <= x ==> sqrt(x) * sqrt(x) == x
  }

  /** numpy's `norm(v)`: the Euclidean length. */
  function Norm(sqrt: real -> real, v: Vector): real {
    sqrt(Dot(v, v))
  }

  /** `v / norm(v)`. */
  function Normalize(sqrt: real -> real, v: Vector): (r: Vector)
    requires Norm(sqrt, v) != 0.0
    ensures |r| == |v|
  {
    Scale(1.0 / Norm(sqrt, v), v)
  }

  lemma {:induction false} DotSelfNonNegative(v: Vector)
    ensures Dot(v, v) >= 0.0
    decreases |v|
  {
    if |v| > 0 {
      DotSelfNonNegative(v[1..]);
      assert v[0] * v[0] >= 0.0;
    }
  }

  lemma {:induction false} DotSymmetric(u: Vector, v: Vector)
    requires |u| == |v|
    ensures Dot(u, v) == Dot(v, u)
    decreases |u|
  {
    if |u| > 0 {
      DotSymmetric(u[1..], v[1..]);
    }
  }

  lemma {:induction false} DotScaleLeft(a: real, u: Vector, v: Vector)
    requires |u| == |v|
    ensures Dot(Scale(a, u), v) == a * Dot(u, v)
    decreases |u|
  {
    if |u| > 0 {
      SliceScale(a, u);
      DotScaleLeft(a, u[1..], v[1..]);
      assert a * u[0] * v[0] + a * Dot(u[1..], v[1..]) == a * (u[0] * v[0] + Dot(u[1..], v[1..]));
    }
  }

  lemma {:induction false} DotScaleRight(a: real, u: Vector, v: Vector)
    requires |u| == |v|
    ensures Dot(u, Scale(a, v)) == a * Dot(u, v)
    decreases |u|
  {
    if |u| > 0 {
      SliceScale(a, v);
      DotScaleRight(a, u[1..], v[1..]);
      assert u[0] * (a * v[0]) + a * Dot(u[1..], v[1..]) == a * (u[0] * v[0] + Dot(u[1..], v[1..]));
    }
  }

  lemma SliceScale(a: real, v: Vector)
    requires |v| > 0
    ensures Scale(a, v)[1..] == Scale(a, v[1..])
  {
    forall i | 0 <= i < |v| - 1
      ensures Scale(a, v)[1..][i] == Scale(a, v[1..])[i]
    {
      assert Scale(a, v)[1..][i] == a * v[i + 1];
    }
  }

  lemma {:induction false} DotAddLeft(u: Vector, v: Vector, w: Vector)
    requires |u| == |v| == |w|
    ensures Dot(Add(u, v), w) == Dot(u, w) + Dot(v, w)
    decreases |u|
  {
    if |u| > 0 {
      assert Add(u, v)[1..] == Add(u[1..], v[1..]);
      DotAddLeft(u[1..], v[1..], w[1..]);
    }
  }

  lemma {:induction false} DotSubLeft(u: Vector, v: Vector, w: Vector)
    requires |u| == |v| == |w|
    ensures Dot(Sub(u, v), w) == Dot(u, w) - Dot(v, w)
    decreases |u|
  {
    if |u| > 0 {
      assert Sub(u, v)[1..] == Sub(u[1..], v[1..]);
      DotSubLeft(u[1..], v[1..], w[1..]);
    }
  }

  /** The norm is non-negative when the root is. */
  lemma NormNonNegative(sqrt: real -> real, v: Vector)
    requires NonNegativeRoot(sqrt)
    ensures Norm(sqrt, v) >= 0.0
  {
    DotSelfNonNegative(v);
  }

  /** Under a genuine square root the norm is non-negative and squares to the
      dot product. */
  lemma NormSquared(sqrt: real -> real, v: Vector)
    requires IsSqrt(sqrt)
    ensures Norm(sqrt, v) >= 0.0
    ensures Norm(sqrt, v) * Norm(sqrt, v) == Dot(v, v)
  {
    DotSelfNonNegative(v);
  }

  /** Dividing a vector by its (non-zero) norm gives a unit vector. */
  lemma NormalizeIsUnit(sqrt: real -> real, v: Vector)
    requires IsSqrt(sqrt)
    requires Norm(sqrt, v) != 0.0
    ensures Dot(Normalize(sqrt, v), Normalize(sqrt, v)) == 1.0
  {
    var n := Norm(sqrt, v);
    var c := 1.0 / n;
    NormSquared(sqrt, v);
    DotScaleLeft(c, v, Scale(c, v));
    DotScaleRight(c, v, v);
    assert Dot(Scale(c, v), Scale(c, v)) == c * (c * Dot(v, v));
    assert c * (c * (n * n)) == 1.0;
  }
}
