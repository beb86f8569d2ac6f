/** `NEB._getTangents`: the improved tangent estimate of Henkelman and
    Jónsson (J. Chem. Phys. 113, 9978 (2000)). At an interior image the
    tangent follows the difference towards the higher-energy neighbour when
    the energy rises or falls monotonically through the image; at a local
    extremum it blends the forward and backward differences, weighting the
    one towards the higher neighbour by the larger energy difference. The
    end images get no tangent. */
module Tangents {
  import opened Base
  import opened Vectors
  import opened NebModel

  /** The direction the source computes at an image with position `x` and
      energy `v`, between neighbours `(xm, vm)` behind and `(xp, vp)` ahead,
      before it is divided by its norm. */
  function RawTangent(xm: Vector, x: Vector, xp: Vector, vm: real, v: real, vp: real): (r: Vector)
    requires |xm| == |x| == |xp|
    ensures |r| == |x|
  {
    if vm <= v <= vp then Sub(xp, x)
    else if vp < v < vm then Sub(x, xm)
    else
      var dVmax := Max(Abs(vp - v), Abs(vm - v));
      var dVmin := Min(Abs(vp - v), Abs(vm - v));
      var taup := Sub(xp, x);
      var taum := Sub(x, xm);
      if vp > vm then Add(Scale(dVmax, taup), Scale(dVmin, taum))
      else if vp < vm then Add(Scale(dVmin, taup), Scale(dVmax, taum))
      else Sub(xp, xm)
  }

  /** The weights `(wp, wm)` the method gives the forward and backward
      differences, characterised without reference to the branch structure:
      both are non-negative and not both zero; the backward difference is
      left out exactly when the energy rises through the image, the forward
      one exactly when the energy falls to the next image and the image lies
      between its neighbours; the higher neighbour never gets the smaller
      weight; at a strict extremum between neighbours of different energy the
      weights are the larger and smaller of the two energy differences, and
      between neighbours of equal energy the two differences count alike. */
  function TangentWeights(vm: real, v: real, vp: real): (w: (real, real))
    ensures w.0 >= 0.0 && w.1 >= 0.0 && w.0 + w.1 > 0.0
    ensures w.1 == 0.0 <==> vm <= v <= vp
    ensures w.0 == 0.0 <==> vp < vm && vp <= v <= vm
    ensures vp > vm ==> w.0 >= w.1
    ensures vp < vm ==> w.1 >= w.0
    ensures vp == vm && !(vm <= v <= vp) ==> w.0 == w.1
    ensures vm != vp && ((v < vm && v < vp) || (v > vm && v > vp)) ==>
      Max(w.0, w.1) == Max(Abs(vp - v), Abs(vm - v)) && Min(w.0, w.1) == Min(Abs(vp - v), Abs(vm - v))
  {
    var up, down := Abs(vp - v), Abs(vm - v);
    if vm <= v <= vp then (1.0, 0.0)
    else if vp < v < vm then (0.0, 1.0)
    else if vp > vm then (Max(up, down), Min(up, down))
    else if vp < vm then (Min(up, down), Max(up, down))
    else (1.0, 1.0)
  }

  /** The source's branches compute exactly the weighted combination
      `wp (xp - x) + wm (x - xm)`; with equal neighbour energies the
      difference `xp - xm` is the unweighted sum of the two. */
  lemma RawTangentIsWeighted(xm: Vector, x: Vector, xp: Vector, vm: real, v: real, vp: real)
    requires |xm| == |x| == |xp|
    ensures var w := TangentWeights(vm, v, vp);
      RawTangent(xm, x, xp, vm, v, vp) == Add(Scale(w.0, Sub(xp, x)), Scale(w.1, Sub(x, xm)))
  {
    var w := TangentWeights(vm, v, vp);
    var r := RawTangent(xm, x, xp, vm, v, vp);
    var c := Add(Scale(w.0, Sub(xp, x)), Scale(w.1, Sub(x, xm)));
    forall k | 0 <= k < |x|
      ensures r[k] == c[k]
    {
      assert c[k] == w.0 * (xp[k] - x[k]) + w.1 * (x[k] - xm[k]);
    }
    assert r == c;
  }

  /** The raw tangent at interior image `i`. */
  function RawTangentAt(R: seq<Vector>, V: seq<real>, i: nat): Vector
    requires 0 < i < |R| - 1 && |V| == |R| && SameDimension(R)
  {
    RawTangent(R[i - 1], R[i], R[i + 1], V[i - 1], V[i], V[i + 1])
  }

  /** The first interior image at or after `i` whose raw tangent has zero
      norm. */
  function FirstDegenerate(sqrt: real -> real, R: seq<Vector>, V: seq<real>, i: nat): (r: Option<nat>)
    requires 1 <= i && |V| == |R| && SameDimension(R)
    ensures r.Some? ==> i <= r.value < |R| - 1 && Norm(sqrt, RawTangentAt(R, V, r.value)) == 0.0
    ensures r.Some? ==> forall k :: i <= k < r.value ==> Norm(sqrt, RawTangentAt(R, V, k)) != 0.0
    ensures r.None? ==> forall k :: i <= k < |R| - 1 ==> Norm(sqrt, RawTangentAt(R, V, k)) != 0.0
    decreases |R| - i
  {
    if i >= |R| - 1 then None
    else if Norm(sqrt, RawTangentAt(R, V, i)) == 0.0 then Some(i)
    else FirstDegenerate(sqrt, R, V, i + 1)
  }

  /** `_getTangents`: no tangent at the two ends, the normalised raw tangent
      at every interior image. Dividing by a zero norm would leave the
      tangent undefined; that is reported for the first such image. */
  function GetTangents(sqrt: real -> real, R: seq<Vector>, V: seq<real>): (r: Result<seq<Option<Vector>>, NebError>)
    requires |V| == |R| && SameDimension(R)
    ensures r.Err? <==> exists k :: 0 < k < |R| - 1 && Norm(sqrt, RawTangentAt(R, V, k)) == 0.0
    ensures r.Err? ==> (
      && r.error.ZeroTangent? && 0 < r.error.image < |R| - 1
      && Norm(sqrt, RawTangentAt(R, V, r.error.image)) == 0.0
      && forall k :: 0 < k < r.error.image ==> Norm(sqrt, RawTangentAt(R, V, k)) != 0.0)
    ensures r.Ok? ==> |r.value| == |R|
    ensures r.Ok? ==> forall k :: 0 <= k < |R| ==> (r.value[k].Some? <==> 0 < k < |R| - 1)
    ensures r.Ok? ==> forall k :: 0 < k < |R| - 1 ==> |r.value[k].value| == |R[k]|
  {
    match FirstDegenerate(sqrt, R, V, 1)
    case Some(i) => Err(ZeroTangent(i))
    case None =>
      var t := seq(|R|, k requires 0 <= k < |R| =>
        if 0 < k < |R| - 1 then Some(Normalize(sqrt, RawTangentAt(R, V, k))) else None);
      Ok(t)
  }

  /** Every tangent `GetTangents` returns is a unit vector pointing the same
      way as the raw tangent. */
  lemma TangentsAreUnit(sqrt: real -> real, R: seq<Vector>, V: seq<real>, k: nat)
    requires IsSqrt(sqrt)
    requires |V| == |R| && SameDimension(R)
    requires GetTangents(sqrt, R, V).Ok? && 0 < k < |R| - 1
    ensures GetTangents(sqrt, R, V).value[k].Some?
    ensures var t := GetTangents(sqrt, R, V).value[k].value;
      && Dot(t, t) == 1.0
      && Norm(sqrt, RawTangentAt(R, V, k)) > 0.0
      && t == Scale(1.0 / Norm(sqrt, RawTangentAt(R, V, k)), RawTangentAt(R, V, k))
  {
    var raw := RawTangentAt(R, V, k);
    NormalizeIsUnit(sqrt, raw);
    NormSquared(sqrt, raw);
  }
}
