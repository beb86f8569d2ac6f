/** `NEB._getEffectiveForces` and `NEB._converged`: the force that moves each
    image of the band, and the average-force convergence measure.

    At an interior image the effective force is a spring force along the
    tangent plus the part of the true force perpendicular to the tangent.
    The end images either feel the true force (when they are optimised too)
    or nothing. */
module Forces {
  import opened Base
  import opened Vectors
  import opened NebModel

  /** `F - (F . t) t`: the true force with its component along `t` removed. */
  function Nudge(F: Vector, t: Vector): (r: Vector)
    requires |F| == |t|
    ensures |r| == |F|
  {
    Sub(F, Scale(Dot(F, t), t))
  }

  /** For a unit tangent the nudged force has no component along it. */
  lemma NudgeIsPerpendicular(F: Vector, t: Vector)
    requires |F| == |t| && Dot(t, t) == 1.0
    ensures Dot(Nudge(F, t), t) == 0.0
  {
    var d := Dot(F, t);
    DotSubLeft(F, Scale(d, t), t);
    DotScaleLeft(d, t, t);
  }

  /** The spring force at an image `x` between `xm` and `xp`, with tangent
      `t`, when the next image is on the same state: the forward pull
      `k |xp - x| t`, minus `k |x - xm| t` when the previous image is on the
      same state too, or minus the projection `((kSwitch (x - xm)) . t) t`
      when it is not. */
  function SpringForce(sqrt: real -> real, kSwitch: real, xm: Vector, x: Vector, xp: Vector, t: Vector, sameBehind: bool): (r: Vector)
    requires |xm| == |x| == |xp| == |t|
    ensures |r| == |t|
  {
    var forward := Scale(ForceConstant * Norm(sqrt, Sub(xp, x)), t);
    if sameBehind then Sub(forward, Scale(ForceConstant * Norm(sqrt, Sub(x, xm)), t))
    else Sub(forward, Scale(Dot(Scale(kSwitch, Sub(x, xm)), t), t))
  }

  /** The signed size of the spring force along the tangent: the forward
      pull less the backward one. With both neighbours on the same state
      this is `k (|xp - x| - |x - xm|)`, so equally spaced images feel no
      spring force. */
  function SpringMagnitude(sqrt: real -> real, kSwitch: real, xm: Vector, x: Vector, xp: Vector, t: Vector, sameBehind: bool): real
    requires |xm| == |x| == |xp| == |t|
  {
    var back := if sameBehind then ForceConstant * Norm(sqrt, Sub(x, xm)) else kSwitch * Dot(Sub(x, xm), t);
    ForceConstant * Norm(sqrt, Sub(xp, x)) - back
  }

  /** The spring force lies along the tangent, with the size `SpringMagnitude`
      gives. */
  lemma SpringIsAlongTangent(sqrt: real -> real, kSwitch: real, xm: Vector, x: Vector, xp: Vector, t: Vector, sameBehind: bool)
    requires |xm| == |x| == |xp| == |t|
    ensures SpringForce(sqrt, kSwitch, xm, x, xp, t, sameBehind) == Scale(SpringMagnitude(sqrt, kSwitch, xm, x, xp, t, sameBehind), t)
  {
    var a := ForceConstant * Norm(sqrt, Sub(xp, x));
    var c := if sameBehind then ForceConstant * Norm(sqrt, Sub(x, xm)) else Dot(Scale(kSwitch, Sub(x, xm)), t);
    if !sameBehind {
      DotScaleLeft(kSwitch, Sub(x, xm), t);
    }
    assert SpringMagnitude(sqrt, kSwitch, xm, x, xp, t, sameBehind) == a - c;
    assert SpringForce(sqrt, kSwitch, xm, x, xp, t, sameBehind) == Sub(Scale(a, t), Scale(c, t));
    ScaleDifference(a, c, t);
  }

  lemma ScaleDifference(a: real, c: real, t: Vector)
    ensures Sub(Scale(a, t), Scale(c, t)) == Scale(a - c, t)
  {
    var r := Sub(Scale(a, t), Scale(c, t));
    forall k | 0 <= k < |t|
      ensures r[k] == (a - c) * t[k]
    {
      assert r[k] == a * t[k] - c * t[k];
    }
  }

  /** A vector `m t + Nudge(F, t)` has component `m` along the unit vector
      `t` and the perpendicular part of `F`. */
  lemma AlongPlusNudge(m: real, t: Vector, F: Vector)
    requires |F| == |t| && Dot(t, t) == 1.0
    ensures Dot(Add(Scale(m, t), Nudge(F, t)), t) == m
    ensures Nudge(Add(Scale(m, t), Nudge(F, t)), t) == Nudge(F, t)
  {
    var n := Nudge(F, t);
    var f := Add(Scale(m, t), n);
    DotAddLeft(Scale(m, t), n, t);
    DotScaleLeft(m, t, t);
    NudgeIsPerpendicular(F, t);
    assert Dot(f, t) == m;
    forall k | 0 <= k < |t|
      ensures Nudge(f, t)[k] == n[k]
    {
      assert Nudge(f, t)[k] == f[k] - m * t[k];
    }
  }

  /** The effective force on an interior image: spring plus nudged true force. */
  function InteriorForce(sqrt: real -> real, kSwitch: real, xm: Vector, x: Vector, xp: Vector, F: Vector, t: Vector, sameBehind: bool): (r: Vector)
    requires |xm| == |x| == |xp| == |t| == |F|
    ensures |r| == |x|
  {
    Add(SpringForce(sqrt, kSwitch, xm, x, xp, t, sameBehind), Nudge(F, t))
  }

  /** The nudged elastic band splits the force on an image along a unit
      tangent: along it acts only the spring, across it only the true force. */
  lemma InteriorForceSplits(sqrt: real -> real, kSwitch: real, xm: Vector, x: Vector, xp: Vector, F: Vector, t: Vector, sameBehind: bool)
    requires |xm| == |x| == |xp| == |t| == |F|
    requires Dot(t, t) == 1.0
    ensures var f := InteriorForce(sqrt, kSwitch, xm, x, xp, F, t, sameBehind);
      && Dot(f, t) == SpringMagnitude(sqrt, kSwitch, xm, x, xp, t, sameBehind)
      && Nudge(f, t) == Nudge(F, t)
  {
    var m := SpringMagnitude(sqrt, kSwitch, xm, x, xp, t, sameBehind);
    SpringIsAlongTangent(sqrt, kSwitch, xm, x, xp, t, sameBehind);
    AlongPlusNudge(m, t, F);
  }

  /** The tangents fit the chain: one entry per image, a vector of the
      image's dimension at every interior image. */
  predicate TangentsFit(t: seq<Option<Vector>>, R: seq<Vector>) {
    && |t| == |R|
    && forall k :: 0 < k < |R| - 1 ==> t[k].Some? && |t[k].value| == |R[k]|
  }

  /** The energies and forces fit the chain: one of each per image, each
      force of the image's dimension. */
  predicate PesFits(pes: Pes, R: seq<Vector>) {
    && |pes.V| == |R| && |pes.F| == |R|
    && forall k :: 0 <= k < |R| ==> |pes.F[k]| == |R[k]|
  }

  /** The first interior image at or after `i` whose successor is on another
      state. */
  function FirstSwitch(states: seq<int>, M: nat, i: nat): (r: Option<nat>)
    requires 1 <= i && M <= |states|
    ensures r.Some? ==> i <= r.value < M - 1 && states[r.value + 1] != states[r.value]
    ensures r.Some? ==> forall k :: i <= k < r.value ==> states[k + 1] == states[k]
    ensures r.None? ==> forall k :: i <= k < M - 1 ==> states[k + 1] == states[k]
    decreases M - i
  {
    if i + 1 >= M then None
    else if states[i + 1] != states[i] then Some(i)
    else FirstSwitch(states, M, i + 1)
  }

  /** `_getEffectiveForces`. An interior image whose successor is on another
      state stops the computation (the state-crossing spring cannot be
      evaluated); so does an empty chain (`F[0]`). Otherwise every interior
      image gets `InteriorForce`, and the ends get their true force when
      they are optimised and a zero vector of the same size when they are
      held. */
  function EffectiveForces(sqrt: real -> real, settings: Settings, optimizeEndpoints: bool, R: seq<Vector>, states: seq<int>, pes: Pes, t: seq<Option<Vector>>): (r: Result<seq<Vector>, NebError>)
    requires SameDimension(R) && |states| >= |R| && PesFits(pes, R) && TangentsFit(t, R)
    ensures r.Err? <==> |R| == 0 || exists k :: 0 < k < |R| - 1 && states[k + 1] != states[k]
    ensures r.Err? && |R| > 0 ==> (
      && r.error.SurfaceSwitch? && 0 < r.error.image < |R| - 1
      && states[r.error.image + 1] != states[r.error.image]
      && forall k :: 0 < k < r.error.image ==> states[k + 1] == states[k])
    ensures r.Ok? ==> |r.value| == |R| && forall k :: 0 <= k < |R| ==> |r.value[k]| == |R[k]|
    ensures r.Ok? && optimizeEndpoints ==> r.value[0] == pes.F[0] && r.value[|R| - 1] == pes.F[|R| - 1]
    ensures r.Ok? && !optimizeEndpoints ==> IsZero(r.value[0]) && IsZero(r.value[|R| - 1])
  {
    match FirstSwitch(states, |R|, 1)
    case Some(i) => Err(SurfaceSwitch(i))
    case None =>
      if |R| == 0 then Err(EmptyChain)
      else
        var M := |R|;
        Ok(seq(M, k requires 0 <= k < M => ImageForce(sqrt, settings, optimizeEndpoints, R, states, pes, t, k)))
  }

  /** The effective force on image `k`. */
  function ImageForce(sqrt: real -> real, settings: Settings, optimizeEndpoints: bool, R: seq<Vector>, states: seq<int>, pes: Pes, t: seq<Option<Vector>>, k: nat): (f: Vector)
    requires SameDimension(R) && |states| >= |R| && PesFits(pes, R) && TangentsFit(t, R) && k < |R|
    ensures |f| == |R[k]|
    ensures (k == 0 || k == |R| - 1) && optimizeEndpoints ==> f == pes.F[k]
    ensures (k == 0 || k == |R| - 1) && !optimizeEndpoints ==> IsZero(f)
  {
    if 0 < k < |R| - 1 then
      InteriorForce(sqrt, settings.forceConstantSwitch, R[k - 1], R[k], R[k + 1], pes.F[k], t[k].value, states[k] == states[k - 1])
    else if optimizeEndpoints then pes.F[k]
    else Zero(|pes.F[k]|)
  }

  /** Every interior effective force is the spring along the tangent plus the
      perpendicular part of the true force: with unit tangents, its
      component along the tangent is the spring magnitude and its
      perpendicular part is that of the true force. */
  lemma EffectiveForcesSplit(sqrt: real -> real, settings: Settings, optimizeEndpoints: bool, R: seq<Vector>, states: seq<int>, pes: Pes, t: seq<Option<Vector>>, k: nat)
    requires SameDimension(R) && |states| >= |R| && PesFits(pes, R) && TangentsFit(t, R)
    requires EffectiveForces(sqrt, settings, optimizeEndpoints, R, states, pes, t).Ok?
    requires 0 < k < |R| - 1 && Dot(t[k].value, t[k].value) == 1.0
    ensures var f := EffectiveForces(sqrt, settings, optimizeEndpoints, R, states, pes, t).value[k];
      && Dot(f, t[k].value) == SpringMagnitude(sqrt, settings.forceConstantSwitch, R[k - 1], R[k], R[k + 1], t[k].value, states[k] == states[k - 1])
      && Nudge(f, t[k].value) == Nudge(pes.F[k], t[k].value)
  {
    InteriorForceSplits(sqrt, settings.forceConstantSwitch, R[k - 1], R[k], R[k + 1], pes.F[k], t[k].value, states[k] == states[k - 1]);
  }

  /** The sum of the norms of `vs`. */
  function SumNorms(sqrt: real -> real, vs: seq<Vector>): real
    decreases |vs|
  {
    if |vs| == 0 then 0.0 else Norm(sqrt, vs[0]) + SumNorms(sqrt, vs[1..])
  }

  /** The interior entries `1 .. |vs|-2`, the range of `xrange(1, len(R)-1)`. */
  function Interior<T>(vs: seq<T>): (r: seq<T>)
    ensures |r| == if |vs| <= 2 then 0 else |vs| - 2
    ensures forall k :: 0 <= k < |r| ==> r[k] == vs[k + 1]
  {
    if |vs| <= 2 then [] else vs[1..|vs| - 1]
  }

  /** The number of forces `_converged` adds up: the interior ones, and the
      two ends when they are optimised. */
  function Counted(M: nat, optimizeEndpoints: bool): nat {
    (if M <= 2 then 0 else M - 2) + (if optimizeEndpoints then 2 else 0)
  }

  /** `_converged`'s measure: the sum of the norms of the interior effective
      forces, plus those of the two ends when they are optimised, divided by
      the number of images in every case. */
  function AverageForce(sqrt: real -> real, effF: seq<Vector>, optimizeEndpoints: bool): real
    requires |effF| > 0
  {
    var ends := if optimizeEndpoints then Norm(sqrt, effF[0]) + Norm(sqrt, effF[|effF| - 1]) else 0.0;
    (SumNorms(sqrt, Interior(effF)) + ends) / (|effF| as real)
  }

  lemma {:induction false} SumNormsBound(sqrt: real -> real, vs: seq<Vector>, b: real)
    requires forall k :: 0 <= k < |vs| ==> Norm(sqrt, vs[k]) <= b
    ensures SumNorms(sqrt, vs) <= (|vs| as real) * b
    decreases |vs|
  {
    if |vs| > 0 {
      SumNormsBound(sqrt, vs[1..], b);
    }
  }

  lemma {:induction false} SumNormsNonNegative(sqrt: real -> real, vs: seq<Vector>)
    requires IsSqrt(sqrt)
    ensures SumNorms(sqrt, vs) >= 0.0
    decreases |vs|
  {
    if |vs| > 0 {
      NormSquared(sqrt, vs[0]);
      SumNormsNonNegative(sqrt, vs[1..]);
    }
  }

  /** The average force is never negative. */
  lemma AverageForceNonNegative(sqrt: real -> real, effF: seq<Vector>, optimizeEndpoints: bool)
    requires IsSqrt(sqrt) && |effF| > 0
    ensures AverageForce(sqrt, effF, optimizeEndpoints) >= 0.0
  {
    SumNormsNonNegative(sqrt, Interior(effF));
    NormSquared(sqrt, effF[0]);
    NormSquared(sqrt, effF[|effF| - 1]);
  }

  /** Held ends do not count: when the ends are not optimised, the measure
      depends only on the interior forces. */
  lemma AverageIgnoresHeldEnds(sqrt: real -> real, a: seq<Vector>, b: seq<Vector>)
    requires |a| == |b| > 0
    requires forall k :: 0 < k < |a| - 1 ==> a[k] == b[k]
    ensures AverageForce(sqrt, a, false) == AverageForce(sqrt, b, false)
  {
    assert Interior(a) == Interior(b);
  }

  /** If every force that is counted has norm at most `bound`, and no more
      forces are counted than there are images, the average is at most
      `bound`. A single optimised image is counted twice (as first and as
      last image), so that case is excluded. */
  lemma AverageForceBound(sqrt: real -> real, effF: seq<Vector>, optimizeEndpoints: bool, bound: real)
    requires |effF| > 0 && bound >= 0.0
    requires |effF| >= 2 || !optimizeEndpoints
    requires forall k :: 0 < k < |effF| - 1 ==> Norm(sqrt, effF[k]) <= bound
    requires optimizeEndpoints ==> Norm(sqrt, effF[0]) <= bound && Norm(sqrt, effF[|effF| - 1]) <= bound
    ensures AverageForce(sqrt, effF, optimizeEndpoints) <= bound
  {
    var M := |effF|;
    var inner := Interior(effF);
    SumNormsBound(sqrt, inner, bound);
    var ends := if optimizeEndpoints then Norm(sqrt, effF[0]) + Norm(sqrt, effF[M - 1]) else 0.0;
    var total := SumNorms(sqrt, inner) + ends;
    assert total <= (Counted(M, optimizeEndpoints) as real) * bound;
    assert Counted(M, optimizeEndpoints) <= M;
    assert (Counted(M, optimizeEndpoints) as real) * bound <= (M as real) * bound;
    DivideBound(total, M as real, bound);
  }

  lemma DivideBound(total: real, m: real, b: real)
    requires m > 0.0 && total <= m * b
    ensures total / m <= b
  {
  }

  /** With a single image whose ends are optimised, that image's force
      counts twice: the measure is twice its norm. */
  lemma SingleImageCountedTwice(sqrt: real -> real, f: Vector)
    ensures AverageForce(sqrt, [f], true) == 2.0 * Norm(sqrt, f)
  {
  }
}
