/** `NEB._getPES` and `NEB.findMEP`: evaluating every image of the band, and
    the damped-dynamics loop that moves the band until the average effective
    force falls below the tolerance or the step budget is spent.

    The electronic-structure program is a parameter `evaluate`: it maps a
    geometry to its energy and gradient, or to None when the program fails.
    The square root behind every norm is the parameter `sqrt`. */
module Optimizer {
  import opened Base
  import opened Vectors
  import opened Calculators
  import opened NebModel
  import opened Tangents
  import opened Forces

  /** What the engine runs against: the object's settings, the calculator
      and the square root. */
  datatype Env = Env(settings: Settings, evaluate: Vector -> Option<Evaluation>, sqrt: real -> real)

  /** The arguments of `findMEP`. */
  datatype MepOptions = MepOptions(tolerance: real, nsteps: nat, dt: real, friction: real, optimizeEndpoints: bool)

  /** The calculator succeeds on `x` and returns a gradient of the right size. */
  predicate Evaluates(evaluate: Vector -> Option<Evaluation>, x: Vector) {
    evaluate(x).Some? && |evaluate(x).value.gradient| == |x|
  }

  /** The error an image that does not evaluate causes. */
  function EvaluationError(evaluate: Vector -> Option<Evaluation>, x: Vector, k: nat): NebError {
    if evaluate(x).None? then CalculatorFailed(k) else GradientShape(k)
  }

  /** Energies and forces of images `i ..`, in image order. */
  function EvaluateFrom(evaluate: Vector -> Option<Evaluation>, R: seq<Vector>, i: nat): (r: Result<Pes, NebError>)
    requires i <= |R|
    ensures r.Ok? <==> forall k :: i <= k < |R| ==> Evaluates(evaluate, R[k])
    ensures r.Ok? ==> |r.value.V| == |R| - i && |r.value.F| == |R| - i
    ensures r.Ok? ==> forall k :: i <= k < |R| ==>
      r.value.V[k - i] == evaluate(R[k]).value.energy && r.value.F[k - i] == Neg(evaluate(R[k]).value.gradient)
    ensures r.Err? ==> exists k :: (
      && i <= k < |R| && !Evaluates(evaluate, R[k])
      && r.error == EvaluationError(evaluate, R[k], k)
      && forall j :: i <= j < k ==> Evaluates(evaluate, R[j]))
    decreases |R| - i
  {
    if i == |R| then Ok(Pes([], []))
    else if !Evaluates(evaluate, R[i]) then Err(EvaluationError(evaluate, R[i], i))
    else
      var e := evaluate(R[i]).value;
      var rest :- EvaluateFrom(evaluate, R, i + 1);
      Ok(Pes([e.energy] + rest.V, [Neg(e.gradient)] + rest.F))
  }

  /** `_getPES`: every image is evaluated, in order; `V[k]` is the energy and
      `F[k]` minus the gradient of image `k`. The first image the calculator
      fails on (or returns a gradient of the wrong size for) stops it. */
  function GetPES(evaluate: Vector -> Option<Evaluation>, R: seq<Vector>): (r: Result<Pes, NebError>)
    ensures r.Ok? <==> forall k :: 0 <= k < |R| ==> Evaluates(evaluate, R[k])
    ensures r.Ok? ==> PesFits(r.value, R)
    ensures r.Ok? ==> forall k :: 0 <= k < |R| ==>
      r.value.V[k] == evaluate(R[k]).value.energy && r.value.F[k] == Neg(evaluate(R[k]).value.gradient)
    ensures r.Err? ==> exists k :: (
      && 0 <= k < |R| && !Evaluates(evaluate, R[k])
      && r.error == EvaluationError(evaluate, R[k], k)
      && forall j :: 0 <= j < k ==> Evaluates(evaluate, R[j]))
  {
    EvaluateFrom(evaluate, R, 0)
  }

  /** The positions of the band and the positions one step earlier. */
  datatype Band = Band(R: seq<Vector>, Rlast: seq<Vector>)

  predicate BandFits(b: Band) {
    && SameDimension(b.R)
    && |b.Rlast| == |b.R|
    && forall k :: 0 <= k < |b.R| ==> |b.Rlast[k]| == |b.R[k]|
  }

  /** Image `k` of `M` is held in place: it is an end and the ends are not
      optimised. */
  predicate Held(k: nat, M: nat, optimizeEndpoints: bool) {
    !optimizeEndpoints && (k == 0 || k == M - 1)
  }

  /** The new position of one image under force `f`: an Euler step from rest
      on the first iteration, a damped Verlet step afterwards. */
  function Move(istep: nat, opts: MepOptions, x: Vector, xlast: Vector, f: Vector): (r: Vector)
    requires |x| == |xlast| == |f|
    ensures |r| == |x|
  {
    var h := opts.dt * opts.dt / Mass;
    if istep == 0 then Add(x, Scale(0.5 * h, f))
    else Add(Sub(Scale(2.0 - opts.friction, x), Scale(1.0 - opts.friction, xlast)), Scale(h, f))
  }

  /** The update loop of `findMEP`: held ends keep both their position and
      their previous position; every other image moves, and its previous
      position becomes the position it had. */
  function UpdatePositions(istep: nat, opts: MepOptions, b: Band, effF: seq<Vector>): (r: Band)
    requires BandFits(b) && |effF| == |b.R| && forall k :: 0 <= k < |b.R| ==> |effF[k]| == |b.R[k]|
    ensures BandFits(r) && |r.R| == |b.R|
    ensures forall k :: 0 <= k < |b.R| && Held(k, |b.R|, opts.optimizeEndpoints) ==>
      r.R[k] == b.R[k] && r.Rlast[k] == b.Rlast[k]
    ensures forall k :: 0 <= k < |b.R| && !Held(k, |b.R|, opts.optimizeEndpoints) ==>
      r.R[k] == Move(istep, opts, b.R[k], b.Rlast[k], effF[k]) && r.Rlast[k] == b.R[k]
  {
    var M := |b.R|;
    var R := seq(M, k requires 0 <= k < M =>
      if Held(k, M, opts.optimizeEndpoints) then b.R[k] else Move(istep, opts, b.R[k], b.Rlast[k], effF[k]));
    var Rlast := seq(M, k requires 0 <= k < M =>
      if Held(k, M, opts.optimizeEndpoints) then b.Rlast[k] else b.R[k]);
    Band(R, Rlast)
  }

  /** The damped Verlet step in velocity form: the displacement is the
      previous displacement damped by `1 - friction`, plus the force term. */
  lemma VerletVelocityForm(istep: nat, opts: MepOptions, x: Vector, xlast: Vector, f: Vector)
    requires |x| == |xlast| == |f| && istep > 0
    ensures Sub(Move(istep, opts, x, xlast, f), x)
      == Add(Scale(1.0 - opts.friction, Sub(x, xlast)), Scale(opts.dt * opts.dt / Mass, f))
  {
    var g := opts.friction;
    var h := opts.dt * opts.dt / Mass;
    var lhs := Sub(Move(istep, opts, x, xlast, f), x);
    var rhs := Add(Scale(1.0 - g, Sub(x, xlast)), Scale(h, f));
    forall k | 0 <= k < |x|
      ensures lhs[k] == rhs[k]
    {
      assert lhs[k] == (2.0 - g) * x[k] - (1.0 - g) * xlast[k] + h * f[k] - x[k];
    }
  }

  /** The first step is a Verlet step from rest with half the force. */
  lemma FirstStepFromRest(opts: MepOptions, x: Vector, xlast: Vector, f: Vector)
    requires |x| == |xlast| == |f|
    ensures Move(0, opts, x, xlast, f) == Move(1, opts, x, x, Scale(0.5, f))
  {
    var g := opts.friction;
    var h := opts.dt * opts.dt / Mass;
    var lhs := Move(0, opts, x, xlast, f);
    var rhs := Move(1, opts, x, x, Scale(0.5, f));
    forall k | 0 <= k < |x|
      ensures lhs[k] == rhs[k]
    {
      assert rhs[k] == (2.0 - g) * x[k] - (1.0 - g) * x[k] + h * (0.5 * f[k]);
    }
  }

  /** An image at rest under zero force stays where it is. */
  lemma RestIsFixedPoint(istep: nat, opts: MepOptions, x: Vector, f: Vector)
    requires |x| == |f| && IsZero(f)
    ensures Move(istep, opts, x, x, f) == x
  {
    var r := Move(istep, opts, x, x, f);
    forall k | 0 <= k < |x|
      ensures r[k] == x[k]
    {
    }
  }

  /** The quantities one iteration of `findMEP` leaves behind. */
  datatype Iteration = Iteration(band: Band, pes: Pes, effF: seq<Vector>, avgForce: real, converged: bool)

  /** The evaluation of every image, the tangents and the effective forces
      all succeed on band `b`. */
  predicate StagesSucceed(env: Env, opts: MepOptions, states: seq<int>, b: Band)
    requires BandFits(b) && |states| >= |b.R|
  {
    && GetPES(env.evaluate, b.R).Ok?
    && GetTangents(env.sqrt, b.R, GetPES(env.evaluate, b.R).value.V).Ok?
    && EffectiveForces(env.sqrt, env.settings, opts.optimizeEndpoints, b.R, states, GetPES(env.evaluate, b.R).value,
                       GetTangents(env.sqrt, b.R, GetPES(env.evaluate, b.R).value.V).value).Ok?
  }

  /** Every image was evaluated successfully and `pes` holds its energy. */
  predicate EnergiesOf(evaluate: Vector -> Option<Evaluation>, R: seq<Vector>, pes: Pes) {
    |pes.V| == |R| && forall k :: 0 <= k < |R| ==> Evaluates(evaluate, R[k]) && pes.V[k] == evaluate(R[k]).value.energy
  }

  /** `it` is made of the stages of one iteration on band `b`: the
      evaluation, the effective forces along the tangents, the moved band
      and the average force. */
  predicate BuiltFrom(env: Env, opts: MepOptions, states: seq<int>, b: Band, istep: nat, it: Iteration)
    requires BandFits(b) && |states| >= |b.R|
  {
    && GetPES(env.evaluate, b.R) == Ok(it.pes)
    && var t := GetTangents(env.sqrt, b.R, it.pes.V);
    && t.Ok?
    && EffectiveForces(env.sqrt, env.settings, opts.optimizeEndpoints, b.R, states, it.pes, t.value) == Ok(it.effF)
    && it.band == UpdatePositions(istep, opts, b, it.effF)
    && it.avgForce == AverageForce(env.sqrt, it.effF, opts.optimizeEndpoints)
  }

  /** One iteration: evaluate every image, build the tangents and the
      effective forces, move the band, then compute the convergence measure
      from the effective forces. */
  function Step(env: Env, opts: MepOptions, states: seq<int>, b: Band, istep: nat): (r: Result<Iteration, NebError>)
    requires BandFits(b) && |states| >= |b.R|
    ensures r.Ok? ==> BandFits(r.value.band) && |r.value.band.R| == |b.R| > 0
    ensures r.Ok? ==> EnergiesOf(env.evaluate, b.R, r.value.pes)
    ensures r.Ok? ==> (r.value.converged <==> r.value.avgForce < opts.tolerance)
    ensures r.Ok? && !opts.optimizeEndpoints ==>
      r.value.band.R[0] == b.R[0] && r.value.band.R[|b.R| - 1] == b.R[|b.R| - 1]
    ensures r.Ok? ==> BuiltFrom(env, opts, states, b, istep, r.value)
    ensures r.Ok? <==> StagesSucceed(env, opts, states, b)
  {
    var pes :- GetPES(env.evaluate, b.R);
    var t :- GetTangents(env.sqrt, b.R, pes.V);
    var effF :- EffectiveForces(env.sqrt, env.settings, opts.optimizeEndpoints, b.R, states, pes, t);
    var next := UpdatePositions(istep, opts, b, effF);
    var avg := AverageForce(env.sqrt, effF, opts.optimizeEndpoints);
    Ok(Iteration(next, pes, effF, avg, avg < opts.tolerance))
  }

  /** A failed iteration reports the error of the first stage that failed:
      the evaluation, then the tangents, then the effective forces. */
  lemma StepFailsAtFirstStage(env: Env, opts: MepOptions, states: seq<int>, b: Band, istep: nat)
    requires BandFits(b) && |states| >= |b.R|
    ensures var r := Step(env, opts, states, b, istep);
      r.Err? ==> match GetPES(env.evaluate, b.R)
        case Err(e) => r.error == e
        case Ok(pes) => match GetTangents(env.sqrt, b.R, pes.V)
          case Err(e) => r.error == e
          case Ok(t) => EffectiveForces(env.sqrt, env.settings, opts.optimizeEndpoints, b.R, states, pes, t) == Err(r.error)
  {
  }

  /** How `findMEP` ends: converged after `iterations` iterations, out of
      iterations (the Warning), or stopped by an error in iteration
      `iteration`. `pes` is the evaluation of the positions before the last
      move. */
  datatype MepOutcome =
    | Converged(R: seq<Vector>, pes: Pes, iterations: nat, avgForce: real)
    | Exhausted(R: seq<Vector>, pes: Pes, iterations: nat, avgForce: real)
    | Failed(error: NebError, iteration: nat)

  /** The loop of `findMEP` from iteration `istep` on. */
  function Run(env: Env, opts: MepOptions, states: seq<int>, b: Band, istep: nat): (r: MepOutcome)
    requires BandFits(b) && |states| >= |b.R| && istep < opts.nsteps
    ensures r.Converged? ==> istep < r.iterations <= opts.nsteps
    ensures r.Exhausted? ==> r.iterations == opts.nsteps
    ensures r.Failed? ==> istep <= r.iteration < opts.nsteps
    ensures !r.Failed? ==> |r.R| == |b.R| > 0 && SameDimension(r.R)
    ensures !r.Failed? && !opts.optimizeEndpoints ==> r.R[0] == b.R[0] && r.R[|r.R| - 1] == b.R[|b.R| - 1]
    decreases opts.nsteps - istep
  {
    match Step(env, opts, states, b, istep)
    case Err(e) => Failed(e, istep)
    case Ok(it) =>
      if it.converged then Converged(it.band.R, it.pes, istep + 1, it.avgForce)
      else if istep + 1 == opts.nsteps then Exhausted(it.band.R, it.pes, istep + 1, it.avgForce)
      else Run(env, opts, states, it.band, istep + 1)
  }

  /** `findMEP`: the band starts at rest (the previous positions are the
      positions). Without any iteration there is no average force to report
      and the final report fails. */
  function FindMEP(env: Env, opts: MepOptions, R: seq<Vector>, states: seq<int>): (r: MepOutcome)
    requires SameDimension(R) && |states| >= |R|
    ensures r.Failed? <==> opts.nsteps == 0 || Run(env, opts, states, Band(R, R), 0).Failed?
    ensures opts.nsteps == 0 ==> r == Failed(NoIterations, 0)
    ensures r.Converged? ==> 1 <= r.iterations <= opts.nsteps
    ensures r.Exhausted? ==> r.iterations == opts.nsteps
    ensures !r.Failed? ==> |r.R| == |R| && SameDimension(r.R)
    ensures !r.Failed? && !opts.optimizeEndpoints ==> r.R[0] == R[0] && r.R[|R| - 1] == R[|R| - 1]
  {
    if opts.nsteps == 0 then Failed(NoIterations, 0)
    else
      var out := Run(env, opts, states, Band(R, R), 0);
      assert !out.Failed? ==> |out.R| == |R| && SameDimension(out.R);
      assert !out.Failed? && !opts.optimizeEndpoints ==> out.R[0] == R[0] && out.R[|R| - 1] == R[|R| - 1];
      out
  }

  /** One iteration as a function of the band and the iteration number, the
      form the reference semantics below works with. A band that does not
      fit never arises from one that does; it is reported as an empty
      chain. */
  function Advance(env: Env, opts: MepOptions, states: seq<int>): (Band, nat) -> Result<Iteration, NebError> {
    (b: Band, istep: nat) =>
      if BandFits(b) && |states| >= |b.R| then Step(env, opts, states, b, istep) else Err(EmptyChain)
  }

  /** The reference semantics: the iteration reached by running iterations
      `istep .. istep + k` of `step` one after another, ignoring the
      convergence test, or the first error and the iteration it happened
      in. */
  function Iterate(step: (Band, nat) -> Result<Iteration, NebError>, b: Band, istep: nat, k: nat): Result<Iteration, (NebError, nat)>
    decreases k
  {
    match step(b, istep)
    case Err(e) => Err((e, istep))
    case Ok(it) => if k == 0 then Ok(it) else Iterate(step, it.band, istep + 1, k - 1)
  }

  /** The loop has reached iteration `istep + j` without error and without
      converging. */
  predicate KeepsGoing(step: (Band, nat) -> Result<Iteration, NebError>, b: Band, istep: nat, j: nat) {
    var it := Iterate(step, b, istep, j);
    it.Ok? && !it.value.converged
  }

  /** Iterations `istep .. istep + n - 1` all ran without error and without
      converging. */
  predicate RanOn(step: (Band, nat) -> Result<Iteration, NebError>, b: Band, istep: nat, n: nat) {
    forall j :: 0 <= j < n ==> KeepsGoing(step, b, istep, j)
  }

  /** The iteration whose result decided `out`. */
  function Decided(out: MepOutcome): int {
    match out
    case Converged(_, _, n, _) => n - 1
    case Exhausted(_, _, n, _) => n - 1
    case Failed(_, s) => s
  }

  /** `out` is what the reference semantics started at iteration `istep`
      gives for a loop of at most `nsteps` iterations: the first iteration
      that converges, fails or is the last allowed one decides the
      outcome. */
  predicate Matches(step: (Band, nat) -> Result<Iteration, NebError>, nsteps: nat, b: Band, istep: nat, out: MepOutcome) {
    && istep <= Decided(out) < nsteps
    && (out.Exhausted? ==> out.iterations == nsteps)
    && ReachedAfter(step, b, istep, Decided(out) - istep, out)
  }

  /** After `k` iterations that neither fail nor converge, the next one
      gives `out`. */
  predicate ReachedAfter(step: (Band, nat) -> Result<Iteration, NebError>, b: Band, istep: nat, k: nat, out: MepOutcome) {
    && RanOn(step, b, istep, k)
    && match out
       case Converged(R, pes, _, avg) =>
         && Iterate(step, b, istep, k).Ok?
         && (var it := Iterate(step, b, istep, k).value;
             it.converged && it.band.R == R && it.pes == pes && it.avgForce == avg)
       case Exhausted(R, pes, _, avg) =>
         && Iterate(step, b, istep, k).Ok?
         && (var it := Iterate(step, b, istep, k).value;
             !it.converged && it.band.R == R && it.pes == pes && it.avgForce == avg)
       case Failed(e, s) =>
         Iterate(step, b, istep, k) == Err((e, s))
  }

  lemma IterateShift(step: (Band, nat) -> Result<Iteration, NebError>, b: Band, istep: nat, it: Iteration, j: nat)
    requires step(b, istep) == Ok(it)
    ensures Iterate(step, b, istep, j + 1) == Iterate(step, it.band, istep + 1, j)
  {
  }

  lemma RanOnShift(step: (Band, nat) -> Result<Iteration, NebError>, b: Band, istep: nat, it: Iteration, n: nat)
    requires step(b, istep) == Ok(it) && !it.converged
    requires RanOn(step, it.band, istep + 1, n)
    ensures RanOn(step, b, istep, n + 1)
  {
    forall j | 0 <= j < n + 1
      ensures KeepsGoing(step, b, istep, j)
    {
      if j > 0 {
        IterateShift(step, b, istep, it, j - 1);
        assert KeepsGoing(step, it.band, istep + 1, j - 1);
      } else {
        assert Iterate(step, b, istep, 0) == Ok(it);
      }
    }
  }

  lemma ReachedShift(step: (Band, nat) -> Result<Iteration, NebError>, b: Band, istep: nat, it: Iteration, k: nat, out: MepOutcome)
    requires step(b, istep) == Ok(it) && !it.converged
    requires ReachedAfter(step, it.band, istep + 1, k, out)
    ensures ReachedAfter(step, b, istep, k + 1, out)
  {
    RanOnShift(step, b, istep, it, k);
    IterateShift(step, b, istep, it, k);
  }

  /** An outcome that matches from iteration `istep + 1` on, after an
      iteration `istep` that neither failed nor converged, matches from
      iteration `istep`. */
  lemma MatchesShift(step: (Band, nat) -> Result<Iteration, NebError>, nsteps: nat, b: Band, istep: nat, it: Iteration, out: MepOutcome)
    requires step(b, istep) == Ok(it) && !it.converged
    requires Matches(step, nsteps, it.band, istep + 1, out)
    ensures Matches(step, nsteps, b, istep, out)
  {
    var k := Decided(out) - (istep + 1);
    ReachedShift(step, b, istep, it, k, out);
    assert k + 1 == Decided(out) - istep;
  }

  /** The loop of `findMEP` with the iteration as a parameter: `Run` is
      this loop over `Advance` (`RunIsLoop`). */
  function Loop(step: (Band, nat) -> Result<Iteration, NebError>, nsteps: nat, b: Band, istep: nat): MepOutcome
    requires istep < nsteps
    decreases nsteps - istep
  {
    match step(b, istep)
    case Err(e) => Failed(e, istep)
    case Ok(it) =>
      if it.converged then Converged(it.band.R, it.pes, istep + 1, it.avgForce)
      else if istep + 1 == nsteps then Exhausted(it.band.R, it.pes, istep + 1, it.avgForce)
      else Loop(step, nsteps, it.band, istep + 1)
  }

  /** Whatever the iteration, the loop stops exactly at the first iteration
      that converges or fails, and otherwise after the last allowed one. */
  lemma {:induction false} LoopAgreesWithIterate(step: (Band, nat) -> Result<Iteration, NebError>, nsteps: nat, b: Band, istep: nat)
    requires istep < nsteps
    ensures Matches(step, nsteps, b, istep, Loop(step, nsteps, b, istep))
    decreases nsteps - istep
  {
    match step(b, istep)
    case Err(e) =>
      assert Iterate(step, b, istep, 0) == Err((e, istep));
    case Ok(it) =>
      if !it.converged && istep + 1 < nsteps {
        LoopAgreesWithIterate(step, nsteps, it.band, istep + 1);
        MatchesShift(step, nsteps, b, istep, it, Loop(step, nsteps, it.band, istep + 1));
      } else {
        assert Iterate(step, b, istep, 0) == Ok(it);
      }
  }

  /** `Run` is the generic loop over one `findMEP` iteration. */
  lemma {:induction false} RunIsLoop(env: Env, opts: MepOptions, states: seq<int>, b: Band, istep: nat)
    requires BandFits(b) && |states| >= |b.R| && istep < opts.nsteps
    ensures Run(env, opts, states, b, istep) == Loop(Advance(env, opts, states), opts.nsteps, b, istep)
    decreases opts.nsteps - istep
  {
    var step := Advance(env, opts, states);
    assert step(b, istep) == Step(env, opts, states, b, istep);
    match Step(env, opts, states, b, istep)
    case Err(_) =>
    case Ok(it) =>
      if !it.converged && istep + 1 < opts.nsteps {
        RunIsLoop(env, opts, states, it.band, istep + 1);
      }
  }

  /** `findMEP`'s loop stops exactly at the first iteration that converges
      or fails, and otherwise after the last allowed iteration: the outcome
      is the one the reference semantics reaches at that iteration, and
      every earlier iteration ran without error and without converging. */
  lemma RunAgreesWithIterate(env: Env, opts: MepOptions, states: seq<int>, b: Band, istep: nat)
    requires BandFits(b) && |states| >= |b.R| && istep < opts.nsteps
    ensures Matches(Advance(env, opts, states), opts.nsteps, b, istep, Run(env, opts, states, b, istep))
  {
    RunIsLoop(env, opts, states, b, istep);
    LoopAgreesWithIterate(Advance(env, opts, states), opts.nsteps, b, istep);
  }

  /** `findMEP` from a band at rest: with at least one iteration allowed,
      the outcome is the one the reference semantics decides. */
  lemma FindMEPAgreesWithIterate(env: Env, opts: MepOptions, R: seq<Vector>, states: seq<int>)
    requires SameDimension(R) && |states| >= |R| && opts.nsteps > 0
    ensures Matches(Advance(env, opts, states), opts.nsteps, Band(R, R), 0, FindMEP(env, opts, R, states))
  {
    RunAgreesWithIterate(env, opts, states, Band(R, R), 0);
  }
}
