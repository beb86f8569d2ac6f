/** The data the nudged-elastic-band engine works on: the settings fixed when
    an `NEB` object is built, the chain of images with their electronic-state
    labels, the energies and forces of one evaluation of the chain, and the
    ways a step can fail. */
module NebModel {
  import opened Base
  import opened Vectors
  import opened Calculators

  /** The spring constant between images on the same surface. The
      constructor stores 1.0 whatever it is given. */
  const ForceConstant: real := 1.0

  /** The mass of every image. The constructor stores 1.0 whatever it is
      given. */
  const Mass: real := 1.0

  /** What an `NEB` object keeps from its construction: the spring constant
      used next to a surface switch, and the driver chosen by name. */
  datatype Settings = Settings(forceConstantSwitch: real, calculator: CalculatorKind)

  /** `NEB.__init__`: the `force_constant` and `mass` arguments are accepted
      and dropped (the object always uses `ForceConstant` and `Mass`); an
      unknown calculator name is the ValueError of `get_calculator`. */
  function NewNeb(forceConstant: real, forceConstantSwitch: real, mass: real, calculator: string): (r: Result<Settings, CalcError>)
    ensures r.Ok? <==> GetCalculator(calculator).Ok?
    ensures r.Ok? ==> r.value.forceConstantSwitch == forceConstantSwitch
    ensures r.Ok? ==> CalculatorName(r.value.calculator) == calculator
    ensures r.Err? ==> r.error == UnknownCalculator(calculator)
  {
    var kind :- GetCalculator(calculator);
    Ok(Settings(forceConstantSwitch, kind))
  }

  /** The spring constant and mass given to the constructor make no
      difference to the object it builds. */
  lemma NewNebIgnoresConstantAndMass(k1: real, k2: real, s: real, m1: real, m2: real, calculator: string)
    ensures NewNeb(k1, s, m1, calculator) == NewNeb(k2, s, m2, calculator)
  {
  }

  /** One evaluation of the chain: `V[i]` is the energy of image `i` and
      `F[i]` the true force on it (minus the gradient). */
  datatype Pes = Pes(V: seq<real>, F: seq<Vector>)

  /** Why an optimisation stops without a result. */
  datatype NebError =
    | CalculatorFailed(image: nat)   // the driver raised for this image
    | GradientShape(image: nat)      // the gradient does not match the image's coordinates
    | ZeroTangent(image: nat)        // the raw tangent has zero norm, so it has no direction
    | SurfaceSwitch(image: nat)      // the next image is on another state: the `special.erf` NameError
    | EmptyChain                     // `F[0]` of a chain without images
    | NoIterations                   // `findMEP` with no steps reaches its final report with no average force

  /** All images have the same number of coordinates. */
  predicate SameDimension(R: seq<Vector>) {
    forall i :: 0 <= i < |R| ==> |R[i]| == |R[0]|
  }
}
