# A Dafny model of the NEB minimum-energy-path engine

This project models the nudged elastic band (NEB) engine of mitric-lab/NEB. The engine finds a minimum energy path between two molecular geometries. It keeps a chain of images (flat coordinate vectors, in bohr), each labelled with the electronic state it resides on. In each iteration it:

- evaluates the energy and gradient of every image with an external electronic-structure program;
- builds the improved tangent of Henkelman and Jónsson at every interior image;
- combines a spring force along the tangent with the part of the true force perpendicular to it;
- moves the band by a damped Verlet step, after an Euler step from rest on the first iteration;
- stops when the average effective force falls below a tolerance, or when the iteration budget is spent.

Two interpolants turn the converged chain into functions of a reaction coordinate in [0, 1]. One gives a cubic Hermite energy profile and the other a piecewise-linear geometry path. The calculator drivers choose an external program by name, splice the current geometry into its input template, and read its energy and gradient back.

The model is purely functional:

- Vectors are `seq<real>`.
- The Python exceptions, failed `assert`s and NaNs the model covers become `Result` error values. Those it does not cover are listed under "Left out".
- The external program is a parameter `evaluate: Vector -> Option<Evaluation>`, where `None` stands for a failed run.
- The square root behind every norm is a parameter `sqrt`. The lemmas that need its properties require `IsSqrt(sqrt)` (the root squares back) or `NonNegativeRoot(sqrt)`.
- The rendering of a number by `%+12.10f` and Python's `float()` are parameters too.

Modules, one per file:

| file | module | what it holds |
|---|---|---|
| base.dfy | Base | `Option`, `Result` (usable with `:-`), `Abs`, `Max`, `Min`, Python's negative indexing |
| vectors.dfy | Vectors | numpy vector arithmetic, the dot product, the norm and normalisation |
| text.dfy | Text | the string functions the drivers use (`strip`, `split`, `upper`, `capitalize`, `%2s`) |
| calculators.dfy | Calculators | `get_calculator` and the pure parts of `run_qchem`, `run_gaussian_16` and `run_bagel` |
| neb_model.dfy | NebModel | the constructor's settings, the energies and forces of one evaluation, the error values |
| initial_path.dfy | InitialPath | `addImagesLinearly` |
| tangent.dfy | Tangents | `_getTangents` |
| forces.dfy | Forces | `_getEffectiveForces` and `_converged` |
| optimizer.dfy | Optimizer | `_getPES` and `findMEP`, with an independent step-by-step semantics of the loop |
| interpolation.dfy | Interpolation | `splineMEProfile`/`MEfunc` and `splineMEPath`/`MEPfunc` |

Facts about the code that the model follows:

- The only integrator is the damped Verlet step (optimize_neb_parallel.py:241-254). There is no maximum step length.
- Every image is evaluated in every iteration (`_getPES`, called at optimize_neb_parallel.py:236, loops over all of `self.R`).
- Convergence is decided on the average effective force: the sum of the counted norms divided by the number of images (optimize_neb_parallel.py:202-216).
- The docstring of `addImagesLinearly` promises `nimg` additional images per segment (a path of `nimg + 2` images from two). The code adds `nimg - 2` per segment (a path of `nimg` images from two), because `linspace(0, 1, nimg)` includes both ends and the last sample is dropped.

## Model

| member | source | states |
|---|---|---|
| Calculators.GetCalculator | NEB/calculators.py:275-288 | exactly the four names g09, g16, qchem and bagel are accepted, each selecting the driver it names; every other name is the ValueError carrying that name |
| Calculators.GetCalculatorRoundTrip | NEB/calculators.py:275-288 | every driver is reachable: looking up its own name returns it |
| Calculators.ElementName | NEB/calculators.py:156 | `atom_names[Z-1]` exists exactly when `Z-1` is a valid Python index, negative indices included; otherwise it is the IndexError for that atomic number |
| Calculators.GeometryLines | NEB/calculators.py:153-157 | one line per atom, in atom-list order, each the upper-cased symbol and the three coordinates converted to ångström; it fails exactly when some atom has no element name, and then with that atom's error |
| Calculators.ScanBlock | NEB/calculators.py:163-170 | no contract of its own: the scan is characterised by `ScanBlockFindsBlock` and `IsBlockUnique` |
| Calculators.ScanBlockFindsBlock | NEB/calculators.py:163-170 | the scan's result satisfies an independent description of the block: `end` is the first `$end` line after some `$molecule` line, and `start` is the last `$molecule` line before `end` (or before the end of the file) |
| Calculators.IsBlockUnique | NEB/calculators.py:163-170 | that description admits one answer only, so the scan's result is the block |
| Calculators.QChemSplice | NEB/calculators.py:163-173 | it fails exactly when the template has no `$molecule` line; otherwise, for the block described independently by `IsBlock`, the output is the template up to `start + 2` (clamped to its length), then the geometry lines, then the template from the `$end` line on, or the whole template again when there is no `$end` |
| Calculators.QChemSpliceClosedBlock | NEB/calculators.py:163-173 | for a closed block from `s` to `e`, the output is the template through the charge/multiplicity line, then the geometry, then the template from the `$end` line on; with `e = s + 1` the `$end` line appears twice |
| Calculators.QChemSpliceOpenBlock | NEB/calculators.py:163-173 | without a `$end` line the whole template follows the geometry (`lines[None:]`), so its head appears twice |
| Calculators.QChemInput | NEB/calculators.py:150-177 | it succeeds exactly when every atom has an element name and the template has a `$molecule` line; an unnamed atom's IndexError comes first (the geometry is rendered before the template is read), then the missing block; a successful input is the rendered geometry spliced into the template |
| Calculators.QChemEvaluation | NEB/calculators.py:186-192 | output that is blank once stripped is the missing-energy assertion; otherwise the energy is the parsed stripped text and the gradient is minus the checkpoint forces |
| Calculators.InsertAllIsSplice | NEB/calculators.py:99-101 | inserting the lines one after another at consecutive positions from `index` places them as one block at `index`, with every other line keeping its order |
| Calculators.ExpandPlaceholder | NEB/calculators.py:93-101 | it fails exactly when no `@geom` line exists (the fallback index 9 is followed by a failing `remove`); otherwise the first `@geom` line is replaced by the geometry lines |
| Calculators.Gaussian16InputAsWritten | NEB/calculators.py:90-102 | as written, the driver fails with the missing placeholder whatever the template holds |
| Calculators.Gaussian16Input | NEB/calculators.py:90-102 | read from the copied template: success exactly when the template has the placeholder and every atom has a name, and the result is the template with its first `@geom` line replaced by the geometry |
| Calculators.FirstMoleculeSection | NEB/calculators.py:230-233 | the first section titled "molecule": no earlier section has that title |
| Calculators.BagelGeometry | NEB/calculators.py:241-248 | one entry per atom, in order, each the capitalised element name and the position scaled by the given factor; it fails exactly when some atom has no name |
| Calculators.BagelSplice | NEB/calculators.py:230-248 | it fails exactly when no section is titled "molecule"; otherwise only the first molecule section changes, getting `angstrom` true and the new geometry, and its other keys and every other section stay as they were |
| Calculators.BagelInputAsWritten | NEB/calculators.py:229-251 | as written: it succeeds exactly when a section is titled "molecule" and every atom has an element name; without a molecule section it is the RuntimeError, checked before any atom; otherwise it fails with an unnamed atom's error; the geometry written is the positions unconverted (scale 1) under the ångström flag |
| Calculators.BagelInput | NEB/calculators.py:229-251 | corrected: the same success condition and error order, with the geometry converted by the bohr-to-ångström factor before it is written under the ångström flag |
| Calculators.BagelInputReadsBack | NEB/calculators.py:238-248 | with the conversion, every atom of the rewritten molecule section reads back, in bohr, at the position it was given |
| Calculators.BagelAsWrittenMisplacesAtoms | NEB/calculators.py:238-248 | as written, a hydrogen one bohr from the origin reads back elsewhere |
| Calculators.GradientRow | NEB/calculators.py:268-269 | a line yields a row exactly when it has at least four fields and fields 1 to 3 parse; the row is those three numbers |
| Calculators.GradientRows | NEB/calculators.py:267-270 | three numbers per atom: block `3k..3k+2` is the row of line `2+k`; otherwise the number of a line that does not parse is reported |
| Calculators.BagelEvaluation | NEB/calculators.py:260-272 | the energy is the first line of FORCE.out and `grad[3i..3i+2]` comes from line `2+i`; it succeeds exactly when all of these parse |
| NebModel.NewNeb | optimize_neb_parallel.py:33-64 | construction succeeds exactly when the calculator name is known; the state-crossing constant is kept and the driver chosen is the one named |
| NebModel.NewNebIgnoresConstantAndMass | optimize_neb_parallel.py:44-46 | the spring constant and mass passed to the constructor make no difference (both are hard-set to 1.0) |
| InitialPath.DensePath | optimize_neb_parallel.py:93-108 | the positions fail exactly on an empty chain (`R[-1]`); otherwise there are `(n-1)(nimg-1)+1` of them and the last is the last image |
| InitialPath.PathFromIndex | optimize_neb_parallel.py:95-104 | sample `j` of segment `seg` sits at its offset in the samples and is the linear interpolation at `linspace(0,1,nimg)[j]` |
| InitialPath.DensePathSamples | optimize_neb_parallel.py:95-104 | image `seg*(nimg-1)+j` of the dense chain is `(1-a) R[seg] + a R[seg+1]` with `a = j/(nimg-1)` |
| InitialPath.DensePathKeepsImages | optimize_neb_parallel.py:93-105 | with at least two samples per segment every original image is kept, image `i` at position `i*(nimg-1)` |
| InitialPath.DensePathTwoSamples | optimize_neb_parallel.py:93-105 | with `nimg = 2` the chain is returned unchanged |
| InitialPath.DenseStatesAsWritten | optimize_neb_parallel.py:94-106 | as written, the labels fail exactly on an empty chain; otherwise there are `(n-1)nimg+1` of them, one per sample including the dropped last one |
| InitialPath.StatesFromIndex | optimize_neb_parallel.py:99-102 | the label of sample `j` of segment `seg` is the left state for `j < nimg/2` and the right state otherwise |
| InitialPath.DenseStatesAsWrittenSamples | optimize_neb_parallel.py:99-102 | as written, label `seg*nimg+j` is the label of sample `j` of segment `seg` |
| InitialPath.AlignedStatesFromIndex | optimize_neb_parallel.py:99-104 | corrected: the label of a kept sample sits at that sample's position |
| InitialPath.DenseStates | optimize_neb_parallel.py:94-106 | corrected: one label per kept image, `(n-1)(nimg-1)+1` of them, ending with the last image's state |
| InitialPath.DenseStatesKeepLabels | optimize_neb_parallel.py:93-109 | corrected: as many labels as images, and every original image keeps both its position and its state at the same index |
| InitialPath.AddImagesLinearly | optimize_neb_parallel.py:87-109 | corrected: it fails exactly on an empty chain, and otherwise returns the dense path of `DensePath` and the labels of `DenseStates`: as many images as labels, all of one dimension |
| InitialPath.AddImagesLinearlyAsWritten | optimize_neb_parallel.py:87-109 | as written: the positions are the dense path of `DensePath`, the labels those of `DenseStatesAsWritten`, and for `nimg >= 1` there are `n-1` more labels than images |
| InitialPath.AsWrittenLabelsDrift | optimize_neb_parallel.py:93-109 | as written, for states `[0,0,1]` and `nimg = 2`, the three unchanged images get labels `[0,0,0,1,1]`, so image 2 reads state 0; corrected, they get `[0,0,1]` |
| Tangents.RawTangent | optimize_neb_parallel.py:143-157 | only that the raw tangent has the images' dimension; `TangentWeights` and `RawTangentIsWeighted` characterise its branches |
| Tangents.TangentWeights | optimize_neb_parallel.py:143-157 | the weights of the forward and backward differences are non-negative and not both zero; the backward one vanishes exactly when the energy rises through the image, and the forward one exactly when the next image is lower and the image lies between its neighbours in energy; the higher neighbour never gets the smaller weight; at an extremum the weights are the larger and smaller energy differences |
| Tangents.RawTangentIsWeighted | optimize_neb_parallel.py:143-157 | every branch computes `wp (R[i+1]-R[i]) + wm (R[i]-R[i-1])` with those weights, the equal-energy case `R[i+1]-R[i-1]` included |
| Tangents.GetTangents | optimize_neb_parallel.py:139-159 | no tangent at the two ends and one of the image's dimension at every interior image; it fails exactly when some interior raw tangent has zero norm, reporting the first such image |
| Tangents.TangentsAreUnit | optimize_neb_parallel.py:158-159 | every tangent returned is a unit vector along the raw tangent |
| Forces.NudgeIsPerpendicular | optimize_neb_parallel.py:192 | the nudged true force has no component along a unit tangent |
| Forces.SpringForce | optimize_neb_parallel.py:180-189 | only that the force has the tangent's dimension; `SpringIsAlongTangent` characterises it |
| Forces.SpringIsAlongTangent | optimize_neb_parallel.py:180-189 | the spring force is a multiple of the tangent: the forward pull `k|R[i+1]-R[i]|` less the backward one (`k|R[i]-R[i-1]|` on the same state, the projection of `kSwitch (R[i]-R[i-1])` across a state change) |
| Forces.InteriorForce | optimize_neb_parallel.py:180-193 | only that the force has the image's dimension; `InteriorForceSplits` characterises it |
| Forces.InteriorForceSplits | optimize_neb_parallel.py:180-193 | along a unit tangent the effective force is the spring magnitude; across it, it equals the true force's perpendicular part |
| Forces.EffectiveForces | optimize_neb_parallel.py:160-201 | it fails exactly on an empty chain or when an interior image's successor is on another state, naming the first such image; otherwise there is one force per image of that image's dimension, and the ends get the true force when optimised and zero when held |
| Forces.ImageForce | optimize_neb_parallel.py:163-201 | an end image gets its true force when the ends are optimised and a zero vector otherwise |
| Forces.EffectiveForcesSplit | optimize_neb_parallel.py:163-193 | every interior effective force has the spring magnitude along its unit tangent and the true force's perpendicular part across it |
| Forces.AverageForce | optimize_neb_parallel.py:202-216 | no contract of its own: `AverageForceNonNegative`, `AverageIgnoresHeldEnds` and `AverageForceBound` characterise it |
| Forces.AverageForceNonNegative | optimize_neb_parallel.py:202-212 | the convergence measure is never negative |
| Forces.AverageIgnoresHeldEnds | optimize_neb_parallel.py:205-212 | with held ends the measure depends on the interior forces only |
| Forces.AverageForceBound | optimize_neb_parallel.py:202-212 | if every counted force has norm at most `b`, the measure is at most `b` (for a single optimised image see the next row) |
| Forces.SingleImageCountedTwice | optimize_neb_parallel.py:207-212 | a single optimised image is counted as both first and last image: the measure is twice its norm |
| Optimizer.EvaluateFrom | optimize_neb_parallel.py:132-137 | images `i..` are evaluated in order: `V[k]` is the energy and `F[k]` minus the gradient of image `k`; it fails exactly when some image fails, naming the first one |
| Optimizer.GetPES | optimize_neb_parallel.py:110-138 | every image evaluated in order, with energies and forces of the chain's shape; the first failing image stops it with that image's error |
| Optimizer.UpdatePositions | optimize_neb_parallel.py:241-254 | held ends keep both their positions; every other image moves by the integrator step `Move` on its own effective force, and its previous position becomes the position it had |
| Optimizer.Move | optimize_neb_parallel.py:246-254 | only that the new position has the image's dimension; `VerletVelocityForm`, `FirstStepFromRest` and `RestIsFixedPoint` characterise the step |
| Optimizer.VerletVelocityForm | optimize_neb_parallel.py:250-254 | the damped Verlet step equals the previous displacement damped by `1-friction` plus `dt^2/m` times the force |
| Optimizer.FirstStepFromRest | optimize_neb_parallel.py:245-249 | the first (Euler) step is a Verlet step from rest under half the force |
| Optimizer.RestIsFixedPoint | optimize_neb_parallel.py:241-254 | an image at rest under zero force does not move |
| Optimizer.Step | optimize_neb_parallel.py:235-256 | it succeeds exactly when the evaluation of every image, the tangents and the effective forces all succeed (`StagesSucceed`); a successful iteration evaluated every image, and its energies, effective forces, new band and average force are those of `GetPES`, `GetTangents` then `EffectiveForces`, `UpdatePositions` and `AverageForce` on them (`BuiltFrom`); it keeps the band's shape and (with held ends) its ends, and converges exactly when the average force is below the tolerance |
| Optimizer.StepFailsAtFirstStage | optimize_neb_parallel.py:236-238 | a failed iteration reports the error of the first stage that failed: the evaluation, then the tangents, then the effective forces |
| Optimizer.Run | optimize_neb_parallel.py:235-261 | the loop ends converged within the budget, exhausted after exactly `nsteps` iterations, or failed in a named iteration; held ends never move |
| Optimizer.FindMEP | optimize_neb_parallel.py:218-261 | with no iterations allowed the final report fails; otherwise it is the loop started at rest, with the same bounds and the ends kept when held |
| Optimizer.LoopAgreesWithIterate | optimize_neb_parallel.py:235-261 | for any iteration function, the loop stops at the first iteration that converges or fails, or after the last allowed one, with the outcome the reference semantics reaches there |
| Optimizer.RunIsLoop | optimize_neb_parallel.py:235-261 | `findMEP`'s loop is that generic loop over one `findMEP` iteration |
| Optimizer.RunAgreesWithIterate | optimize_neb_parallel.py:235-261 | the loop's outcome is the one an independent iteration-by-iteration semantics reaches at the first iteration that converges, fails or is the last allowed one; every earlier iteration ran without error and without converging |
| Optimizer.FindMEPAgreesWithIterate | optimize_neb_parallel.py:232-261 | the same, for `findMEP` from a band at rest |
| Interpolation.Knots | optimize_neb_parallel.py:297-303 | knot 0 is zero and each knot adds the distance from the previous image |
| Interpolation.KnotsOrdered | optimize_neb_parallel.py:297-303 | the knots never decrease, and strictly increase when consecutive images are apart |
| Interpolation.KnotsAreValid | optimize_neb_parallel.py:342-348 | the knots of a chain of two or more images start at zero and never decrease |
| Interpolation.NearestKnot | optimize_neb_parallel.py:316 | `argmin`: a knot nearest to `s`, and the first one on a tie |
| Interpolation.SegmentStart | optimize_neb_parallel.py:316-318 | the search start lies at or below `s`; it is the first knot equal to `s` when there is one, and otherwise the next knot lies above `s` or repeats it |
| Interpolation.Locate | optimize_neb_parallel.py:314-324 | a coordinate is found at a knot exactly when it is one (its first occurrence); otherwise it lies strictly inside a positive segment at fraction `(s-x[k])/(x[k+1]-x[k])`, or the search has stopped at a zero-length segment below it |
| Interpolation.LocateKnot | optimize_neb_parallel.py:316-320 | the first knot with a given value is located as itself |
| Interpolation.Fraction | optimize_neb_parallel.py:323-324 | inside a segment the fraction lies strictly between 0 and 1 and measures how far along the segment `s` is |
| Interpolation.Hermite | optimize_neb_parallel.py:325 | the cubic takes the end energies at `a = 0` and `a = 1` |
| Interpolation.HermiteReproducesLinear | optimize_neb_parallel.py:325 | a linear energy whose end slopes equal that constant force is reproduced exactly (slopes enter with a force's sign) |
| Interpolation.HermiteEndSlopes | optimize_neb_parallel.py:325 | as a cubic in `a`, its derivative is `-d0 dx` at `a = 0` and `-d1 dx` at `a = 1` |
| Interpolation.Slope | optimize_neb_parallel.py:305 | the slope is the force projected on the normalised chord, and undefined exactly when the chord has zero norm |
| Interpolation.SplineMEProfile | optimize_neb_parallel.py:284-305 | it fails exactly for fewer than two images; otherwise the knots are the arc lengths, the energies are `V`, and slope `i` is along chord `i` (towards the previous image, or the second image at the first) |
| Interpolation.ArcCoordinate | optimize_neb_parallel.py:315 | `rxc * x[-1]` lies between 0 and the last knot, and is 0 at `rxc = 0` and the last knot at `rxc = 1` |
| Interpolation.KnotCoordinate | optimize_neb_parallel.py:315 | `x[i]/x[-1]` is a valid reaction coordinate that maps back to knot `i` |
| Interpolation.ProfileAt | optimize_neb_parallel.py:316-326 | a zero-length segment is only possible with repeated knots; an undefined slope is only reported inside a segment with an undefined end slope |
| Interpolation.ProfileFollowsHermite | optimize_neb_parallel.py:314-326 | strictly inside a segment, `MEfunc` is the cubic Hermite interpolant of the two end energies and slopes at the fraction of the segment covered; a missing end slope is an error |
| Interpolation.EvalProfile | optimize_neb_parallel.py:306-326 | it is out of range exactly when `rxc` is outside [0, 1]; otherwise it is the profile at `rxc * x[-1]` |
| Interpolation.ProfileAtKnot | optimize_neb_parallel.py:319-320 | a coordinate that lands on a knot gives that knot's energy |
| Interpolation.ProfileStartsAtFirstImage | optimize_neb_parallel.py:314-320 | `MEfunc(0)` is the first image's energy |
| Interpolation.ProfileEndsAtLastImage | optimize_neb_parallel.py:314-320 | with strictly increasing knots, `MEfunc(1)` is the last image's energy |
| Interpolation.ProfileAtImage | optimize_neb_parallel.py:314-320 | with strictly increasing knots, `MEfunc(x[i]/x[-1])` is image `i`'s energy |
| Interpolation.ProfilePassesThroughImages | optimize_neb_parallel.py:284-327 | for a chain whose consecutive images are apart, the profile passes through every image's energy |
| Interpolation.SlopesDefined | optimize_neb_parallel.py:297-305 | for such a chain every slope is defined |
| Interpolation.ProfileDefinedWhereSlopesAre | optimize_neb_parallel.py:314-326 | with increasing knots and defined slopes, every `rxc` in [0, 1] has an energy |
| Interpolation.ProfileDefined | optimize_neb_parallel.py:284-327 | for a chain whose consecutive images are apart, `MEfunc` is defined on all of [0, 1] |
| Interpolation.SplineMEPath | optimize_neb_parallel.py:329-348 | it fails exactly for fewer than two images; otherwise the knots are the arc lengths and the images are the chain |
| Interpolation.PathAt | optimize_neb_parallel.py:358-369 | it only fails on a zero-length segment, which needs repeated knots; a geometry has the images' dimension |
| Interpolation.EvalPath | optimize_neb_parallel.py:349-369 | it is out of range exactly when `rxc` is outside [0, 1]; the other failure needs repeated knots; a geometry has the images' dimension |
| Interpolation.PathAtKnot | optimize_neb_parallel.py:362-363 | a coordinate that lands on a knot gives that knot's image |
| Interpolation.PathFollowsChord | optimize_neb_parallel.py:364-368 | inside a segment the geometry lies on the straight line from one image to the next, at the fraction of the segment's arc length covered |
| Interpolation.PathStartsAtFirstImage | optimize_neb_parallel.py:357-363 | `MEPfunc(0)` is the first image |
| Interpolation.PathEndsAtLastImage | optimize_neb_parallel.py:357-363 | with strictly increasing knots, `MEPfunc(1)` is the last image |
| Interpolation.PathAtImage | optimize_neb_parallel.py:357-363 | with strictly increasing knots, `MEPfunc(x[i]/x[-1])` is image `i` |
| Interpolation.PathPassesThroughImages | optimize_neb_parallel.py:329-370 | for a chain whose consecutive images are apart, the path passes through every image |
| Interpolation.PathDefined | optimize_neb_parallel.py:329-370 | for such a chain, `MEPfunc` is defined on all of [0, 1] |
| Interpolation.CoincidentImagesLeaveAGap | optimize_neb_parallel.py:358-367 | with two coincident interior images (knots 0, 1, 1, 3), `MEPfunc(0.5)` has no value: the search stops at the zero-length segment, although 1.5 lies inside the segment from 1 to 3 |

## Left out

- File and process I/O is not modelled. This covers directory creation, template copying, file reads and writes, `os.system`, `subprocess`, checkpoint parsing and `json.load`/`json.dump`. Templates and output files enter as lists of lines or of sections.
- The electronic-structure programs and `run_gaussian_09` are not modelled. `run_gaussian_09` is only I/O around the external program, which enters as the `evaluate` parameter.
- Parallel evaluation through `multiprocessing.Pool` (`parallel_images > 1`) is not modelled. Its results are matched back by index, so it gives the same energies and forces as the sequential loop that is modelled.
- Printing, `_writeIteration`, `plot`, `getImages`/`getImageStates`, `setGeometry`/`setName`/`setImages` and the command-line script after line 371 are not modelled. They are output, accessors and argument parsing.
- `XYZ.vector2atomlist`, the element table and the bohr-to-ångström factor are not modelled. They come from another package: the flat image vector is passed to `evaluate` as is, and the element table and factor are the parameter `AtomicData`.
- The driver's other arguments (the per-image scratch directory `IMAGE_nn`, `nprocs` and `mem`) are not modelled: `evaluate` depends on the geometry only.
- The Euclidean norm uses a parameter `sqrt` because Dafny has no square root. Float rounding is not modelled: reals are exact.
- The `%+12.10f` rendering and `float()` are parameters, `fmt` and `parse`.
- Forces.EffectiveForces: the state-crossing spring (optimize_neb_parallel.py:166-179) is reported as the error `SurfaceSwitch` rather than computed. Its body calls `special.erf`, and `special` is never imported, so the source raises a NameError there.
- Tangents.GetTangents: a zero-norm raw tangent is reported as the error `ZeroTangent`. numpy would instead fill the tangent with NaN and let the NaN spread into the forces and the average.
- InitialPath.AddImagesLinearly: `nimg` is a natural number. A negative `nimg`, which `linspace` rejects with a ValueError, is not modelled.
- Interpolation.ProfileAt: a zero chord makes the source's slope NaN, and the energy comes out NaN. This is reported as `UndefinedSlope` on the segment that needs that slope.
- Interpolation.EvalPath: the failing assertion `0 <= rxc <= 1` (line 357) is the error `OutOfRange`. On a zero-length segment `MEPfunc` fails the assertion `x[ic] <= s <= x[ic+1]` (line 365) before it divides; this is the error `ZeroLengthSegment`.
- Interpolation.EvalProfile: the failing assertion `0 <= rxc <= 1` (line 314) is the error `OutOfRange`. On a zero-length segment `MEfunc` divides by the zero length, numpy gives an infinite fraction, and the assertion on `a` (line 324) fails; this is the error `ZeroLengthSegment`.
- Interpolation.SplineMEProfile: a one-image chain fails at construction (`R[1]`), and an empty chain would fail only at evaluation. Both are reported at construction as `TooFewImages`.
- Interpolation.SplineMEPath: a one-image chain fails at construction (`R[1]`), and an empty chain would fail only at evaluation (`x[-1]`). Both are reported at construction as `TooFewImages`.
- Interpolation.SplineMEPath: the unused `gradients` list (and so the requirement that `F` exists) is not modelled.
- Optimizer.FindMEP: with `nsteps = 0` the source's final Warning reads an `avgForce` that was never set. This is modelled as the error `NoIterations`. The Warning itself is the outcome `Exhausted`, not an exception.
- Optimizer.FindMEP: `optimize_endpoints` is a boolean. A value that is neither `True` nor `False` (compared with `==`) is not modelled.
- Optimizer.Step: evaluation requires at least as many state labels as images (`|states| >= |R|`), which `setImages` does not check.
- Optimizer.Advance: a band whose shape does not fit is reported as `EmptyChain`. Such a band never arises from `FindMEP`, because every step keeps the band's shape.
- Optimizer.Evaluates: a gradient whose length differs from the image's is the error `GradientShape`. numpy would raise a broadcasting error later, or broadcast silently.
- NebModel.NewNeb: the resource settings (`procs_per_image`, `mem_per_image`, `scratch_dir`, `print_every`) are not kept. They only reach the external program and the output files.
- Calculators.BagelSplice: a section is a record that always has a title, so the KeyError `sec["title"]` raises for a section without one (NEB/calculators.py:231) is not modelled; neither is a template without a `bagel` key (line 230).
- Calculators.QChemSplice: when the template has no `$molecule` line the source fails with a TypeError (`None + 2`). This is the error `NoMoleculeBlock`.

## Findings

| source | as written | input that shows it | evidently intended | confidence | as-written member | corrected member |
|---|---|---|---|---|---|---|
| optimize_neb_parallel.py:93-109 | a state label is appended for every sample of a segment, but an image only for all samples but the last, so there are `n-1` more labels than images and from the second segment on each image reads its neighbour's label | three images on states `[0, 0, 1]` with `nimg = 2`: the chain stays `[R0, R1, R2]` but the labels become `[0, 0, 0, 1, 1]`, so image 2 is taken to be on state 0 | one label per kept image, so that image `i` keeps its state | not executed | InitialPath.AsWrittenLabelsDrift | InitialPath.DenseStatesKeepLabels |
| NEB/calculators.py:90-97 | `neb.gjf` is opened for writing, which empties it, before it is opened for reading, so the lines read are always empty and `lines.remove("@geom\n")` raises | any template containing a `@geom` line | read the copied template, then write the expanded one | not executed | Calculators.Gaussian16InputAsWritten | Calculators.Gaussian16Input |
| NEB/calculators.py:238-248 | the molecule section is marked `"angstrom": True` but the positions, which are in bohr, are written unconverted | a hydrogen at (1, 0, 0) bohr is declared at (1, 0, 0) ångström, about 1.89 bohr from the origin | multiply by the bohr-to-ångström factor, as the QChem and Gaussian drivers do | not executed | Calculators.BagelAsWrittenMisplacesAtoms | Calculators.BagelInputReadsBack |
