/** `NEB.splineMEProfile` and `NEB.splineMEPath`: functions of a reaction
    coordinate `rxc` in [0, 1] that interpolate the energy and the geometry
    along the chain of images.

    Both place the images on the arc-length axis: knot `x[0]` is 0 and knot
    `x[i]` adds the distance from image `i - 1` to image `i`. A reaction
    coordinate is scaled to `s = rxc * x[n - 1]`, the nearest knot is found
    (the first one on a tie), moved one back when it lies beyond `s`, and then
    either `s` is that knot, or `s` lies inside the segment to the next knot
    at fraction `a`. The energy is a cubic Hermite interpolant whose slopes
    are the forces projected on the chord directions; the geometry is the
    straight line between the two images. */
module Interpolation {
  import opened Base
  import opened Vectors
  import opened NebModel

  /** Why an interpolant has no value. */
  datatype InterpError =
    | TooFewImages                // `R[1]` of a chain with fewer than two images: IndexError
    | OutOfRange                  // the assertion `0 <= rxc <= 1`
    | ZeroLengthSegment(segment: nat) // the segment chosen has no length: the assertion on `a` fails
    | UndefinedSlope(segment: nat)    // an end slope divided by a zero distance: the energy is NaN

  /** Knots start at zero and never decrease. */
  predicate ValidKnots(x: seq<real>) {
    && |x| >= 2
    && x[0] == 0.0
    && forall i, j :: 0 <= i <= j < |x| ==> x[i] <= x[j]
  }

  /** Knots strictly increase: no two images coincide on the arc-length axis. */
  predicate Increasing(x: seq<real>) {
    forall i, j :: 0 <= i < j < |x| ==> x[i] < x[j]
  }

  /** `norm(R[i] - R[i-1])`: the distance from image `i - 1` to image `i`. */
  function Gap(sqrt: real -> real, R: seq<Vector>, i: nat): real
    requires SameDimension(R) && 0 < i < |R|
  {
    Norm(sqrt, Sub(R[i], R[i - 1]))
  }

  /** Consecutive images lie a positive distance apart. */
  predicate Spread(sqrt: real -> real, R: seq<Vector>)
    requires SameDimension(R)
  {
    forall i :: 0 < i < |R| ==> Gap(sqrt, R, i) > 0.0
  }

  /** The arc-length positions of the first `n` images. */
  function Knots(sqrt: real -> real, R: seq<Vector>, n: nat): (x: seq<real>)
    requires n <= |R| && SameDimension(R)
    ensures |x| == n
    ensures n > 0 ==> x[0] == 0.0
    ensures forall i {:trigger Gap(sqrt, R, i)} :: 0 < i < n ==> x[i] == x[i - 1] + Gap(sqrt, R, i)
    decreases n
  {
    if n == 0 then []
    else if n == 1 then [0.0]
    else
      var x := Knots(sqrt, R, n - 1);
      x + [x[n - 2] + Gap(sqrt, R, n - 1)]
  }

  /** Knots never decrease, and strictly increase between images a positive
      distance apart. */
  lemma {:induction false} KnotsOrdered(sqrt: real -> real, R: seq<Vector>, i: nat, j: nat)
    requires NonNegativeRoot(sqrt) && SameDimension(R)
    requires i <= j < |R|
    ensures Knots(sqrt, R, |R|)[i] <= Knots(sqrt, R, |R|)[j]
    ensures Spread(sqrt, R) && i < j ==> Knots(sqrt, R, |R|)[i] < Knots(sqrt, R, |R|)[j]
    decreases j - i
  {
    if i < j {
      var x := Knots(sqrt, R, |R|);
      KnotsOrdered(sqrt, R, i, j - 1);
      NormNonNegative(sqrt, Sub(R[j], R[j - 1]));
      assert x[j] == x[j - 1] + Gap(sqrt, R, j);
    }
  }

  /** With a non-negative root the knots of a chain of two or more images
      are valid, and they strictly increase when consecutive images are a
      positive distance apart. */
  lemma KnotsAreValid(sqrt: real -> real, R: seq<Vector>)
    requires NonNegativeRoot(sqrt)
    requires |R| >= 2 && SameDimension(R)
    ensures ValidKnots(Knots(sqrt, R, |R|))
    ensures Spread(sqrt, R) ==> Increasing(Knots(sqrt, R, |R|))
  {
    var x := Knots(sqrt, R, |R|);
    forall i, j | 0 <= i <= j < |x|
      ensures x[i] <= x[j]
      ensures Spread(sqrt, R) && i < j ==> x[i] < x[j]
    {
      KnotsOrdered(sqrt, R, i, j);
    }
  }

  /** numpy's `argmin(abs(x[..n] - s))`: the first index of a knot nearest
      to `s`. */
  function NearestKnot(x: seq<real>, s: real, n: nat): (k: nat)
    requires 0 < n <= |x|
    ensures k < n
    ensures forall j :: 0 <= j < n ==> Abs(x[k] - s) <= Abs(x[j] - s)
    ensures forall j :: 0 <= j < k ==> Abs(x[k] - s) < Abs(x[j] - s)
  {
    if n == 1 then 0
    else
      var k := NearestKnot(x, s, n - 1);
      if Abs(x[n - 1] - s) < Abs(x[k] - s) then n - 1 else k
  }

  /** The nearest knot lies beyond `s`: then the knot before it lies
      strictly below `s`. */
  lemma BelowNearest(x: seq<real>, s: real, n: nat)
    requires ValidKnots(x) && 0.0 <= s && n < |x| && s < x[n]
    requires forall j :: 0 <= j < n ==> Abs(x[n] - s) < Abs(x[j] - s)
    ensures 0 < n && x[n - 1] < s
  {
    assert x[n - 1] <= x[n];
    assert Abs(x[n] - s) < Abs(x[n - 1] - s);
  }

  /** The nearest knot lies strictly below `s`: then there is a next knot,
      and unless it repeats the nearest one it lies strictly beyond `s`. */
  lemma AboveNearest(x: seq<real>, s: real, n: nat)
    requires ValidKnots(x) && s <= x[|x| - 1] && n < |x| && x[n] < s
    requires forall j :: 0 <= j < |x| ==> Abs(x[n] - s) <= Abs(x[j] - s)
    ensures n + 1 < |x| && x[n] <= x[n + 1]
    ensures x[n] < x[n + 1] ==> s < x[n + 1]
  {
    assert n + 1 < |x|;
    assert Abs(x[n] - s) <= Abs(x[n + 1] - s);
  }

  /** `ic` of the source: the nearest knot, moved one back when it lies
      beyond `s`. */
  function SegmentStart(x: seq<real>, s: real): (ic: nat)
    requires ValidKnots(x) && 0.0 <= s <= x[|x| - 1]
    ensures ic < |x| && x[ic] <= s
    ensures (exists j :: 0 <= j < |x| && x[j] == s) ==> x[ic] == s
    ensures x[ic] == s ==> forall j :: 0 <= j < ic ==> x[j] != s
    ensures x[ic] < s ==> ic + 1 < |x| && x[ic] <= x[ic + 1]
    ensures x[ic] < s < x[ic + 1] || (x[ic] < s && x[ic] == x[ic + 1]) || x[ic] == s
    ensures x[ic] < s && x[ic] == x[ic + 1] ==> forall j :: 0 <= j < |x| ==> Abs(x[ic] - s) <= Abs(x[j] - s)
  {
    var nearest := NearestKnot(x, s, |x|);
    if s < x[nearest] then
      BelowNearest(x, s, nearest);
      nearest - 1
    else if s == x[nearest] then
      nearest
    else
      AboveNearest(x, s, nearest);
      nearest
  }

  /** Where a scaled coordinate lies among the knots. */
  datatype Place =
    | AtKnot(knot: nat)                 // `s` equals this knot
    | InSegment(segment: nat, a: real)  // `s` lies inside the segment to the next knot, at fraction `a`
    | Degenerate(segment: nat)          // the segment chosen has length zero

  /** The segment search shared by `MEfunc` and `MEPfunc`. A coordinate
      that is a knot is recognised as its first occurrence; otherwise it
      lies strictly inside a segment of positive length, unless the knot
      nearest to it is repeated and lies below it, in which case the search
      stops at the first copy and its zero-length segment. */
  function Locate(x: seq<real>, s: real): (p: Place)
    requires ValidKnots(x) && 0.0 <= s <= x[|x| - 1]
    ensures p.AtKnot? <==> exists j :: 0 <= j < |x| && x[j] == s
    ensures p.AtKnot? ==> p.knot < |x| && x[p.knot] == s && forall j :: 0 <= j < p.knot ==> x[j] != s
    ensures p.InSegment? ==> (
      && p.segment + 1 < |x|
      && x[p.segment] < s < x[p.segment + 1]
      && p.a == Fraction(x[p.segment], x[p.segment + 1], s))
    ensures p.Degenerate? ==> (
      && p.segment + 1 < |x|
      && x[p.segment] == x[p.segment + 1] < s
      && forall j :: 0 <= j < |x| ==> Abs(x[p.segment] - s) <= Abs(x[j] - s))
  {
    var ic := SegmentStart(x, s);
    if s == x[ic] then AtKnot(ic)
    else
      var dx := Abs(x[ic + 1] - x[ic]);
      if dx == 0.0 then Degenerate(ic)
      else
        assert dx == x[ic + 1] - x[ic];
        InSegment(ic, Fraction(x[ic], x[ic + 1], s))
  }

  /** A knot is located as itself when it is the first knot with its
      value. */
  lemma LocateKnot(x: seq<real>, s: real, k: nat)
    requires ValidKnots(x) && 0.0 <= s <= x[|x| - 1]
    requires k < |x| && x[k] == s
    requires forall j :: 0 <= j < k ==> x[j] != x[k]
    ensures Locate(x, s) == AtKnot(k)
  {
    var place := Locate(x, s);
    assert place.AtKnot?;
    assert place.knot <= k;
  }

  /** With a positive factor, a positive product has a positive other
      factor. */
  lemma PositiveFactor(a: real, b: real)
    requires b > 0.0
    ensures a * b > 0.0 ==> a > 0.0
  {
    if a <= 0.0 {
      assert a * b <= 0.0 * b;
    }
  }

  /** The fraction of a segment of length `dx` that `d` covers. */
  lemma SegmentFraction(d: real, dx: real)
    requires 0.0 < d < dx
    ensures 0.0 < d / dx < 1.0
    ensures d / dx * dx == d
  {
    var q := d / dx;
    assert q * dx == d;
    assert (1.0 - q) * dx == dx - d;
    PositiveFactor(q, dx);
    PositiveFactor(1.0 - q, dx);
  }

  /** `(s - lo) / (hi - lo)`: how far along the segment from `lo` to `hi`
      the coordinate `s` lies, as a fraction of the segment's length. */
  function Fraction(lo: real, hi: real, s: real): (a: real)
    requires lo < s < hi
    ensures 0.0 < a < 1.0
    ensures a * (hi - lo) == s - lo
  {
    SegmentFraction(s - lo, hi - lo);
    (s - lo) / (hi - lo)
  }

  /** The fraction of a positive length `dx` that `d` covers, ends
      included. */
  lemma FractionWithin(d: real, dx: real)
    requires 0.0 < dx && 0.0 <= d <= dx
    ensures 0.0 <= d / dx <= 1.0
    ensures d / dx * dx == d
  {
    if d == 0.0 {
      assert d / dx == 0.0;
    } else if d == dx {
      assert d / dx == 1.0;
    } else {
      SegmentFraction(d, dx);
    }
  }

  /** The cubic Hermite interpolant of `MEfunc` on one segment: energies
      `f0`, `f1` at the ends, end slopes `d0`, `d1` (forces, so minus the
      energy's derivative), segment length `dx`, fraction `a`. */
  function Hermite(a: real, f0: real, f1: real, d0: real, d1: real, dx: real): (h: real)
    ensures a == 0.0 ==> h == f0
    ensures a == 1.0 ==> h == f1
  {
    var df := f1 - f0;
    (1.0 - a) * f0 + a * f1 + a * (1.0 - a) * ((1.0 - a) * (-d0 * dx - df) + a * (d1 * dx + df))
  }

  /** When the energy falls linearly along the segment and both end slopes
      equal that constant force, the interpolant is the straight line: the
      slopes enter with the sign of a force, not of a derivative. */
  lemma HermiteReproducesLinear(a: real, f0: real, m: real, dx: real)
    ensures Hermite(a, f0, f0 - m * dx, m, m, dx) == f0 - m * a * dx
  {
    var f1 := f0 - m * dx;
    assert -m * dx - (f1 - f0) == 0.0;
    assert m * dx + (f1 - f0) == 0.0;
    assert (1.0 - a) * f0 + a * f1 == f0 - m * a * dx;
  }

  /** The interpolant as a cubic in `a`. Its derivative at `a = 0` is
      `c1 = -d0 dx` and at `a = 1` it is `c1 + 2 c2 + 3 c3 = -d1 dx`: along
      the arc `s = x + a dx` the energy falls at the rate of the projected
      force at both ends. */
  lemma HermiteEndSlopes(a: real, f0: real, f1: real, d0: real, d1: real, dx: real)
    ensures var df := f1 - f0;
      var p := -d0 * dx - df;
      var q := d1 * dx + df;
      var c1, c2, c3 := df + p, q - 2.0 * p, p - q;
      && Hermite(a, f0, f1, d0, d1, dx) == f0 + c1 * a + c2 * (a * a) + c3 * (a * a * a)
      && c1 == -d0 * dx
      && c1 + 2.0 * c2 + 3.0 * c3 == -d1 * dx
  {
    var df := f1 - f0;
    var p := -d0 * dx - df;
    var q := d1 * dx + df;
    var w := (1.0 - a) * p + a * q;
    assert w == p + a * (q - p);
    assert a * (1.0 - a) * w == a * w - (a * a) * w;
    assert a * w == a * p + (a * a) * (q - p);
    assert (a * a) * w == (a * a) * p + (a * a * a) * (q - p);
  }

  /** The energy profile: knots, energies and slopes. */
  datatype Profile = Profile(x: seq<real>, f: seq<real>, slope: seq<Option<real>>)

  predicate ProfileShape(p: Profile) {
    ValidKnots(p.x) && |p.f| == |p.x| && |p.slope| == |p.x|
  }

  /** The chord the slope at image `i` is taken along: towards the previous
      image, and towards the second image at the first one. */
  function Chord(R: seq<Vector>, i: nat): (t: Vector)
    requires |R| >= 2 && i < |R| && SameDimension(R)
    ensures |t| == |R[i]|
  {
    if i == 0 then Sub(R[1], R[0]) else Sub(R[i], R[i - 1])
  }

  /** `dot(F[i], t / norm(t))`; a zero chord leaves it NaN. */
  function Slope(sqrt: real -> real, force: Vector, t: Vector): (d: Option<real>)
    requires |force| == |t|
    ensures d.None? <==> Norm(sqrt, t) == 0.0
    ensures d.Some? ==> d.value == Dot(force, Normalize(sqrt, t))
  {
    var n := Norm(sqrt, t);
    if n == 0.0 then None else Some(Dot(force, Scale(1.0 / n, t)))
  }

  /** The forces match the chain image by image. */
  predicate ForcesFit(R: seq<Vector>, F: seq<Vector>) {
    |F| == |R| && forall k :: 0 <= k < |R| ==> |F[k]| == |R[k]|
  }

  /** `splineMEProfile`: knots, the energies `V` and the slopes of the forces
      `F` from the chain's last evaluation. */
  function SplineMEProfile(sqrt: real -> real, R: seq<Vector>, V: seq<real>, F: seq<Vector>): (r: Result<Profile, InterpError>)
    requires SameDimension(R) && |V| == |R| && ForcesFit(R, F)
    ensures r.Err? <==> |R| < 2
    ensures r.Err? ==> r.error == TooFewImages
    ensures r.Ok? ==> r.value.x == Knots(sqrt, R, |R|) && r.value.f == V && |r.value.slope| == |R|
    ensures r.Ok? ==> forall i :: 0 <= i < |R| ==> r.value.slope[i] == Slope(sqrt, F[i], Chord(R, i))
  {
    if |R| < 2 then Err(TooFewImages)
    else Ok(Profile(Knots(sqrt, R, |R|), V, seq(|R|, i requires 0 <= i < |R| => Slope(sqrt, F[i], Chord(R, i)))))
  }

  /** `s = rxc * x[-1]`: the arc length a reaction coordinate stands for.
      It lies between the first and the last knot, and the two ends of the
      reaction coordinate map to the two ends of the arc. */
  function ArcCoordinate(rxc: real, x: seq<real>): (s: real)
    requires 0.0 <= rxc <= 1.0 && ValidKnots(x)
    ensures 0.0 <= s <= x[|x| - 1]
    ensures rxc == 0.0 ==> s == 0.0
    ensures rxc == 1.0 ==> s == x[|x| - 1]
  {
    var last := x[|x| - 1];
    assert x[0] <= last;
    ScaleWithin(rxc, last);
    rxc * last
  }

  /** A fraction of a non-negative length lies between zero and that
      length. */
  lemma ScaleWithin(r: real, len: real)
    requires 0.0 <= r <= 1.0 && 0.0 <= len
    ensures 0.0 <= r * len <= len
  {
    NonNegativeProduct(r, len);
    NonNegativeProduct(1.0 - r, len);
    assert (1.0 - r) * len == len - r * len;
  }

  lemma NonNegativeProduct(a: real, b: real)
    requires 0.0 <= a && 0.0 <= b
    ensures 0.0 <= a * b
  {
  }

  /** `x[i] / x[-1]` is the reaction coordinate of knot `i`. */
  lemma KnotCoordinate(x: seq<real>, i: nat)
    requires ValidKnots(x) && i < |x| && x[|x| - 1] > 0.0
    ensures 0.0 <= x[i] / x[|x| - 1] <= 1.0
    ensures ArcCoordinate(x[i] / x[|x| - 1], x) == x[i]
  {
    var last := x[|x| - 1];
    assert 0.0 <= x[i] <= last;
    FractionWithin(x[i], last);
    var q := x[i] / last;
    assert ArcCoordinate(q, x) == q * last;
  }

  /** The energy at arc length `s`. */
  function ProfileAt(p: Profile, s: real): (r: Result<real, InterpError>)
    requires ProfileShape(p) && 0.0 <= s <= p.x[|p.x| - 1]
    ensures r.Err? ==> r.error.ZeroLengthSegment? || r.error.UndefinedSlope?
    ensures r.Err? && r.error.ZeroLengthSegment? ==> !Increasing(p.x)
    ensures r.Err? && r.error.UndefinedSlope? ==> (
      && Locate(p.x, s).InSegment?
      && var k := Locate(p.x, s).segment;
      p.slope[k].None? || p.slope[k + 1].None?)
  {
    match Locate(p.x, s)
    case AtKnot(k) => Ok(p.f[k])
    case Degenerate(k) => Err(ZeroLengthSegment(k))
    case InSegment(k, a) =>
      if p.slope[k].Some? && p.slope[k + 1].Some? then
        Ok(Hermite(a, p.f[k], p.f[k + 1], p.slope[k].value, p.slope[k + 1].value, p.x[k + 1] - p.x[k]))
      else Err(UndefinedSlope(k))
  }

  /** `MEfunc(rxc)`: the energy at `s = rxc * x[-1]`. */
  function EvalProfile(p: Profile, rxc: real): (r: Result<real, InterpError>)
    requires ProfileShape(p)
    ensures r == Err(OutOfRange) <==> !(0.0 <= rxc <= 1.0)
    ensures r.Err? && r.error.ZeroLengthSegment? ==> !Increasing(p.x)
    ensures 0.0 <= rxc <= 1.0 ==> r == ProfileAt(p, ArcCoordinate(rxc, p.x))
  {
    if !(0.0 <= rxc <= 1.0) then Err(OutOfRange)
    else
      ProfileAt(p, ArcCoordinate(rxc, p.x))
  }

  /** A coordinate that lands on a knot gives that knot's energy, taken at
      the knot's first occurrence. */
  lemma ProfileAtKnot(p: Profile, rxc: real, k: nat)
    requires ProfileShape(p) && 0.0 <= rxc <= 1.0
    requires k < |p.x| && p.x[k] == ArcCoordinate(rxc, p.x)
    requires forall j :: 0 <= j < k ==> p.x[j] != p.x[k]
    ensures EvalProfile(p, rxc) == Ok(p.f[k])
  {
    LocateKnot(p.x, ArcCoordinate(rxc, p.x), k);
  }

  /** Strictly between two knots the profile is the cubic Hermite
      interpolant of the two images' energies and projected forces, at the
      fraction of the segment the coordinate has covered; a missing slope
      at either end is an error. */
  lemma ProfileFollowsHermite(p: Profile, rxc: real)
    requires ProfileShape(p) && 0.0 <= rxc <= 1.0
    requires Locate(p.x, ArcCoordinate(rxc, p.x)).InSegment?
    ensures var s := ArcCoordinate(rxc, p.x);
      var k := Locate(p.x, s).segment;
      && k + 1 < |p.x| && p.x[k] < s < p.x[k + 1]
      && (p.slope[k].Some? && p.slope[k + 1].Some? ==>
            EvalProfile(p, rxc) == Ok(Hermite(Fraction(p.x[k], p.x[k + 1], s), p.f[k], p.f[k + 1],
                                              p.slope[k].value, p.slope[k + 1].value, p.x[k + 1] - p.x[k])))
      && (p.slope[k].None? || p.slope[k + 1].None? ==> EvalProfile(p, rxc) == Err(UndefinedSlope(k)))
  {
  }

  /** The profile starts at the first image's energy. */
  lemma ProfileStartsAtFirstImage(p: Profile)
    requires ProfileShape(p)
    ensures EvalProfile(p, 0.0) == Ok(p.f[0])
  {
    ProfileAtKnot(p, 0.0, 0);
  }

  /** With strictly increasing knots the profile ends at the last image's
      energy. */
  lemma ProfileEndsAtLastImage(p: Profile)
    requires ProfileShape(p) && Increasing(p.x)
    ensures EvalProfile(p, 1.0) == Ok(p.f[|p.f| - 1])
  {
    ProfileAtKnot(p, 1.0, |p.x| - 1);
  }

  /** With strictly increasing knots, image `i`'s coordinate `x[i] / x[-1]`
      gives its energy. */
  lemma ProfileAtImage(p: Profile, i: nat)
    requires ProfileShape(p) && Increasing(p.x) && i < |p.x|
    ensures p.x[|p.x| - 1] > 0.0
    ensures EvalProfile(p, p.x[i] / p.x[|p.x| - 1]) == Ok(p.f[i])
  {
    assert p.x[0] < p.x[|p.x| - 1];
    KnotCoordinate(p.x, i);
    ProfileAtKnot(p, p.x[i] / p.x[|p.x| - 1], i);
  }

  /** When consecutive images are a positive distance apart, the profile
      passes through every image's energy at that image's coordinate
      `x[i] / x[-1]`. */
  lemma ProfilePassesThroughImages(sqrt: real -> real, R: seq<Vector>, V: seq<real>, F: seq<Vector>, i: nat)
    requires NonNegativeRoot(sqrt)
    requires SameDimension(R) && |V| == |R| && ForcesFit(R, F)
    requires |R| >= 2 && Spread(sqrt, R) && i < |R|
    ensures SplineMEProfile(sqrt, R, V, F).Ok?
    ensures ProfileShape(SplineMEProfile(sqrt, R, V, F).value)
    ensures Knots(sqrt, R, |R|)[|R| - 1] > 0.0
    ensures var x := Knots(sqrt, R, |R|);
      EvalProfile(SplineMEProfile(sqrt, R, V, F).value, x[i] / x[|R| - 1]) == Ok(V[i])
  {
    KnotsAreValid(sqrt, R);
    ProfileAtImage(SplineMEProfile(sqrt, R, V, F).value, i);
  }

  /** Between images a positive distance apart every slope of the profile
      is defined. */
  lemma SlopesDefined(sqrt: real -> real, R: seq<Vector>, V: seq<real>, F: seq<Vector>, i: nat)
    requires SameDimension(R) && |V| == |R| && ForcesFit(R, F)
    requires |R| >= 2 && Spread(sqrt, R) && i < |R|
    ensures SplineMEProfile(sqrt, R, V, F).value.slope[i].Some?
  {
    if i == 0 {
      assert Gap(sqrt, R, 1) > 0.0;
    } else {
      assert Gap(sqrt, R, i) > 0.0;
    }
  }

  /** A profile with strictly increasing knots and every slope defined has a
      value at every reaction coordinate in [0, 1]. */
  lemma ProfileDefinedWhereSlopesAre(p: Profile, rxc: real)
    requires ProfileShape(p) && Increasing(p.x) && 0.0 <= rxc <= 1.0
    requires forall i :: 0 <= i < |p.slope| ==> p.slope[i].Some?
    ensures EvalProfile(p, rxc).Ok?
  {
  }

  /** With consecutive images a positive distance apart the profile has a
      value at every reaction coordinate in [0, 1]. */
  lemma ProfileDefined(sqrt: real -> real, R: seq<Vector>, V: seq<real>, F: seq<Vector>, rxc: real)
    requires NonNegativeRoot(sqrt)
    requires SameDimension(R) && |V| == |R| && ForcesFit(R, F)
    requires |R| >= 2 && Spread(sqrt, R) && 0.0 <= rxc <= 1.0
    ensures SplineMEProfile(sqrt, R, V, F).Ok?
    ensures ProfileShape(SplineMEProfile(sqrt, R, V, F).value)
    ensures EvalProfile(SplineMEProfile(sqrt, R, V, F).value, rxc).Ok?
  {
    var p := SplineMEProfile(sqrt, R, V, F).value;
    KnotsAreValid(sqrt, R);
    forall i | 0 <= i < |p.slope|
      ensures p.slope[i].Some?
    {
      SlopesDefined(sqrt, R, V, F, i);
    }
    ProfileDefinedWhereSlopesAre(p, rxc);
  }

  /** The geometry interpolant: knots and the images themselves. */
  datatype MepPath = MepPath(x: seq<real>, images: seq<Vector>)

  predicate PathShape(p: MepPath) {
    ValidKnots(p.x) && |p.images| == |p.x| && SameDimension(p.images)
  }

  /** `splineMEPath`. */
  function SplineMEPath(sqrt: real -> real, R: seq<Vector>): (r: Result<MepPath, InterpError>)
    requires SameDimension(R)
    ensures r.Err? <==> |R| < 2
    ensures r.Err? ==> r.error == TooFewImages
    ensures r.Ok? ==> r.value.x == Knots(sqrt, R, |R|) && r.value.images == R
  {
    if |R| < 2 then Err(TooFewImages) else Ok(MepPath(Knots(sqrt, R, |R|), R))
  }

  /** The geometry at arc length `s`. */
  function PathAt(p: MepPath, s: real): (r: Result<Vector, InterpError>)
    requires PathShape(p) && 0.0 <= s <= p.x[|p.x| - 1]
    ensures r.Err? ==> r.error.ZeroLengthSegment? && !Increasing(p.x)
    ensures r.Ok? ==> |r.value| == |p.images[0]|
  {
    match Locate(p.x, s)
    case AtKnot(k) => Ok(p.images[k])
    case Degenerate(k) => Err(ZeroLengthSegment(k))
    case InSegment(k, a) => Ok(Lerp(a, p.images[k], p.images[k + 1]))
  }

  /** `MEPfunc(rxc)`: the geometry at `s = rxc * x[-1]`. */
  function EvalPath(p: MepPath, rxc: real): (r: Result<Vector, InterpError>)
    requires PathShape(p)
    ensures r == Err(OutOfRange) <==> !(0.0 <= rxc <= 1.0)
    ensures r.Err? ==> r.error.OutOfRange? || r.error.ZeroLengthSegment?
    ensures r.Err? && r.error.ZeroLengthSegment? ==> !Increasing(p.x)
    ensures r.Ok? ==> |r.value| == |p.images[0]|
  {
    if !(0.0 <= rxc <= 1.0) then Err(OutOfRange)
    else
      PathAt(p, ArcCoordinate(rxc, p.x))
  }

  /** A coordinate that lands on a knot gives that knot's image. */
  lemma PathAtKnot(p: MepPath, rxc: real, k: nat)
    requires PathShape(p) && 0.0 <= rxc <= 1.0
    requires k < |p.x| && p.x[k] == ArcCoordinate(rxc, p.x)
    requires forall j :: 0 <= j < k ==> p.x[j] != p.x[k]
    ensures EvalPath(p, rxc) == Ok(p.images[k])
  {
    LocateKnot(p.x, ArcCoordinate(rxc, p.x), k);
  }

  /** Between two knots the geometry lies on the straight line from one
      image to the next, at the fraction of the segment's arc length that
      the coordinate has covered. */
  lemma PathFollowsChord(p: MepPath, rxc: real)
    requires PathShape(p) && 0.0 <= rxc <= 1.0
    requires Locate(p.x, ArcCoordinate(rxc, p.x)).InSegment?
    ensures var place := Locate(p.x, ArcCoordinate(rxc, p.x));
      && EvalPath(p, rxc).Ok?
      && Sub(EvalPath(p, rxc).value, p.images[place.segment])
         == Scale(place.a, Sub(p.images[place.segment + 1], p.images[place.segment]))
  {
    var place := Locate(p.x, ArcCoordinate(rxc, p.x));
    ChordOffset(p, ArcCoordinate(rxc, p.x), place.segment, place.a);
  }

  lemma ChordOffset(p: MepPath, s: real, k: nat, a: real)
    requires PathShape(p) && 0.0 <= s <= p.x[|p.x| - 1]
    requires Locate(p.x, s) == InSegment(k, a)
    ensures PathAt(p, s).Ok?
    ensures Sub(PathAt(p, s).value, p.images[k]) == Scale(a, Sub(p.images[k + 1], p.images[k]))
  {
    LerpOffset(a, p.images[k], p.images[k + 1]);
  }

  /** The path starts at the first image. */
  lemma PathStartsAtFirstImage(p: MepPath)
    requires PathShape(p)
    ensures EvalPath(p, 0.0) == Ok(p.images[0])
  {
    PathAtKnot(p, 0.0, 0);
  }

  /** With strictly increasing knots the path ends at the last image. */
  lemma PathEndsAtLastImage(p: MepPath)
    requires PathShape(p) && Increasing(p.x)
    ensures EvalPath(p, 1.0) == Ok(p.images[|p.images| - 1])
  {
    PathAtKnot(p, 1.0, |p.x| - 1);
  }

  /** With strictly increasing knots, image `i`'s coordinate `x[i] / x[-1]`
      gives the image itself. */
  lemma PathAtImage(p: MepPath, i: nat)
    requires PathShape(p) && Increasing(p.x) && i < |p.x|
    ensures p.x[|p.x| - 1] > 0.0
    ensures EvalPath(p, p.x[i] / p.x[|p.x| - 1]) == Ok(p.images[i])
  {
    assert p.x[0] < p.x[|p.x| - 1];
    KnotCoordinate(p.x, i);
    PathAtKnot(p, p.x[i] / p.x[|p.x| - 1], i);
  }

  /** When consecutive images are a positive distance apart, the path
      passes through every image at that image's coordinate. */
  lemma PathPassesThroughImages(sqrt: real -> real, R: seq<Vector>, i: nat)
    requires NonNegativeRoot(sqrt)
    requires SameDimension(R) && |R| >= 2 && Spread(sqrt, R) && i < |R|
    ensures SplineMEPath(sqrt, R).Ok?
    ensures PathShape(SplineMEPath(sqrt, R).value)
    ensures Knots(sqrt, R, |R|)[|R| - 1] > 0.0
    ensures var x := Knots(sqrt, R, |R|);
      EvalPath(SplineMEPath(sqrt, R).value, x[i] / x[|R| - 1]) == Ok(R[i])
  {
    KnotsAreValid(sqrt, R);
    PathAtImage(SplineMEPath(sqrt, R).value, i);
  }

  /** With consecutive images a positive distance apart the path has a value
      at every reaction coordinate in [0, 1]. */
  lemma PathDefined(sqrt: real -> real, R: seq<Vector>, rxc: real)
    requires NonNegativeRoot(sqrt)
    requires SameDimension(R) && |R| >= 2 && Spread(sqrt, R) && 0.0 <= rxc <= 1.0
    ensures SplineMEPath(sqrt, R).Ok?
    ensures PathShape(SplineMEPath(sqrt, R).value)
    ensures EvalPath(SplineMEPath(sqrt, R).value, rxc).Ok?
  {
    KnotsAreValid(sqrt, R);
  }

  /** Two coincident images in the middle of a chain: knots 0, 1, 1, 3.
      Halfway along the path (`s = 1.5`) the nearest knot is the first copy
      of 1, below `s`, so the search stops at the zero-length segment
      between the copies and the path has no value there, although the
      point lies inside the segment from 1 to 3. */
  lemma CoincidentImagesLeaveAGap(u: Vector, v: Vector, w: Vector)
    requires |u| == |v| == |w|
    ensures var p := MepPath([0.0, 1.0, 1.0, 3.0], [u, v, v, w]);
      PathShape(p) && EvalPath(p, 0.5) == Err(ZeroLengthSegment(1))
  {
    var x := [0.0, 1.0, 1.0, 3.0];
    assert ArcCoordinate(0.5, x) == 1.5;
    assert NearestKnot(x, 1.5, 1) == 0;
    assert NearestKnot(x, 1.5, 2) == 1;
    assert NearestKnot(x, 1.5, 3) == 1;
    assert NearestKnot(x, 1.5, 4) == 1;
    assert SegmentStart(x, 1.5) == 1;
    assert Locate(x, 1.5) == Degenerate(1);
  }
}
