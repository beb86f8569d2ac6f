/** `NEB.addImagesLinearly`: the initial guess for the path, made by
    inserting evenly spaced images on the straight line between each pair of
    consecutive images, together with the electronic-state label of every
    image of the new chain.

    With `nimg` sample points per segment (`linspace(0, 1, nimg)`), sample `j`
    of segment `i` is `(1 - a) R[i] + a R[i+1]` with `a = j / (nimg - 1)`; the
    last sample of each segment is not kept because it is the first sample
    of the next one, and the final image is appended at the end. */
module InitialPath {
  import opened Base
  import opened Vectors
  import opened NebModel

  /** The number of images a segment contributes: `nimg - 1`, and none when
      `linspace` yields no points. */
  function Kept(nimg: nat): nat {
    if nimg == 0 then 0 else nimg - 1
  }

  /** The position `n * q + j` of sample `j` of the `n`-th segment when each
      segment contributes `q` entries, counted segment by segment. */
  function Offset(n: nat, q: nat, j: nat): nat {
    if n == 0 then j else q + Offset(n - 1, q, j)
  }

  lemma {:induction false} OffsetIsProduct(n: nat, q: nat, j: nat)
    ensures Offset(n, q, j) == n * q + j
  {
    if n > 0 {
      OffsetIsProduct(n - 1, q, j);
      MulStep(n - 1, q);
    }
  }

  /** Sample `j` of `linspace(0, 1, nimg)`, for `j < nimg - 1`. */
  function Fraction(j: nat, nimg: nat): real
    requires j + 1 < nimg
  {
    (j as real) / ((nimg - 1) as real)
  }

  /** The images a segment from `u` to `v` contributes, in order. */
  function SegmentImages(u: Vector, v: Vector, nimg: nat): (r: seq<Vector>)
    requires |u| == |v|
    ensures |r| == Kept(nimg)
  {
    seq(Kept(nimg), j requires 0 <= j < Kept(nimg) => Lerp(Fraction(j, nimg), u, v))
  }

  /** The state of sample `j` of a segment between images on states `s` and
      `t`: the first half of the samples (`j < nimg / 2.0`) take `s`. */
  function SampleState(j: int, nimg: nat, s: int, t: int): int {
    if 2 * j < nimg then s else t
  }

  /** The new images of segments `i .. |R|-2`. */
  function PathFrom(R: seq<Vector>, nimg: nat, i: nat): (r: seq<Vector>)
    requires i < |R| && SameDimension(R)
    ensures |r| == Offset(|R| - 1 - i, Kept(nimg), 0)
    decreases |R| - i
  {
    if i == |R| - 1 then []
    else SegmentImages(R[i], R[i + 1], nimg) + PathFrom(R, nimg, i + 1)
  }

  /** `addImagesLinearly` on the positions: the densified chain, or the
      IndexError of `R[-1]` on an empty chain. */
  function DensePath(R: seq<Vector>, nimg: nat): (r: Result<seq<Vector>, NebError>)
    requires SameDimension(R)
    ensures r.Err? <==> |R| == 0
    ensures r.Ok? ==> |r.value| == (|R| - 1) * Kept(nimg) + 1
    ensures r.Ok? ==> r.value[|r.value| - 1] == R[|R| - 1]
  {
    if |R| == 0 then Err(EmptyChain)
    else
      OffsetIsProduct(|R| - 1, Kept(nimg), 0);
      Ok(PathFrom(R, nimg, 0) + [R[|R| - 1]])
  }

  /** The dense chain is made of the sampled segments: image `j` of segment
      `i` sits at position `i * (nimg - 1) + j` and is `Lerp` at `j / (nimg - 1)`. */
  lemma {:induction false} PathFromIndex(R: seq<Vector>, nimg: nat, i: nat, seg: nat, j: nat)
    requires i <= seg < |R| - 1 && SameDimension(R)
    requires j < Kept(nimg)
    ensures Offset(seg - i, Kept(nimg), j) < |PathFrom(R, nimg, i)|
    ensures PathFrom(R, nimg, i)[Offset(seg - i, Kept(nimg), j)] == Lerp(Fraction(j, nimg), R[seg], R[seg + 1])
    decreases seg - i
  {
    var head := SegmentImages(R[i], R[i + 1], nimg);
    var rest := PathFrom(R, nimg, i + 1);
    assert PathFrom(R, nimg, i) == head + rest;
    if seg > i {
      PathFromIndex(R, nimg, i + 1, seg, j);
    }
  }

  lemma MulStep(a: nat, q: nat)
    ensures (a + 1) * q == q + a * q
  {
  }

  /** Every sample of every segment is in the dense chain where expected. */
  lemma DensePathSamples(R: seq<Vector>, nimg: nat, seg: nat, j: nat)
    requires SameDimension(R) && seg < |R| - 1 && j < Kept(nimg)
    ensures DensePath(R, nimg).Ok?
    ensures seg * Kept(nimg) + j < |DensePath(R, nimg).value|
    ensures DensePath(R, nimg).value[seg * Kept(nimg) + j] == Lerp(Fraction(j, nimg), R[seg], R[seg + 1])
  {
    PathFromIndex(R, nimg, 0, seg, j);
    OffsetIsProduct(seg, Kept(nimg), j);
  }

  /** With at least two samples per segment every original image is kept, at
      position `i * (nimg - 1)`. */
  lemma DensePathKeepsImages(R: seq<Vector>, nimg: nat, i: nat)
    requires SameDimension(R) && i < |R| && nimg >= 2
    ensures DensePath(R, nimg).Ok?
    ensures i * Kept(nimg) < |DensePath(R, nimg).value|
    ensures DensePath(R, nimg).value[i * Kept(nimg)] == R[i]
  {
    if i < |R| - 1 {
      DensePathSamples(R, nimg, i, 0);
      assert Fraction(0, nimg) == 0.0;
      LerpAtZero(R[i], R[i + 1]);
    } else {
      assert i * Kept(nimg) == |DensePath(R, nimg).value| - 1;
    }
  }

  /** Two samples per segment add nothing: the chain is returned unchanged. */
  lemma DensePathTwoSamples(R: seq<Vector>)
    requires SameDimension(R) && |R| > 0
    ensures DensePath(R, 2) == Ok(R)
  {
    var p := DensePath(R, 2).value;
    assert |p| == |R|;
    forall i | 0 <= i < |R|
      ensures p[i] == R[i]
    {
      DensePathKeepsImages(R, 2, i);
      assert i * Kept(2) == i;
    }
    assert p == R;
  }

  /** The state labels `addImagesLinearly` builds for segments `i .. |st|-2`:
      one label per sample, `nimg` per segment. */
  function StatesFrom(st: seq<int>, nimg: nat, i: nat): (r: seq<int>)
    requires i < |st|
    ensures |r| == Offset(|st| - 1 - i, nimg, 0)
    decreases |st| - i
  {
    if i == |st| - 1 then []
    else seq(nimg, j => SampleState(j, nimg, st[i], st[i + 1])) + StatesFrom(st, nimg, i + 1)
  }

  /** The state labels as `addImagesLinearly` builds them: a label is
      appended for every sample, including the last sample of each segment,
      which is not kept as an image. */
  function DenseStatesAsWritten(st: seq<int>, nimg: nat): (r: Result<seq<int>, NebError>)
    ensures r.Err? <==> |st| == 0
    ensures r.Ok? ==> |r.value| == (|st| - 1) * nimg + 1
    ensures r.Ok? ==> r.value[|r.value| - 1] == st[|st| - 1]
  {
    if |st| == 0 then Err(EmptyChain)
    else
      OffsetIsProduct(|st| - 1, nimg, 0);
      Ok(StatesFrom(st, nimg, 0) + [st[|st| - 1]])
  }

  lemma {:induction false} StatesFromIndex(st: seq<int>, nimg: nat, i: nat, seg: nat, j: nat)
    requires i <= seg < |st| - 1 && j < nimg
    ensures Offset(seg - i, nimg, j) < |StatesFrom(st, nimg, i)|
    ensures StatesFrom(st, nimg, i)[Offset(seg - i, nimg, j)] == SampleState(j, nimg, st[seg], st[seg + 1])
    decreases seg - i
  {
    var head := seq(nimg, k => SampleState(k, nimg, st[i], st[i + 1]));
    var rest := StatesFrom(st, nimg, i + 1);
    assert StatesFrom(st, nimg, i) == head + rest;
    if seg > i {
      StatesFromIndex(st, nimg, i + 1, seg, j);
    } else {
      assert head[j] == SampleState(j, nimg, st[seg], st[seg + 1]);
    }
  }

  /** As written, label `seg * nimg + j` is the label of sample `j` of
      segment `seg`: the first half of the samples are on the segment's first
      state, the rest on its second. */
  lemma DenseStatesAsWrittenSamples(st: seq<int>, nimg: nat, seg: nat, j: nat)
    requires seg < |st| - 1 && j < nimg
    ensures DenseStatesAsWritten(st, nimg).Ok?
    ensures seg * nimg + j < |DenseStatesAsWritten(st, nimg).value|
    ensures DenseStatesAsWritten(st, nimg).value[seg * nimg + j] == if 2 * j < nimg then st[seg] else st[seg + 1]
  {
    StatesFromIndex(st, nimg, 0, seg, j);
    OffsetIsProduct(seg, nimg, j);
  }

  /** The labels of the samples that are kept, one per image of the dense
      chain. */
  function AlignedStatesFrom(st: seq<int>, nimg: nat, i: nat): (r: seq<int>)
    requires i < |st|
    ensures |r| == Offset(|st| - 1 - i, Kept(nimg), 0)
    decreases |st| - i
  {
    if i == |st| - 1 then []
    else seq(Kept(nimg), j => SampleState(j, nimg, st[i], st[i + 1])) + AlignedStatesFrom(st, nimg, i + 1)
  }

  /** The state labels of the dense chain, one per image: each kept sample
      takes the label its sample index gives it, and the final image keeps
      its own. */
  function DenseStates(st: seq<int>, nimg: nat): (r: Result<seq<int>, NebError>)
    ensures r.Err? <==> |st| == 0
    ensures r.Ok? ==> |r.value| == (|st| - 1) * Kept(nimg) + 1
    ensures r.Ok? ==> r.value[|r.value| - 1] == st[|st| - 1]
  {
    if |st| == 0 then Err(EmptyChain)
    else
      OffsetIsProduct(|st| - 1, Kept(nimg), 0);
      Ok(AlignedStatesFrom(st, nimg, 0) + [st[|st| - 1]])
  }

  lemma {:induction false} AlignedStatesFromIndex(st: seq<int>, nimg: nat, i: nat, seg: nat, j: nat)
    requires i <= seg < |st| - 1 && j < Kept(nimg)
    ensures Offset(seg - i, Kept(nimg), j) < |AlignedStatesFrom(st, nimg, i)|
    ensures AlignedStatesFrom(st, nimg, i)[Offset(seg - i, Kept(nimg), j)] == SampleState(j, nimg, st[seg], st[seg + 1])
    decreases seg - i
  {
    var head := seq(Kept(nimg), k => SampleState(k, nimg, st[i], st[i + 1]));
    var rest := AlignedStatesFrom(st, nimg, i + 1);
    assert AlignedStatesFrom(st, nimg, i) == head + rest;
    if seg > i {
      AlignedStatesFromIndex(st, nimg, i + 1, seg, j);
    } else {
      assert head[j] == SampleState(j, nimg, st[seg], st[seg + 1]);
    }
  }

  /** The labels line up with the images: there is one per image, and the
      image at the position of an original image carries that image's label. */
  lemma DenseStatesKeepLabels(R: seq<Vector>, st: seq<int>, nimg: nat, i: nat)
    requires SameDimension(R) && |st| == |R| && i < |R| && nimg >= 2
    ensures DensePath(R, nimg).Ok? && DenseStates(st, nimg).Ok?
    ensures |DenseStates(st, nimg).value| == |DensePath(R, nimg).value|
    ensures i * Kept(nimg) < |DenseStates(st, nimg).value|
    ensures DenseStates(st, nimg).value[i * Kept(nimg)] == st[i]
    ensures DensePath(R, nimg).value[i * Kept(nimg)] == R[i]
  {
    DensePathKeepsImages(R, nimg, i);
    if i < |R| - 1 {
      AlignedStatesFromIndex(st, nimg, 0, i, 0);
      OffsetIsProduct(i, Kept(nimg), 0);
    } else {
      assert i * Kept(nimg) == |DenseStates(st, nimg).value| - 1;
    }
  }

  /** `addImagesLinearly`: the dense chain and its state labels. */
  function AddImagesLinearly(R: seq<Vector>, st: seq<int>, nimg: nat): (r: Result<(seq<Vector>, seq<int>), NebError>)
    requires SameDimension(R) && |st| == |R|
    ensures r.Err? <==> |R| == 0
    ensures r.Ok? ==> |r.value.0| == |r.value.1| == (|R| - 1) * Kept(nimg) + 1
    ensures r.Ok? ==> SameDimension(r.value.0)
    ensures r.Ok? ==> Ok(r.value.0) == DensePath(R, nimg) && Ok(r.value.1) == DenseStates(st, nimg)
  {
    if |R| == 0 then Err(EmptyChain)
    else
    var path := DensePath(R, nimg).value;
    var labels := DenseStates(st, nimg).value;
    assert SameDimension(path) by {
      forall k | 0 <= k < |path|
        ensures |path[k]| == |R[0]|
      {
        PathDimension(R, nimg, 0, k);
      }
    }
    Ok((path, labels))
  }

  lemma {:induction false} PathDimension(R: seq<Vector>, nimg: nat, i: nat, k: nat)
    requires i < |R| && SameDimension(R)
    requires k < |PathFrom(R, nimg, i)| + 1
    ensures |(PathFrom(R, nimg, i) + [R[|R| - 1]])[k]| == |R[0]|
    decreases |R| - i
  {
    if i < |R| - 1 {
      var head := SegmentImages(R[i], R[i + 1], nimg);
      if k >= |head| {
        PathDimension(R, nimg, i + 1, k - |head|);
        assert (PathFrom(R, nimg, i) + [R[|R| - 1]])[k] == (PathFrom(R, nimg, i + 1) + [R[|R| - 1]])[k - |head|];
      }
    }
  }

  /** `addImagesLinearly` as written: the positions as in `AddImagesLinearly`
      and the labels from `DenseStatesAsWritten`. */
  function AddImagesLinearlyAsWritten(R: seq<Vector>, st: seq<int>, nimg: nat): (r: Result<(seq<Vector>, seq<int>), NebError>)
    requires SameDimension(R) && |st| == |R|
    ensures r.Err? <==> |R| == 0
    ensures r.Ok? ==> |r.value.0| == (|R| - 1) * Kept(nimg) + 1
    ensures r.Ok? && nimg >= 1 ==> |r.value.1| == |r.value.0| + |R| - 1
    ensures r.Ok? ==> Ok(r.value.0) == DensePath(R, nimg) && Ok(r.value.1) == DenseStatesAsWritten(st, nimg)
  {
    if |R| == 0 then Err(EmptyChain)
    else
      var path := DensePath(R, nimg).value;
      var labels := DenseStatesAsWritten(st, nimg).value;
      MulStep(Kept(nimg), |R| - 1);
      Ok((path, labels))
  }

  /** As written, from the second segment on the labels drift away from the
      images: three images on states 0, 0, 1 with two samples per segment
      give back the same three images, but labelled 0, 0, 0 (followed by
      1, 1), so the last image is put on state 0. */
  lemma AsWrittenLabelsDrift(R: seq<Vector>)
    requires |R| == 3 && SameDimension(R)
    ensures AddImagesLinearlyAsWritten(R, [0, 0, 1], 2).Ok?
    ensures AddImagesLinearlyAsWritten(R, [0, 0, 1], 2).value.0 == R
    ensures AddImagesLinearlyAsWritten(R, [0, 0, 1], 2).value.1 == [0, 0, 0, 1, 1]
    ensures AddImagesLinearly(R, [0, 0, 1], 2).value.1 == [0, 0, 1]
  {
    DensePathTwoSamples(R);
    var st := [0, 0, 1];
    assert StatesFrom(st, 2, 2) == [];
    assert StatesFrom(st, 2, 1) == [0, 1];
    assert StatesFrom(st, 2, 0) == [0, 0, 0, 1];
    assert AlignedStatesFrom(st, 2, 1) == [0];
    assert AlignedStatesFrom(st, 2, 0) == [0, 0];
  }
}
