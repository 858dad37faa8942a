/** Normalisation: the discrete decisions of the stain normalisation of one
    tile. The floating-point results (optical densities, eigenvectors,
    least-squares solutions, percentiles, exponentials) are kept as terms
    that record what they were computed from, so the model can say which
    tile and which stain basis every result comes from. */
module Normalisation {
  import opened Wrappers
  import opened SlideTiler

  // ---------------------------------------------------------------------
  // Terms for the numeric results

  /** Optical density of pixel p of the slide sector `sector`. */
  datatype OdPixel = OdOf(sector: Rect, pixel: nat)

  /** hem: the 3 x 2 stain basis calculate_hem derives from a sector. */
  datatype Basis = StainVectorsOf(sector: Rect)

  /** The least-squares stain concentrations of one pixel against a basis. */
  datatype Solved = LstsqOf(basis: Basis, pixel: OdPixel)

  /** tmp: the 99th percentiles of the concentrations over max_s_ref. */
  datatype Ratio = PercentileRatioOf(sCut: seq<Solved>)

  /** c2 = s_final(s_cut, tmp): the concentrations divided by tmp. */
  datatype Concentrations = Scaled(sCut: seq<Solved>, tmp: Ratio)

  /** The columns of he_ref an output image is restored from. */
  datatype BasisColumns = BothColumns | OneColumn(index: nat)

  /** The pixels of an image: restored from concentrations, or numpy
      arrays concatenated along an axis (0: rows, 1: columns). */
  datatype Pixels = Restored(c2: Concentrations, columns: BasisColumns) | Joined(axis: nat, parts: seq<Pixels>)

  datatype Shape = Shape(height: nat, width: nat)

  /** An RGB image: its shape and its pixels. */
  datatype Image = Image(shape: Shape, pixels: Pixels)

  // ---------------------------------------------------------------------
  // calculate_hem: background filter and stain-column order

  /** An RGB triple of optical densities, or a stain vector. */
  datatype Rgb = Rgb(r: real, g: real, b: real)

  predicate IsTissue(od: Rgb, beta: real) {
    od.r >= beta && od.g >= beta && od.b >= beta
  }

  /** `od[~np.any(od < beta, axis=1)]`: the pixels none of whose channels
      is below beta, in their original order. Every tissue pixel is kept
      as often as it occurs, since the percentiles of calculate_hem count
      repeated pixels. */
  function FilterBackground(od: seq<Rgb>, beta: real): (clean: seq<Rgb>)
    ensures |clean| <= |od|
    ensures forall p :: p in clean <==> p in od && IsTissue(p, beta)
    ensures forall p :: multiset(clean)[p] == if IsTissue(p, beta) then multiset(od)[p] else 0
  {
    if od == [] then []
    else
      var rest := FilterBackground(od[1..], beta);
      assert od == [od[0]] + od[1..];
      assert forall p :: p in od <==> p == od[0] || p in od[1..];
      if IsTissue(od[0], beta) then [od[0]] + rest else rest
  }

  /** The filter keeps the order of the pixels: filtering two runs of
      pixels and joining them is filtering the joined runs. */
  lemma {:induction false} FilterBackgroundOfConcat(a: seq<Rgb>, b: seq<Rgb>, beta: real)
    ensures FilterBackground(a + b, beta) == FilterBackground(a, beta) + FilterBackground(b, beta)
  {
    if a == [] {
      assert a + b == b;
    } else {
      var ab := a + b;
      assert ab[0] == a[0] && ab[1..] == a[1..] + b;
      FilterBackgroundOfConcat(a[1..], b, beta);
      var rest := FilterBackground(a[1..], beta);
      if IsTissue(a[0], beta) {
        assert FilterBackground(ab, beta) == [a[0]] + FilterBackground(ab[1..], beta);
        assert FilterBackground(a, beta) == [a[0]] + rest;
      } else {
        assert FilterBackground(ab, beta) == FilterBackground(ab[1..], beta);
        assert FilterBackground(a, beta) == rest;
      }
    }
  }

  /** Filtering twice keeps what filtering once keeps. */
  lemma {:induction false} FilterBackgroundIsIdempotent(od: seq<Rgb>, beta: real)
    ensures FilterBackground(FilterBackground(od, beta), beta) == FilterBackground(od, beta)
  {
    if od != [] {
      FilterBackgroundIsIdempotent(od[1..], beta);
    }
  }

  /** The two extreme stain vectors as the columns of hem: c_min first only
      when its first component is strictly larger. */
  function OrderStainColumns(cMin: Rgb, cMax: Rgb): (hem: (Rgb, Rgb))
    ensures hem.0.r >= hem.1.r
    ensures hem == (cMin, cMax) || hem == (cMax, cMin)
    ensures cMin.r == cMax.r ==> hem == (cMax, cMin)
  {
    if cMin.r > cMax.r then (cMin, cMax) else (cMax, cMin)
  }

  /** Which extreme is which does not matter unless their first components
      tie. */
  lemma OrderStainColumnsIsSymmetric(a: Rgb, b: Rgb)
    requires a.r != b.r
    ensures OrderStainColumns(a, b) == OrderStainColumns(b, a)
  {
  }

  // ---------------------------------------------------------------------
  // nb_lstsq: least squares in ten batches

  const BatchCount: nat := 10

  function Min(a: int, b: int): int {
    if a <= b then a else b
  }

  /** Where batch k of `np.array_split` of `count` columns into ten starts:
      the first `count % 10` batches hold one column more. */
  function BatchStart(count: nat, k: nat): nat {
    k * (count / BatchCount) + Min(k, count % BatchCount)
  }

  /** The ten batches are contiguous, in order, cover every column, and
      their sizes differ by at most one. */
  lemma BatchesPartitionColumns(count: nat, k: nat)
    requires k < BatchCount
    ensures BatchStart(count, 0) == 0
    ensures BatchStart(count, BatchCount) == count
    ensures BatchStart(count, k + 1) - BatchStart(count, k) ==
            count / BatchCount + (if k < count % BatchCount then 1 else 0)
    ensures BatchStart(count, k) <= BatchStart(count, k + 1) <= count
  {
    var q, extra := count / BatchCount, count % BatchCount;
    assert (k + 1) * q == k * q + q;
    assert BatchCount * q + extra == count;
    MulMonotone(k + 1, BatchCount, q);
  }

  /** The least-squares solution of every column of y against basis he. */
  function SolveAll(he: Basis, y: seq<OdPixel>): (s: seq<Solved>)
    ensures |s| == |y|
  {
    seq(|y|, i requires 0 <= i < |y| => LstsqOf(he, y[i]))
  }

  lemma SolveAllOfConcat(he: Basis, a: seq<OdPixel>, b: seq<OdPixel>)
    ensures SolveAll(he, a + b) == SolveAll(he, a) + SolveAll(he, b)
  {
  }

  /** nb_lstsq: solve the columns batch by batch and append each batch's
      solutions to s_cut; the result is s_cut followed by the solution of
      every column, in column order. */
  method NbLstsq(y: seq<OdPixel>, he: Basis, sCut: seq<Solved>) returns (r: seq<Solved>)
    ensures r == sCut + SolveAll(he, y)
  {
    r := sCut;
    var k, lo := 0, 0;
    BatchesPartitionColumns(|y|, 0);
    while k < BatchCount
      invariant 0 <= k <= BatchCount && lo == BatchStart(|y|, k) && lo <= |y|
      invariant r == sCut + SolveAll(he, y[..lo])
    {
      var hi := BatchStart(|y|, k + 1);
      BatchesPartitionColumns(|y|, k);
      BatchStep(he, y, sCut, r, lo, hi);
      r := r + SolveAll(he, y[lo..hi]);
      k, lo := k + 1, hi;
    }
    BatchesPartitionColumns(|y|, 0);
    assert y[..lo] == y;
  }

  /** Appending the solutions of the columns lo .. hi extends the
      solutions of the columns before lo to those before hi. */
  lemma BatchStep(he: Basis, y: seq<OdPixel>, sCut: seq<Solved>, r: seq<Solved>, lo: nat, hi: nat)
    requires lo <= hi <= |y|
    requires r == sCut + SolveAll(he, y[..lo])
    ensures r + SolveAll(he, y[lo..hi]) == sCut + SolveAll(he, y[..hi])
  {
    var before, batch := y[..lo], y[lo..hi];
    assert y[..hi] == before + batch;
    SolveAllOfConcat(he, before, batch);
    assert r + SolveAll(he, batch) == sCut + (SolveAll(he, before) + SolveAll(he, batch));
  }

  // ---------------------------------------------------------------------
  // region_s, s_final, image_restore

  /** The optical densities of a sector, pixel by pixel. */
  function SectorOd(sector: Rect): (od: seq<OdPixel>)
    ensures forall p :: 0 <= p < |od| ==> od[p] == OdOf(sector, p)
  {
    var count := if sector.size.width <= 0 || sector.size.height <= 0 then 0
                 else sector.size.width * sector.size.height;
    seq(count, p requires 0 <= p < count => OdOf(sector, p))
  }

  /** region_s: the concentrations of a sector's pixels, the ratio tmp and
      the stain basis. The basis is he_vals when given and is derived from
      the sector otherwise; the concentrations are solved against it. */
  method RegionS(sector: Rect, heVals: Option<Basis>) returns (sCut: seq<Solved>, tmp: Ratio, hem: Basis)
    ensures hem == if heVals.Some? then heVals.value else StainVectorsOf(sector)
    ensures |sCut| == |SectorOd(sector)|
    ensures forall p :: 0 <= p < |sCut| ==> sCut[p] == LstsqOf(hem, OdOf(sector, p))
    ensures tmp == PercentileRatioOf(sCut)
  {
    var od := SectorOd(sector);
    if heVals.Some? {
      hem := heVals.value;
    } else {
      hem := StainVectorsOf(sector);
    }
    sCut := NbLstsq(od, hem, []);
    tmp := PercentileRatioOf(sCut);
  }

  /** s_final: the concentrations divided by tmp. */
  function SFinal(sCut: seq<Solved>, tmp: Ratio): Concentrations {
    Scaled(sCut, tmp)
  }

  /** The he_ref columns image_restore uses for an output type: both for
      "norm", the second for "eo", the first for anything else. */
  function SelectBasis(outputType: string): (columns: BasisColumns)
    ensures columns == BothColumns <==> outputType == "norm"
    ensures columns == OneColumn(1) <==> outputType == "eo"
    ensures columns.OneColumn? ==> columns.index <= 1
  {
    if outputType == "norm" then BothColumns
    else if outputType == "eo" then OneColumn(1)
    else OneColumn(0)
  }

  /** Every name that is neither "norm" nor "eo", "he" among them, restores
      from the first column. */
  lemma OtherOutputTypesUseFirstColumn(outputType: string)
    requires outputType != "norm" && outputType != "eo"
    ensures SelectBasis(outputType) == OneColumn(0)
  {
  }

  /** image_restore: an image of the tile's size (height rows of width
      pixels) restored from c2 with the output type's basis columns. */
  function ImageRestore(c2: Concentrations, size: Size, outputType: string): (img: Image)
    requires size.width >= 0 && size.height >= 0
    ensures img.shape == Shape(size.height, size.width)
  {
    Image(Shape(size.height, size.width), Restored(c2, SelectBasis(outputType)))
  }

  // ---------------------------------------------------------------------
  // The clamp in image_restore

  /** `astype(np.uint8)` of a non-negative channel value: the integer part
      taken modulo 256 (the wrap-around numpy's cast gives on the usual
      platforms for values beyond 255). */
  function CastToUint8(v: nat): (b: nat)
    ensures b <= 255
  {
    v % 256
  }

  /** `img[img > 255] = 254`. */
  function ClampAbove255(b: nat): nat {
    if b > 255 then 254 else b
  }

  /** image_restore as written: cast first, then clamp. */
  function RestoreChannelAsWritten(v: nat): (b: nat)
    ensures b <= 255
  {
    ClampAbove255(CastToUint8(v))
  }

  /** The clamp after the cast never changes a value. */
  lemma ClampAfterCastNeverFires(v: nat)
    ensures ClampAbove255(CastToUint8(v)) == CastToUint8(v)
  {
  }

  /** A channel value of 300 comes out as 44, not as the clamped 254. */
  lemma RestoreChannelWrapsAround()
    ensures RestoreChannelAsWritten(300) == 44
    ensures RestoreChannel(300) == 254
  {
  }

  /** image_restore as intended: clamp, then cast. */
  function RestoreChannel(v: nat): (b: nat)
    ensures b <= 255
  {
    CastToUint8(ClampAbove255(v))
  }

  /** Clamping first saturates bright values at 254 and keeps the others. */
  lemma RestoreChannelSaturates(v: nat)
    ensures v > 255 ==> RestoreChannel(v) == 254
    ensures v <= 255 ==> RestoreChannel(v) == v
    ensures RestoreChannel(v) <= v
  {
  }
}
