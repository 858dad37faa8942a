/** Resources: the tile side chosen from the available memory, and the disk
    space a run of slides is expected to need. The figures psutil reports
    (available memory, free disk space) and the slide file sizes are
    parameters. */
module Resources {
  import opened Wrappers
  import opened Errors
  import opened PathLib

  /** Bytes in a megabyte: `x >> 20` is `x / MiB` for these operands. */
  const MiB: nat := 1048576

  /** `x >> 20` on a Python int: an arithmetic shift, i.e. floor division
      by 2^20 (Dafny's `/` by a positive divisor also rounds down). */
  function ShiftToMegabytes(x: int): (mb: int)
    ensures mb * MiB <= x < mb * MiB + MiB
  {
    x / MiB
  }

  function Abs(x: int): nat {
    if x < 0 then -x else x
  }

  /** `min(keys, key=lambda x: abs(x - target))` over the keys before
      position `upto`: the position of the first key closest to target. */
  function ClosestKeyIndex(table: seq<(int, int)>, target: int, upto: nat): (i: nat)
    requires 1 <= upto <= |table|
    ensures i < upto
    ensures forall j :: 0 <= j < upto ==> Abs(table[i].0 - target) <= Abs(table[j].0 - target)
    ensures forall j :: 0 <= j < i ==> Abs(table[j].0 - target) > Abs(table[i].0 - target)
  {
    if upto == 1 then 0
    else
      var best := ClosestKeyIndex(table, target, upto - 1);
      if Abs(table[upto - 1].0 - target) < Abs(table[best].0 - target) then upto - 1 else best
  }

  /** ResourceChecker: remembers the tile side it last chose in `_mpx`. */
  class ResourceChecker {
    var mpx: Option<int>

    constructor ()
      ensures mpx == None
    {
      mpx := None;
    }

    /** tile_size: the value of the ram_megapixel entry whose key (in MB)
        is closest to the available memory, ties going to the earlier
        entry; stored in `_mpx`. An empty table makes min() raise. */
    method TileSize(ramMegapixel: seq<(int, int)>, availableBytes: nat) returns (r: Result<int, Error>)
      modifies this
      ensures ramMegapixel == [] <==> r.Err?
      ensures r.Err? ==> r.error == EmptySequenceError && mpx == old(mpx)
      ensures r.Ok? ==>
        var k := ClosestKeyIndex(ramMegapixel, ShiftToMegabytes(availableBytes), |ramMegapixel|);
        r.value == ramMegapixel[k].1 && mpx == Some(r.value)
    {
      if ramMegapixel == [] {
        return Err(EmptySequenceError);
      }
      var availableMb := ShiftToMegabytes(availableBytes);
      var closest := ClosestKeyIndex(ramMegapixel, availableMb, |ramMegapixel|);
      mpx := Some(ramMegapixel[closest].1);
      return Ok(ramMegapixel[closest].1);
    }
  }

  /** The chosen tile side is one of the table's values, and it belongs to a
      key no farther from the available memory than any other key. */
  lemma TileSizeIsATableValue(ramMegapixel: seq<(int, int)>, availableMb: int)
    requires ramMegapixel != []
    ensures var k := ClosestKeyIndex(ramMegapixel, availableMb, |ramMegapixel|);
      exists e :: e in ramMegapixel && e.1 == ramMegapixel[k].1 &&
                  forall f :: f in ramMegapixel ==> Abs(e.0 - availableMb) <= Abs(f.0 - availableMb)
  {
    var k := ClosestKeyIndex(ramMegapixel, availableMb, |ramMegapixel|);
    var e := ramMegapixel[k];
    assert e in ramMegapixel;
    forall f | f in ramMegapixel
      ensures Abs(e.0 - availableMb) <= Abs(f.0 - availableMb)
    {
      var j :| 0 <= j < |ramMegapixel| && ramMegapixel[j] == f;
    }
  }

  /** With the shipped table, up to 12000 MB available gives 12000 px tiles
      and more gives 24500 px tiles. */
  lemma ShippedTableThreshold(availableMb: int)
    ensures var table := [(12000, 12000), (12001, 24500)];
      table[ClosestKeyIndex(table, availableMb, 2)].1 == if availableMb <= 12000 then 12000 else 24500
  {
  }

  // ---------------------------------------------------------------------
  // Space estimate

  /** mapping_equation: `int(-2.28 + 1.51 * svs_size)`, evaluated exactly
      and truncated toward zero as int() does. */
  function MappingEquation(svsSize: nat): (jpegSize: int)
    ensures var hundredths := 151 * svsSize - 228;
      (hundredths >= 0 ==> jpegSize * 100 <= hundredths < jpegSize * 100 + 100) &&
      (hundredths < 0 ==> jpegSize * 100 - 100 < hundredths <= jpegSize * 100)
  {
    var hundredths := 151 * svsSize - 228;
    if hundredths >= 0 then hundredths / 100 else -((-hundredths) / 100)
  }

  function Max(xs: seq<int>): (m: int)
    requires xs != []
    ensures m in xs && forall x :: x in xs ==> x <= m
  {
    if |xs| == 1 then xs[0]
    else
      var rest := Max(xs[1..]);
      assert forall x :: x in xs[1..] ==> x in xs;
      assert forall x :: x in xs ==> x == xs[0] || x in xs[1..];
      if xs[0] >= rest then xs[0] else rest
  }

  /** The estimated jpeg sizes of the slides, summed. */
  function MappedSum(sizes: seq<nat>): int {
    if sizes == [] then 0 else MappingEquation(sizes[0]) + MappedSum(sizes[1..])
  }

  /** space_estimator: the largest slide plus the estimated sizes of all
      normalised slides; max() of no slides raises. */
  function SpaceEstimator(sizes: seq<nat>): (r: Result<int, Error>)
    ensures r.Err? <==> sizes == []
    ensures r.Err? ==> r.error == EmptySequenceError
  {
    if sizes == [] then Err(EmptySequenceError)
    else Ok(Max(sizes) + MappedSum(sizes))
  }

  /** Adding a slide adds its estimated jpeg size, and raises the largest
      slide term by what it exceeds the previous maximum. */
  lemma {:induction false} MappedSumOfAppend(sizes: seq<nat>, size: nat)
    ensures MappedSum(sizes + [size]) == MappedSum(sizes) + MappingEquation(size)
  {
    if sizes != [] {
      assert (sizes + [size])[1..] == sizes[1..] + [size];
      MappedSumOfAppend(sizes[1..], size);
    }
  }

  lemma SpaceEstimateOfAppend(sizes: seq<nat>, size: nat)
    requires sizes != []
    ensures SpaceEstimator(sizes + [size]).value ==
      (if size > Max(sizes) then size else Max(sizes)) + MappedSum(sizes) + MappingEquation(size)
  {
    MappedSumOfAppend(sizes, size);
    assert forall x :: x in sizes ==> x in sizes + [size];
    assert size in sizes + [size];
    assert forall x :: x in sizes + [size] ==> x in sizes || x == size;
  }

  /** One slide of 100 bytes needs 100 + 148 bytes. */
  lemma SpaceEstimateOfOneSlide()
    ensures SpaceEstimator([100]) == Ok(248)
  {
  }

  /** space: the free space and the required space in MB, and whether every
      slide is an .svs file. */
  function Space(slidePaths: seq<Path>, sizes: seq<nat>, freeBytes: nat): (r: Result<(int, int, bool), Error>)
    requires |sizes| == |slidePaths|
    ensures r.Err? <==> slidePaths == []
    ensures r.Ok? ==> (r.value.2 <==> forall i :: 0 <= i < |slidePaths| ==> slidePaths[i].Suffix() == ".svs")
    ensures r.Ok? ==> r.value.0 * MiB <= freeBytes < r.value.0 * MiB + MiB
    ensures r.Ok? ==> var estimate := SpaceEstimator(sizes).value;
      r.value.1 * MiB <= estimate < r.value.1 * MiB + MiB
  {
    var allSvs := AllSvs(slidePaths);
    var required :- SpaceEstimator(sizes);
    Ok((ShiftToMegabytes(freeBytes), ShiftToMegabytes(required), allSvs))
  }

  /** `all(map(lambda x: x.suffix == '.svs', slide_paths))`. */
  function AllSvs(slidePaths: seq<Path>): (b: bool)
    ensures b <==> forall i :: 0 <= i < |slidePaths| ==> slidePaths[i].Suffix() == ".svs"
  {
    if slidePaths == [] then true
    else slidePaths[0].Suffix() == ".svs" && AllSvs(slidePaths[1..])
  }
}
