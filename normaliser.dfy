/** Normaliser: NormaliseSlides, the per-slide driver. It cuts a slide into
    its tile grid, normalises the tiles in queue order (the first tile
    calibrates the stain basis `he` and the ratio `tmp`, every later tile
    reuses them), saves each tile per stain in the temporary folder, then
    stitches each stain back into one slide and removes the tiles. */
module Normaliser {
  import opened Wrappers
  import opened Errors
  import opened PathLib
  import opened Defaults
  import opened SlideTiler
  import opened Normalisation
  import opened FileStore
  import opened Stitching

  // ---------------------------------------------------------------------
  // Saving images one after another

  /** The files after saving each (path, image) pair in turn. */
  function SaveAll(files: map<Path, Content>, saves: seq<(Path, Image)>): map<Path, Content> {
    if saves == [] then files
    else
      var last := saves[|saves| - 1];
      SaveAll(files, saves[..|saves| - 1])[last.0 := Raster(last.1)]
  }

  /** Saving a + b is saving a, then b. */
  lemma {:induction false} SaveAllOfConcat(files: map<Path, Content>, a: seq<(Path, Image)>, b: seq<(Path, Image)>)
    ensures SaveAll(files, a + b) == SaveAll(SaveAll(files, a), b)
    decreases |b|
  {
    if b != [] {
      var ab := a + b;
      assert ab[..|ab| - 1] == a + b[..|b| - 1];
      assert ab[|ab| - 1] == b[|b| - 1];
      SaveAllOfConcat(files, a, b[..|b| - 1]);
      assert SaveAll(files, ab) == SaveAll(files, ab[..|ab| - 1])[ab[|ab| - 1].0 := Raster(ab[|ab| - 1].1)];
    } else {
      assert a + b == a;
    }
  }

  /** Saving one more pair updates its path. */
  lemma SaveAllStep(files: map<Path, Content>, saves: seq<(Path, Image)>, k: nat)
    requires k < |saves|
    ensures SaveAll(files, saves[..k + 1]) == SaveAll(files, saves[..k])[saves[k].0 := Raster(saves[k].1)]
  {
    assert saves[..k + 1][..k] == saves[..k];
  }

  /** A path nothing is saved to keeps its content, or stays absent. */
  lemma {:induction false} SaveAllKeeps(files: map<Path, Content>, saves: seq<(Path, Image)>, p: Path)
    requires forall k :: 0 <= k < |saves| ==> saves[k].0 != p
    ensures p in SaveAll(files, saves) <==> p in files
    ensures p in files ==> SaveAll(files, saves)[p] == files[p]
  {
    if saves != [] {
      SaveAllKeeps(files, saves[..|saves| - 1], p);
    }
  }

  /** A path saved to at least once, always with the same image, holds that
      image afterwards. */
  lemma {:induction false} SaveAllHolds(files: map<Path, Content>, saves: seq<(Path, Image)>, p: Path, img: Image)
    requires exists k :: 0 <= k < |saves| && saves[k].0 == p
    requires forall k :: 0 <= k < |saves| && saves[k].0 == p ==> saves[k].1 == img
    ensures p in SaveAll(files, saves) && SaveAll(files, saves)[p] == Raster(img)
  {
    var front := saves[..|saves| - 1];
    if saves[|saves| - 1].0 != p {
      var k :| 0 <= k < |saves| && saves[k].0 == p;
      assert front[k] == saves[k];
      SaveAllHolds(files, front, p, img);
    }
  }

  // ---------------------------------------------------------------------
  // One tile

  /** The ratio the calibrating tile gives: the percentiles of its own
      concentrations against its own stain basis. */
  function SeedRatio(rect: Rect): Ratio {
    PercentileRatioOf(SolveAll(StainVectorsOf(rect), SectorOd(rect)))
  }

  /** The normalised image of one tile for one output type: its
      concentrations against `basis`, scaled by `ratio`, restored at the
      tile's size. */
  function RestoredTile(rect: Rect, basis: Basis, ratio: Ratio, stainType: string): (img: Image)
    requires rect.size.width >= 0 && rect.size.height >= 0
    ensures img.shape == Shape(rect.size.height, rect.size.width)
  {
    ImageRestore(SFinal(SolveAll(basis, SectorOd(rect)), ratio), rect.size, stainType)
  }

  /** The stain names are "norm", "he" and "eo": none has a dot. */
  lemma StainNamesHaveNoDot(outputType: seq<StainType>, j: int)
    requires 0 <= j < |outputType|
    ensures '.' !in StainTypeNames(outputType)[j]
  {
    var name := StainTypeNames(outputType)[j];
    assert StainTypeOfValue(name) == Some(outputType[j]);
    assert name == "norm" || name == "he" || name == "eo";
  }

  /** The path save_jpeg is given for tile i and one stain:
      `Path(temp_subpath, f"{i}_{stain_type}")`, or
      `Path(norm_path, f"{stain_type}_{stem}")` for a single tile; `folder`
      is the one of the two in use. */
  function TileBase(folder: Path, i: nat, stem: string, stainType: string, single: bool): (p: Path)
    ensures p.parts != [] && p.Parent() == folder
  {
    if single then folder.Join(stainType + "_" + stem)
    else folder.Join(Decimal(i) + "_" + stainType)
  }

  /** The file save_jpeg writes for tile i and one stain: the restored tile
      at its `.jpeg` path. */
  function TileSave(folder: Path, i: nat, stem: string, single: bool, rect: Rect,
                    basis: Basis, ratio: Ratio, stainType: string): (Path, Image)
    requires rect.size.width >= 0 && rect.size.height >= 0
  {
    (TileBase(folder, i, stem, stainType, single).WithSuffix(".jpeg"), RestoredTile(rect, basis, ratio, stainType))
  }

  /** What slice_normalisation saves for tile i: for each stain in turn. */
  function TileSavesOf(folder: Path, i: nat, stem: string, single: bool, rect: Rect,
                       basis: Basis, ratio: Ratio, stains: seq<string>): (saves: seq<(Path, Image)>)
    requires rect.size.width >= 0 && rect.size.height >= 0
    ensures |saves| == |stains|
  {
    seq(|stains|, j requires 0 <= j < |stains| => TileSave(folder, i, stem, single, rect, basis, ratio, stains[j]))
  }

  /** Entry k of TileSavesOf: stain k's jpeg path with the tile restored
      from the scaled concentrations. */
  lemma TileSavesAt(folder: Path, i: nat, stem: string, single: bool, rect: Rect,
                    basis: Basis, ratio: Ratio, c2: Concentrations, stains: seq<string>, k: nat)
    requires rect.size.width >= 0 && rect.size.height >= 0
    requires c2 == SFinal(SolveAll(basis, SectorOd(rect)), ratio)
    requires k < |stains|
    ensures TileSavesOf(folder, i, stem, single, rect, basis, ratio, stains)[k]
         == (TileBase(folder, i, stem, stains[k], single).WithSuffix(".jpeg"), ImageRestore(c2, rect.size, stains[k]))
  {
  }

  /** The saving half of slice_normalisation: restore the tile for each
      stain from its scaled concentrations `c2` and save it with
      save_jpeg, stopping at the first failed save. */
  method SaveStains(fs: FileSystem, folder: Path, i: nat, stem: string, single: bool, rect: Rect,
                  basis: Basis, ratio: Ratio, c2: Concentrations, stains: seq<string>)
    returns (r: Result<(), Error>)
    requires rect.size.width >= 0 && rect.size.height >= 0
    requires c2 == SFinal(SolveAll(basis, SectorOd(rect)), ratio)
    modifies fs
    ensures fs.dirs == old(fs.dirs)
    ensures var saves := TileSavesOf(folder, i, stem, single, rect, basis, ratio, stains);
      (r.Ok? <==> saves == [] || folder in fs.dirs) &&
      (r.Ok? ==> fs.files == SaveAll(old(fs.files), saves)) &&
      (r.Err? ==> fs.files == old(fs.files))
  {
    var saves := TileSavesOf(folder, i, stem, single, rect, basis, ratio, stains);
    var k := 0;
    while k < |stains|
      invariant 0 <= k <= |stains|
      invariant fs.dirs == old(fs.dirs)
      invariant fs.files == SaveAll(old(fs.files), saves[..k])
      invariant k > 0 ==> folder in fs.dirs
    {
      var img := ImageRestore(c2, rect.size, stains[k]);
      var base := TileBase(folder, i, stem, stains[k], single);
      TileSavesAt(folder, i, stem, single, rect, basis, ratio, c2, stains, k);
      var saved := fs.SaveJpeg(base, img);
      if saved.Err? {
        assert k == 0;
        assert saves[..k] == [];
        return saved;
      }
      SaveAllStep(old(fs.files), saves, k);
      k := k + 1;
    }
    assert saves[..k] == saves;
    return Ok(());
  }

  // ---------------------------------------------------------------------
  // All tiles of a slide

  /** Every key in the queue is a tile index with a rectangle of
      non-negative size. */
  predicate FitsSlide(order: seq<int>, rects: map<int, Rect>) {
    forall i :: i in order ==> i >= 0 && i in rects && rects[i].size.width >= 0 && rects[i].size.height >= 0
  }

  /** The (tile, stain) pairs of one tile, in stain order. */
  function TileKeys(i: int, stains: seq<string>): (keys: seq<(int, string)>)
    ensures |keys| == |stains|
    ensures forall j :: 0 <= j < |stains| ==> keys[j] == (i, stains[j])
  {
    seq(|stains|, j requires 0 <= j < |stains| => (i, stains[j]))
  }

  /** The (tile, stain) pairs the tile loop of process_slide saves: every
      tile in queue order, and for each tile every stain. */
  function SaveKeys(order: seq<int>, stains: seq<string>): seq<(int, string)> {
    if order == [] then []
    else SaveKeys(order[..|order| - 1], stains) + TileKeys(order[|order| - 1], stains)
  }

  /** Every saved pair is a queued tile and a stain, and every queued tile
      is saved with every stain. */
  lemma {:induction false} SaveKeysEntries(order: seq<int>, stains: seq<string>)
    ensures forall key :: key in SaveKeys(order, stains) ==> key.0 in order && key.1 in stains
    ensures forall k, j :: 0 <= k < |order| && 0 <= j < |stains| ==> (order[k], stains[j]) in SaveKeys(order, stains)
  {
    if order != [] {
      var front := order[..|order| - 1];
      var keys := SaveKeys(order, stains);
      var tail := TileKeys(order[|order| - 1], stains);
      SaveKeysEntries(front, stains);
      assert keys == SaveKeys(front, stains) + tail;
      forall key | key in keys
        ensures key.0 in order && key.1 in stains
      {
        if key in SaveKeys(front, stains) {
          assert key.0 in front;
        } else {
          assert key in tail;
        }
      }
      forall k, j | 0 <= k < |order| && 0 <= j < |stains|
        ensures (order[k], stains[j]) in keys
      {
        if k < |front| {
          assert front[k] == order[k];
          assert (front[k], stains[j]) in SaveKeys(front, stains);
        } else {
          assert keys[|SaveKeys(front, stains)| + j] == tail[j];
        }
      }
    }
  }

  /** The pairs a save list is built from all name tiles that fit the
      slide. */
  predicate KeysFit(keys: seq<(int, string)>, rects: map<int, Rect>) {
    forall key :: key in keys ==> key.0 >= 0 && key.0 in rects && rects[key.0].size.width >= 0 && rects[key.0].size.height >= 0
  }

  /** The saves of a list of (tile, stain) pairs. */
  function SavesOf(folder: Path, stem: string, single: bool, keys: seq<(int, string)>, rects: map<int, Rect>,
                   basis: Basis, ratio: Ratio): (saves: seq<(Path, Image)>)
    requires KeysFit(keys, rects)
    ensures |saves| == |keys|
  {
    seq(|keys|, p requires 0 <= p < |keys| =>
      assert keys[p] in keys;
      TileSave(folder, keys[p].0, stem, single, rects[keys[p].0], basis, ratio, keys[p].1))
  }

  /** What the tile loop of process_slide saves for the queued tiles. */
  function SlideSaves(folder: Path, stem: string, single: bool, order: seq<int>, rects: map<int, Rect>,
                      basis: Basis, ratio: Ratio, stains: seq<string>): seq<(Path, Image)>
    requires FitsSlide(order, rects)
  {
    SaveKeysEntries(order, stains);
    SavesOf(folder, stem, single, SaveKeys(order, stains), rects, basis, ratio)
  }

  /** A prefix of the queue fits the slide as the queue does. */
  lemma PrefixFitsSlide(order: seq<int>, k: nat, rects: map<int, Rect>)
    requires FitsSlide(order, rects) && k <= |order|
    ensures FitsSlide(order[..k], rects)
  {
    forall i | i in order[..k]
      ensures i in order
    {
      var j :| 0 <= j < k && order[..k][j] == i;
      assert order[j] == i;
    }
  }

  /** Queuing one more tile appends that tile's saves. */
  lemma SlideSavesStep(folder: Path, stem: string, single: bool, order: seq<int>, rects: map<int, Rect>,
                       basis: Basis, ratio: Ratio, stains: seq<string>, k: nat)
    requires FitsSlide(order, rects)
    requires k < |order|
    ensures FitsSlide(order[..k], rects) && FitsSlide(order[..k + 1], rects) && order[k] in order
    ensures SlideSaves(folder, stem, single, order[..k + 1], rects, basis, ratio, stains)
         == SlideSaves(folder, stem, single, order[..k], rects, basis, ratio, stains)
            + TileSavesOf(folder, order[k], stem, single, rects[order[k]], basis, ratio, stains)
  {
    var front := order[..k];
    var upto := order[..k + 1];
    PrefixFitsSlide(order, k, rects);
    PrefixFitsSlide(order, k + 1, rects);
    assert upto[..|upto| - 1] == front && upto[|upto| - 1] == order[k];
    assert order[k] in order;
    var before := SaveKeys(front, stains);
    assert KeysFit(before, rects) by {
      SaveKeysEntries(front, stains);
    }
    SavesOfAppend(folder, stem, single, before, order[k], rects, basis, ratio, stains);
  }

  /** The saves of a key list followed by one tile's keys are the saves of
      the list followed by that tile's saves. */
  lemma SavesOfAppend(folder: Path, stem: string, single: bool, before: seq<(int, string)>, i: int,
                      rects: map<int, Rect>, basis: Basis, ratio: Ratio, stains: seq<string>)
    requires KeysFit(before, rects)
    requires i >= 0 && i in rects && rects[i].size.width >= 0 && rects[i].size.height >= 0
    ensures KeysFit(before + TileKeys(i, stains), rects)
    ensures SavesOf(folder, stem, single, before + TileKeys(i, stains), rects, basis, ratio)
         == SavesOf(folder, stem, single, before, rects, basis, ratio)
            + TileSavesOf(folder, i, stem, single, rects[i], basis, ratio, stains)
  {
    var tail := TileKeys(i, stains);
    var keys := before + tail;
    forall key | key in keys
      ensures key.0 >= 0 && key.0 in rects && rects[key.0].size.width >= 0 && rects[key.0].size.height >= 0
    {
      if key !in before {
        assert key in tail;
      }
    }
    var lhs := SavesOf(folder, stem, single, keys, rects, basis, ratio);
    var rhs := SavesOf(folder, stem, single, before, rects, basis, ratio)
            + TileSavesOf(folder, i, stem, single, rects[i], basis, ratio, stains);
    forall p | 0 <= p < |lhs|
      ensures lhs[p] == rhs[p]
    {
      if p >= |before| {
        var j := p - |before|;
        assert keys[p] == tail[j] == (i, stains[j]);
        assert lhs[p] == TileSave(folder, i, stem, single, rects[i], basis, ratio, stains[j]);
        assert rhs[p] == TileSavesOf(folder, i, stem, single, rects[i], basis, ratio, stains)[j];
      } else {
        assert keys[p] == before[p];
        assert rhs[p] == SavesOf(folder, stem, single, before, rects, basis, ratio)[p];
      }
    }
    assert lhs == rhs;
  }

  /** The files after the tile loop has handled the first k queued tiles:
      each tile's images saved in turn, in queue order. */
  function SaveTiles(files: map<Path, Content>, folder: Path, stem: string, single: bool, order: seq<int>, k: nat,
                     rects: map<int, Rect>, basis: Basis, ratio: Ratio, stains: seq<string>): map<Path, Content>
    requires FitsSlide(order, rects) && k <= |order|
  {
    if k == 0 then files
    else
      var i := order[k - 1];
      assert i in order;
      SaveAll(SaveTiles(files, folder, stem, single, order, k - 1, rects, basis, ratio, stains),
              TileSavesOf(folder, i, stem, single, rects[i], basis, ratio, stains))
  }

  /** Handling one more queued tile saves that tile's images after the
      files the earlier tiles left. */
  lemma SaveTilesNext(files: map<Path, Content>, folder: Path, stem: string, single: bool, order: seq<int>, k: nat,
                      rects: map<int, Rect>, basis: Basis, ratio: Ratio, stains: seq<string>)
    requires FitsSlide(order, rects) && k < |order|
    ensures order[k] in order && order[k] >= 0
    ensures var saves := TileSavesOf(folder, order[k], stem, single, rects[order[k]], basis, ratio, stains);
      |saves| == |stains| &&
      SaveTiles(files, folder, stem, single, order, k + 1, rects, basis, ratio, stains)
        == SaveAll(SaveTiles(files, folder, stem, single, order, k, rects, basis, ratio, stains), saves)
  {
    assert order[k] in order;
  }

  /** Handling the first k tiles one by one saves exactly the slide's save
      list for those tiles. */
  lemma {:induction false} SaveTilesIsSlideSaves(files: map<Path, Content>, folder: Path, stem: string, single: bool,
                                                 order: seq<int>, k: nat, rects: map<int, Rect>, basis: Basis,
                                                 ratio: Ratio, stains: seq<string>)
    requires FitsSlide(order, rects) && k <= |order|
    ensures FitsSlide(order[..k], rects)
    ensures SaveTiles(files, folder, stem, single, order, k, rects, basis, ratio, stains)
         == SaveAll(files, SlideSaves(folder, stem, single, order[..k], rects, basis, ratio, stains))
  {
    if k == 0 {
      NoSlideSaves(folder, stem, single, order, rects, basis, ratio, stains);
    } else {
      SaveTilesIsSlideSaves(files, folder, stem, single, order, k - 1, rects, basis, ratio, stains);
      SaveTilesStep(files, folder, stem, single, order, k - 1, rects, basis, ratio, stains);
    }
  }

  /** The inductive step of SaveTilesIsSlideSaves. */
  lemma SaveTilesStep(files: map<Path, Content>, folder: Path, stem: string, single: bool, order: seq<int>, k: nat,
                      rects: map<int, Rect>, basis: Basis, ratio: Ratio, stains: seq<string>)
    requires FitsSlide(order, rects) && k < |order| && FitsSlide(order[..k], rects)
    requires SaveTiles(files, folder, stem, single, order, k, rects, basis, ratio, stains)
          == SaveAll(files, SlideSaves(folder, stem, single, order[..k], rects, basis, ratio, stains))
    ensures FitsSlide(order[..k + 1], rects)
    ensures SaveTiles(files, folder, stem, single, order, k + 1, rects, basis, ratio, stains)
         == SaveAll(files, SlideSaves(folder, stem, single, order[..k + 1], rects, basis, ratio, stains))
  {
    SaveTilesNext(files, folder, stem, single, order, k, rects, basis, ratio, stains);
    SlideSavesExtend(files, folder, stem, single, order, rects, basis, ratio, stains, k);
  }

  /** An empty queue prefix saves nothing. */
  lemma NoSlideSaves(folder: Path, stem: string, single: bool, order: seq<int>, rects: map<int, Rect>,
                     basis: Basis, ratio: Ratio, stains: seq<string>)
    requires FitsSlide(order, rects)
    ensures FitsSlide(order[..0], rects)
    ensures SlideSaves(folder, stem, single, order[..0], rects, basis, ratio, stains) == []
  {
    assert order[..0] == [];
    assert SaveKeys([], stains) == [];
  }

  /** Saving the save list of one more queued tile is saving that tile's
      images after the list of the tiles before it. */
  lemma SlideSavesExtend(files: map<Path, Content>, folder: Path, stem: string, single: bool, order: seq<int>,
                         rects: map<int, Rect>, basis: Basis, ratio: Ratio, stains: seq<string>, k: nat)
    requires FitsSlide(order, rects) && k < |order|
    ensures FitsSlide(order[..k], rects) && FitsSlide(order[..k + 1], rects) && order[k] in order
    ensures SaveAll(files, SlideSaves(folder, stem, single, order[..k + 1], rects, basis, ratio, stains))
         == SaveAll(SaveAll(files, SlideSaves(folder, stem, single, order[..k], rects, basis, ratio, stains)),
                    TileSavesOf(folder, order[k], stem, single, rects[order[k]], basis, ratio, stains))
  {
    SlideSavesStep(folder, stem, single, order, rects, basis, ratio, stains, k);
    SaveAllOfConcat(files, SlideSaves(folder, stem, single, order[..k], rects, basis, ratio, stains),
                    TileSavesOf(folder, order[k], stem, single, rects[order[k]], basis, ratio, stains));
  }

  /** The slicer's queue lists each grid tile once, and every grid tile has
      a rectangle of non-negative size. */
  lemma PlanFitsSlide(w: nat, h: nat, maxSide: int, firstTile: FirstTile, m: int, n: int, tm: TileMap)
    requires IsSlicerPlan(w, h, maxSide, firstTile, m, n, tm)
    ensures forall i :: i in tm.order <==> 0 <= i < m * n
    ensures |tm.order| == m * n
    ensures FitsSlide(tm.order, tm.rects)
  {
    QueueIsPermutation(m * n, SeedIndex(m * n, firstTile).value);
    assert |tm.order| == |multiset(tm.order)| == |multiset(Range(m * n))| == m * n;
    forall i | i in tm.order
      ensures i >= 0 && i in tm.rects && tm.rects[i].size.width >= 0 && tm.rects[i].size.height >= 0
    {
      TileInsideSlide(w, h, m, n, i);
    }
  }

  /** The slicer's queue is never empty, and fits the slide. */
  lemma PlanIsQueued(w: nat, h: nat, maxSide: int, firstTile: FirstTile, m: int, n: int, tm: TileMap)
    requires IsSlicerPlan(w, h, maxSide, firstTile, m, n, tm)
    ensures tm.order != [] && FitsSlide(tm.order, tm.rects)
  {
    PlanFitsSlide(w, h, maxSide, firstTile, m, n, tm);
    assert m * n >= 1;
  }

  /** After the tile loop of a multi-tile slide, the temporary folder holds,
      for every stain, an image of the size of each tile of the slicer's
      grid at the path the stitchers read that tile from. */
  lemma SavedTilesFillTheGrid(files: map<Path, Content>, subpath: Path, stem: string,
                              w: nat, h: nat, maxSide: int, firstTile: FirstTile, m: int, n: int, tm: TileMap,
                              basis: Basis, ratio: Ratio, stains: seq<string>, s: string)
    requires IsSlicerPlan(w, h, maxSide, firstTile, m, n, tm)
    requires forall t :: t in stains ==> '.' !in t
    requires s in stains
    ensures FitsSlide(tm.order, tm.rects)
    ensures var saved := SaveAll(files, SlideSaves(subpath, stem, false, tm.order, tm.rects, basis, ratio, stains));
      HoldsGridTiles(TileReaderOf(saved, subpath, s), w, h, m, n)
  {
    PlanFitsSlide(w, h, maxSide, firstTile, m, n, tm);
    var saved := SaveAll(files, SlideSaves(subpath, stem, false, tm.order, tm.rects, basis, ratio, stains));
    var read := TileReaderOf(saved, subpath, s);
    forall i | 0 <= i < m * n
      ensures IsImageOfSize(read(i), RectAt(w, h, m, n, i).size)
    {
      assert i in tm.order;
      SlideSavesHoldTile(files, subpath, stem, tm.order, tm.rects, basis, ratio, stains, i, s);
    }
  }

  /** The saves of the tile loop leave, at the temporary file of tile i and
      stain s, the tile restored for that stain. */
  lemma SlideSavesHoldTile(files: map<Path, Content>, subpath: Path, stem: string, order: seq<int>,
                           rects: map<int, Rect>, basis: Basis, ratio: Ratio, stains: seq<string>, i: int, s: string)
    requires FitsSlide(order, rects) && i in order && s in stains
    requires forall t :: t in stains ==> '.' !in t
    ensures i >= 0 && i in rects && rects[i].size.width >= 0 && rects[i].size.height >= 0
    ensures var saved := SaveAll(files, SlideSaves(subpath, stem, false, order, rects, basis, ratio, stains));
      TilePath(subpath, i, s) in saved && saved[TilePath(subpath, i, s)] == Raster(RestoredTile(rects[i], basis, ratio, s))
  {
    SaveKeysEntries(order, stains);
    var keys := SaveKeys(order, stains);
    var saves := SlideSaves(subpath, stem, false, order, rects, basis, ratio, stains);
    var path := TilePath(subpath, i, s);
    var img := RestoredTile(rects[i], basis, ratio, s);
    var k :| 0 <= k < |order| && order[k] == i;
    var j :| 0 <= j < |stains| && stains[j] == s;
    assert (order[k], stains[j]) in keys;
    var p :| 0 <= p < |keys| && keys[p] == (i, s);
    SavedTileIsReadBack(subpath, i, s);
    assert saves[p].0 == path;
    forall q | 0 <= q < |saves| && saves[q].0 == path
      ensures saves[q].1 == img
    {
      assert keys[q] in keys;
      SavedTileIsReadBack(subpath, keys[q].0, keys[q].1);
      TilePathsAreDistinct(subpath, keys[q].0, i, keys[q].1, s);
    }
    SaveAllHolds(files, saves, path, img);
  }

  /** So the numpy stitcher joins them into an image of the slide's size. */
  lemma StitchedSlideKeepsItsSize(files: map<Path, Content>, subpath: Path, stem: string,
                                  w: nat, h: nat, maxSide: int, firstTile: FirstTile, m: int, n: int, tm: TileMap,
                                  basis: Basis, ratio: Ratio, stains: seq<string>, s: string)
    requires IsSlicerPlan(w, h, maxSide, firstTile, m, n, tm)
    requires forall t :: t in stains ==> '.' !in t
    requires s in stains
    ensures FitsSlide(tm.order, tm.rects)
    ensures var saved := SaveAll(files, SlideSaves(subpath, stem, false, tm.order, tm.rects, basis, ratio, stains));
      var a := Assemble(TileReaderOf(saved, subpath, s), Count(m), Count(n));
      a.Ok? && a.value.shape == Shape(h, w)
  {
    SavedTilesFillTheGrid(files, subpath, stem, w, h, maxSide, firstTile, m, n, tm, basis, ratio, stains, s);
    var saved := SaveAll(files, SlideSaves(subpath, stem, false, tm.order, tm.rects, basis, ratio, stains));
    StitchedGrid(TileReaderOf(saved, subpath, s), w, h, m, n);
  }

  /** ..and the vips stitcher finds every one of the len(tile_map) tiles. */
  lemma VipsFindsEveryTile(files: map<Path, Content>, subpath: Path, stem: string,
                           w: nat, h: nat, maxSide: int, firstTile: FirstTile, m: int, n: int, tm: TileMap,
                           basis: Basis, ratio: Ratio, stains: seq<string>, s: string)
    requires IsSlicerPlan(w, h, maxSide, firstTile, m, n, tm)
    requires forall t :: t in stains ==> '.' !in t
    requires s in stains
    ensures FitsSlide(tm.order, tm.rects)
    ensures var saved := SaveAll(files, SlideSaves(subpath, stem, false, tm.order, tm.rects, basis, ratio, stains));
      var tiles := ReadTiles(TileReaderOf(saved, subpath, s), |tm.order|);
      tiles.Ok? && |tiles.value| == m * n
  {
    SavedTilesFillTheGrid(files, subpath, stem, w, h, maxSide, firstTile, m, n, tm, basis, ratio, stains, s);
    PlanFitsSlide(w, h, maxSide, firstTile, m, n, tm);
    var saved := SaveAll(files, SlideSaves(subpath, stem, false, tm.order, tm.rects, basis, ratio, stains));
    var read := TileReaderOf(saved, subpath, s);
    forall i | 0 <= i < m * n
      ensures read(i).Ok?
    {
      assert IsImageOfSize(read(i), RectAt(w, h, m, n, i).size);
    }
  }

  // ---------------------------------------------------------------------
  // cleaner

  /** Unlinking the paths in turn: the first one that is not a file stops
      the run, and the ones before it stay removed. */
  function UnlinkAll(files: map<Path, Content>, paths: seq<Path>): Effect {
    if paths == [] then Effect(files, None)
    else
      var before := UnlinkAll(files, paths[..|paths| - 1]);
      var last := paths[|paths| - 1];
      if before.error.Some? then before
      else if last in before.files then Effect(before.files - {last}, None)
      else Effect(before.files, Some(MissingFile(last)))
  }

  predicate Distinct(paths: seq<Path>) {
    forall a, b :: 0 <= a < b < |paths| ==> paths[a] != paths[b]
  }

  /** Unlinking distinct files removes exactly them. */
  lemma {:induction false} UnlinkAllRemovesThem(files: map<Path, Content>, paths: seq<Path>)
    requires Distinct(paths)
    requires forall p :: p in paths ==> p in files
    ensures UnlinkAll(files, paths) == Effect(files - (set p | p in paths), None)
  {
    if paths != [] {
      var front := paths[..|paths| - 1];
      var last := paths[|paths| - 1];
      UnlinkAllRemovesThem(files, front);
      assert (set p | p in paths) == (set p | p in front) + {last};
    }
  }

  /** Unlinking distinct paths fails exactly when one of them is not a
      file. */
  lemma {:induction false} UnlinkAllFailsOnAMissingFile(files: map<Path, Content>, paths: seq<Path>)
    requires Distinct(paths)
    ensures UnlinkAll(files, paths).error.Some? <==> exists p :: p in paths && p !in files
  {
    if paths != [] {
      var front := paths[..|paths| - 1];
      var last := paths[|paths| - 1];
      UnlinkAllFailsOnAMissingFile(files, front);
      if forall p :: p in front ==> p in files {
        UnlinkAllRemovesThem(files, front);
        assert (exists p :: p in paths && p !in files) <==> last !in files by {
          forall p | p in paths
            ensures p == last || p in front
          {
            var a :| 0 <= a < |paths| && paths[a] == p;
            if a < |front| {
              assert front[a] == p;
            }
          }
        }
      } else {
        var p :| p in front && p !in files;
        var a :| 0 <= a < |front| && front[a] == p;
        assert paths[a] == p;
      }
    }
  }

  /** Unlinking leaves every other path as it was. */
  lemma {:induction false} UnlinkAllKeepsOthers(files: map<Path, Content>, paths: seq<Path>, q: Path)
    requires q !in paths
    ensures q in UnlinkAll(files, paths).files <==> q in files
    ensures q in files ==> UnlinkAll(files, paths).files[q] == files[q]
  {
    if paths != [] {
      UnlinkAllKeepsOthers(files, paths[..|paths| - 1], q);
    }
  }

  /** The cleaner's decision for one stain: without a finished slide (any of
      `finished`) it raises; with every tile present it unlinks them in
      order; otherwise it leaves everything as it is. */
  function Clean(dirs: set<Path>, files: map<Path, Content>, finished: seq<Path>, tiles: seq<Path>): (e: Effect)
    ensures e.error == Some(CleaningError) <==> forall f :: f in finished ==> !Present(dirs, files, f)
    ensures e.error == Some(CleaningError) ==> e.files == files
    ensures (exists f :: f in finished && Present(dirs, files, f)) && (forall t :: t in tiles ==> Present(dirs, files, t)) ==>
      e == UnlinkAll(files, tiles)
    ensures (exists f :: f in finished && Present(dirs, files, f)) && (exists t :: t in tiles && !Present(dirs, files, t)) ==>
      e == Effect(files, None)
  {
    if forall f :: f in finished ==> !Present(dirs, files, f) then Effect(files, Some(CleaningError))
    else if forall t :: t in tiles ==> Present(dirs, files, t) then
      var e := UnlinkAll(files, tiles);
      assert e.error != Some(CleaningError) by {
        UnlinkAllIsMissingFile(files, tiles);
      }
      e
    else Effect(files, None)
  }

  /** Once an unlink fails, the cleaner stops there. */
  lemma {:induction false} UnlinkAllStops(files: map<Path, Content>, paths: seq<Path>, k: nat)
    requires k <= |paths|
    requires UnlinkAll(files, paths[..k]).error.Some?
    ensures UnlinkAll(files, paths) == UnlinkAll(files, paths[..k])
    decreases |paths| - k
  {
    if k < |paths| {
      assert paths[..k + 1][..k] == paths[..k];
      UnlinkAllStops(files, paths, k + 1);
    } else {
      assert paths[..k] == paths;
    }
  }

  /** The cleaner for one stain (see Clean): check for a finished slide,
      then for every tile, then unlink the tiles in order. */
  method CleanStain(fs: FileSystem, finished: seq<Path>, tiles: seq<Path>) returns (r: Result<(), Error>)
    modifies fs
    ensures fs.dirs == old(fs.dirs)
    ensures var e := Clean(old(fs.dirs), old(fs.files), finished, tiles);
      fs.files == e.files && r == ResultOf(e)
  {
    if !(exists f | f in finished :: fs.Exists(f)) {
      return Err(CleaningError);
    }
    if !(forall t | t in tiles :: fs.Exists(t)) {
      return Ok(());
    }
    ghost var files0 := fs.files;
    var i := 0;
    while i < |tiles|
      invariant 0 <= i <= |tiles|
      invariant fs.dirs == old(fs.dirs)
      invariant UnlinkAll(files0, tiles[..i]) == Effect(fs.files, None)
    {
      assert tiles[..i + 1][..i] == tiles[..i];
      r := fs.Unlink(tiles[i]);
      if r.Err? {
        UnlinkAllStops(files0, tiles, i + 1);
        return;
      }
      i := i + 1;
    }
    assert tiles[..i] == tiles;
    return Ok(());
  }

  /** The only error unlinking reports is a missing file. */
  lemma {:induction false} UnlinkAllIsMissingFile(files: map<Path, Content>, paths: seq<Path>)
    ensures UnlinkAll(files, paths).error.Some? ==> UnlinkAll(files, paths).error.value.MissingFile?
  {
    if paths != [] {
      UnlinkAllIsMissingFile(files, paths[..|paths| - 1]);
    }
  }

  /** With a finished slide and every tile a file, cleaning removes the
      tiles and nothing else. */
  lemma CleanRemovesTiles(dirs: set<Path>, files: map<Path, Content>, finished: seq<Path>, tiles: seq<Path>)
    requires exists f :: f in finished && Present(dirs, files, f)
    requires Distinct(tiles)
    requires forall t :: t in tiles ==> t in files
    ensures Clean(dirs, files, finished, tiles) == Effect(files - (set t | t in tiles), None)
  {
    UnlinkAllRemovesThem(files, tiles);
  }

  /** Cleaning touches nothing but the tiles. */
  lemma CleanKeepsOthers(dirs: set<Path>, files: map<Path, Content>, finished: seq<Path>, tiles: seq<Path>, q: Path)
    requires q !in tiles
    ensures var e := Clean(dirs, files, finished, tiles);
      (q in e.files <==> q in files) && (q in files ==> e.files[q] == files[q])
  {
    UnlinkAllKeepsOthers(files, tiles, q);
  }

  /** Cleaning twice removes nothing more: once the tiles are gone, a second
      run finds them missing and leaves everything as it is. */
  lemma CleanIsIdempotent(dirs: set<Path>, files: map<Path, Content>, finished: seq<Path>, tiles: seq<Path>)
    requires Distinct(tiles)
    requires forall t :: t in tiles ==> t !in dirs && t !in finished
    requires Clean(dirs, files, finished, tiles).error.None?
    ensures var e := Clean(dirs, files, finished, tiles);
      Clean(dirs, e.files, finished, tiles) == e
  {
    var e := Clean(dirs, files, finished, tiles);
    var f :| f in finished && Present(dirs, files, f);
    assert f !in tiles;
    CleanKeepsOthers(dirs, files, finished, tiles, f);
    if forall t :: t in tiles ==> Present(dirs, files, t) {
      assert forall t :: t in tiles ==> t in files;
      UnlinkAllRemovesThem(files, tiles);
      if tiles != [] {
        assert !Present(dirs, e.files, tiles[0]);
      }
    }
  }

  /** The tile files of one stain, in index order, that the cleaner checks
      and unlinks. */
  function TilePaths(subpath: Path, stainType: string, count: nat): (paths: seq<Path>)
    ensures |paths| == count
    ensures forall i :: 0 <= i < count ==> paths[i] == TilePath(subpath, i, stainType)
  {
    seq(count, i requires 0 <= i < count => TilePath(subpath, i, stainType))
  }

  /** No tile path appears twice. */
  lemma TilePathsAreDistinctPaths(subpath: Path, stainType: string, count: nat)
    ensures Distinct(TilePaths(subpath, stainType, count))
  {
    var paths := TilePaths(subpath, stainType, count);
    forall a, b | 0 <= a < b < count
      ensures paths[a] != paths[b]
    {
      if paths[a] == paths[b] {
        TilePathsAreDistinct(subpath, a, b, stainType, stainType);
      }
    }
  }

  /** The finished slide the cleaner looks for, as written:
      `norm_path.with_suffix(".jpeg")` or `norm_path.with_suffix(".tif")`
      for norm_path = `Path(norm_path, f"{stain_type}_{stem}")`. */
  function FinishedPathsAsWritten(normPath: Path, stainType: string, stem: string): seq<Path> {
    var base := normPath.Join(stainType + "_" + stem);
    [base.WithSuffix(".jpeg"), base.WithSuffix(".tif")]
  }

  /** The finished slide as the stitchers write it: the jpeg of the numpy
      stitcher or the tif of the vips stitcher. */
  function FinishedPaths(normPath: Path, stainType: string, stem: string): (paths: seq<Path>)
    ensures StitchedJpegPath(normPath, stainType, stem) in paths && StitchedTifPath(normPath, stainType, stem) in paths
  {
    [StitchedJpegPath(normPath, stainType, stem), StitchedTifPath(normPath, stainType, stem)]
  }

  /** The two agree when neither the stain name nor the stem has a dot. */
  lemma FinishedPathsAgreeWithoutDots(normPath: Path, stainType: string, stem: string)
    requires '.' !in stainType && '.' !in stem
    ensures FinishedPathsAsWritten(normPath, stainType, stem) == FinishedPaths(normPath, stainType, stem)
  {
    var name := stainType + "_" + stem;
    forall k | 0 <= k < |name|
      ensures name[k] != '.'
    {
      if k < |stainType| {
        assert name[k] == stainType[k];
      } else if k > |stainType| {
        assert name[k] == stem[k - |stainType| - 1];
      }
    }
    assert LastIndexOf(name, '.').None?;
    assert StemOf(name) == name;
  }

  /** The stem of the name "he_a.b" is "he_a". */
  lemma DottedNameStem()
    ensures StemOf("he_a.b") == "he_a"
  {
    var name := "he_a.b";
    assert name[4] == '.' && name[5] != '.';
    assert LastIndexOf(name, '.') == Some(4);
  }

  /** Where the cleaner, as written, looks for the slide "a.b.svs". */
  lemma DottedStemFinishedPaths()
    ensures FinishedPathsAsWritten(Path(["norm"]), "he", "a.b") == [Path(["norm", "he_a.jpeg"]), Path(["norm", "he_a.tif"])]
  {
    DottedNameStem();
    assert "he" + "_" + "a.b" == "he_a.b";
    assert Path(["norm"]).Join("he_a.b") == Path(["norm", "he_a.b"]);
    var base := Path(["norm", "he_a.b"]);
    assert base.Name() == "he_a.b";
    assert base.Stem() == "he_a";
    assert base.parts[..1] == ["norm"];
    assert "he_a" + ".jpeg" == "he_a.jpeg";
    assert "he_a" + ".tif" == "he_a.tif";
    assert base.WithSuffix(".jpeg") == Path(["norm"] + ["he_a.jpeg"]);
    assert base.WithSuffix(".tif") == Path(["norm"] + ["he_a.tif"]);
    assert ["norm"] + ["he_a.jpeg"] == ["norm", "he_a.jpeg"];
    assert ["norm"] + ["he_a.tif"] == ["norm", "he_a.tif"];
  }

  /** Where the vips stitcher writes the slide "a.b.svs". */
  lemma DottedStemTifPath()
    ensures StitchedTifPath(Path(["norm"]), "he", "a.b") == Path(["norm", "he_a.b.tif"])
  {
    assert "he" + "_" + "a.b" + ".tif" == "he_a.b.tif";
  }

  /** As written, the cleaner misses the tif the vips stitcher writes for a
      slide whose stem has a dot ("a.b.svs"): it looks for `he_a.tif` next
      to `he_a.b.tif`, and raises CleaningError after a successful stitch. */
  lemma DottedStemTifIsMissed()
    ensures var files := map[StitchedTifPath(Path(["norm"]), "he", "a.b") := TiledTiff([], 1)];
      Clean({Path(["norm"])}, files, FinishedPathsAsWritten(Path(["norm"]), "he", "a.b"), []).error == Some(CleaningError)
    ensures var files := map[StitchedTifPath(Path(["norm"]), "he", "a.b") := TiledTiff([], 1)];
      Clean({Path(["norm"])}, files, FinishedPaths(Path(["norm"]), "he", "a.b"), []).error == None
  {
    DottedStemFinishedPaths();
    DottedStemTifPath();
    assert Path(["norm", "he_a.tif"]) != Path(["norm", "he_a.b.tif"]) by {
      assert "he_a.tif"[5] != "he_a.b.tif"[5];
    }
    assert Path(["norm", "he_a.jpeg"]) != Path(["norm", "he_a.b.tif"]) by {
      assert "he_a.jpeg"[5] != "he_a.b.tif"[5];
    }
    assert Path(["norm", "he_a.tif"]) != Path(["norm"]);
    assert Path(["norm", "he_a.jpeg"]) != Path(["norm"]);
  }

  /** Corrected: once a stitcher has written its output, the cleaner finds
      it and does not raise. */
  lemma CleanerFindsStitchedOutput(dirs: set<Path>, files: map<Path, Content>, normPath: Path, stainType: string, stem: string, tiles: seq<Path>)
    requires StitchedJpegPath(normPath, stainType, stem) in files || StitchedTifPath(normPath, stainType, stem) in files
    ensures Clean(dirs, files, FinishedPaths(normPath, stainType, stem), tiles).error != Some(CleaningError)
  {
  }

  // ---------------------------------------------------------------------
  // The stitching loop of process_slide

  /** What the stitching of one slide depends on: the stitcher chosen, whether
      the tiles are removed afterwards, the grid shape, the number of tiles,
      the temporary subfolder, the folder of normalised slides and the
      slide's stem. */
  datatype StitchJob = StitchJob(vips: bool, remove: bool, mn: (int, int), tileCount: nat,
                                 subpath: Path, normPath: Path, stem: string)

  /** A run of operations as the method reporting it returns it. */
  function ResultOf(e: Effect): (r: Result<(), Error>)
    ensures r.Err? <==> e.error.Some?
  {
    if e.error.Some? then Err(e.error.value) else Ok(())
  }

  /** Writing a stitched output: its folder must exist. */
  function WriteOutput(dirs: set<Path>, files: map<Path, Content>, out: Result<(Path, Content), Error>): (e: Effect)
    ensures e.error.None? ==> out.Ok? && out.value.0.Parent() in dirs && e.files == files[out.value.0 := out.value.1]
    ensures e.error.Some? ==> e.files == files
  {
    if out.Err? then Effect(files, Some(out.error))
    else if out.value.0.Parent() !in dirs then Effect(files, Some(NoSuchDirectory(out.value.0.Parent())))
    else Effect(files[out.value.0 := out.value.1], None)
  }

  /** What each stitcher's outcome makes of the stitched output. */
  lemma StitchedOutputCases(files: map<Path, Content>, stainType: string, vips: bool, mn: (int, int), tileCount: nat,
                            subpath: Path, normPath: Path, stem: string)
    ensures var out := StitchedOutput(files, stainType, vips, mn, tileCount, subpath, normPath, stem);
      var read := TileReaderOf(files, subpath, stainType);
      var tiles := ReadTiles(read, tileCount);
      var image := Assemble(read, Count(mn.0), Count(mn.1));
      (vips && tiles.Err? ==> out == Err(tiles.error)) &&
      (vips && tiles.Ok? ==> out == Ok((StitchedTifPath(normPath, stainType, stem), TiledTiff(tiles.value, mn.1)))) &&
      (!vips && image.Err? ==> out == Err(image.error)) &&
      (!vips && image.Ok? ==> out == Ok((StitchedJpegPath(normPath, stainType, stem), Raster(image.value))))
  {
  }

  /** A method that returns nothing on success returns `Ok(())`. */
  lemma UnitResult(r: Result<(), Error>)
    ensures r.Ok? ==> r == Ok(())
  {
    if r.Ok? {
      var u: () := r.value;
      assert u == ();
    }
  }

  /** What the numpy stitcher reports is the stitched output written. */
  lemma NumpyStitchIsOutput(dirs: set<Path>, files: map<Path, Content>, files': map<Path, Content>, r: Result<(), Error>,
                            stainType: string, job: StitchJob)
    requires !job.vips
    requires var a := Assemble(TileReaderOf(files, job.subpath, stainType), Count(job.mn.0), Count(job.mn.1));
      var target := StitchedJpegPath(job.normPath, stainType, job.stem);
      (a.Err? ==> r == Err(a.error) && files' == files) &&
      (a.Ok? ==> (r.Ok? <==> target.Parent() in dirs) &&
                 (r.Ok? ==> files' == files[target := Raster(a.value)]) &&
                 (r.Err? ==> r.error == NoSuchDirectory(target.Parent()) && files' == files))
    ensures var e := WriteOutput(dirs, files, StitchOutputOf(files, stainType, job));
      files' == e.files && r == ResultOf(e)
  {
    StitchedOutputCases(files, stainType, job.vips, job.mn, job.tileCount, job.subpath, job.normPath, job.stem);
    UnitResult(r);
  }

  /** What the vips stitcher reports is the stitched output written. */
  lemma VipsStitchIsOutput(dirs: set<Path>, files: map<Path, Content>, files': map<Path, Content>, r: Result<(), Error>,
                           stainType: string, job: StitchJob)
    requires job.vips
    requires var tiles := ReadTiles(TileReaderOf(files, job.subpath, stainType), job.tileCount);
      var target := StitchedTifPath(job.normPath, stainType, job.stem);
      (tiles.Err? ==> r == Err(tiles.error) && files' == files) &&
      (tiles.Ok? ==> (r.Ok? <==> target.Parent() in dirs) &&
                     (r.Ok? ==> files' == files[target := TiledTiff(tiles.value, job.mn.1)]) &&
                     (r.Err? ==> r.error == NoSuchDirectory(target.Parent()) && files' == files))
    ensures var e := WriteOutput(dirs, files, StitchOutputOf(files, stainType, job));
      files' == e.files && r == ResultOf(e)
  {
    StitchedOutputCases(files, stainType, job.vips, job.mn, job.tileCount, job.subpath, job.normPath, job.stem);
    UnitResult(r);
  }

  /** The stitched output of one stain under the job's settings. */
  function StitchOutputOf(files: map<Path, Content>, stainType: string, job: StitchJob): Result<(Path, Content), Error> {
    StitchedOutput(files, stainType, job.vips, job.mn, job.tileCount, job.subpath, job.normPath, job.stem)
  }

  /** jpeg_stitcher: the vips stitcher or the numpy one, as the job says;
      either writes the stitched output for one stain, or fails without
      writing. */
  method JpegStitch(fs: FileSystem, stainType: string, job: StitchJob) returns (r: Result<(), Error>)
    modifies fs
    ensures fs.dirs == old(fs.dirs)
    ensures var e := WriteOutput(old(fs.dirs), old(fs.files), StitchOutputOf(old(fs.files), stainType, job));
      fs.files == e.files && r == ResultOf(e)
  {
    if job.vips {
      r := VipsStitcher(fs, stainType, job.tileCount, job.mn.1, job.subpath, job.normPath, job.stem);
      VipsStitchIsOutput(old(fs.dirs), old(fs.files), fs.files, r, stainType, job);
    } else {
      r := Stitcher(fs, stainType, job.mn, job.subpath, job.normPath, job.stem);
      NumpyStitchIsOutput(old(fs.dirs), old(fs.files), fs.files, r, stainType, job);
    }
  }

  /** One stain of the loop: jpeg_stitcher, then the cleaner when the
      temporary files are to be removed. */
  function StitchStep(dirs: set<Path>, files: map<Path, Content>, stainType: string, job: StitchJob): Effect {
    var written := WriteOutput(dirs, files, StitchOutputOf(files, stainType, job));
    if written.error.Some? || !job.remove then written
    else Clean(dirs, written.files, FinishedPaths(job.normPath, stainType, job.stem), TilePaths(job.subpath, stainType, job.tileCount))
  }

  /** A loop of per-stain steps over the first k stains, stopped by the
      first error. */
  function RunSteps(files: map<Path, Content>, stains: seq<string>, k: nat,
                    step: (map<Path, Content>, string) -> Effect): Effect
    requires k <= |stains|
  {
    if k == 0 then Effect(files, None)
    else
      var before := RunSteps(files, stains, k - 1, step);
      if before.error.Some? then before
      else step(before.files, stains[k - 1])
  }

  /** Once a step fails, the loop stops there: later stains change nothing
      and the error is the one reported. */
  lemma {:induction false} RunStepsStops(files: map<Path, Content>, stains: seq<string>,
                                         step: (map<Path, Content>, string) -> Effect, k: nat, k': nat)
    requires k <= k' <= |stains|
    requires RunSteps(files, stains, k, step).error.Some?
    ensures RunSteps(files, stains, k', step) == RunSteps(files, stains, k, step)
    decreases k' - k
  {
    if k < k' {
      RunStepsStops(files, stains, step, k, k' - 1);
    }
  }

  /** When no step deletes a file and each successful step writes its
      stain's output, a loop that finishes keeps every file and has
      written the output of every stain. */
  lemma {:induction false} RunStepsWrites(files: map<Path, Content>, stains: seq<string>, k: nat,
                                          step: (map<Path, Content>, string) -> Effect, out: string -> Path)
    requires k <= |stains|
    requires forall f: map<Path, Content>, s: string :: f.Keys <= step(f, s).files.Keys
    requires forall f: map<Path, Content>, s: string :: step(f, s).error.None? ==> out(s) in step(f, s).files
    ensures files.Keys <= RunSteps(files, stains, k, step).files.Keys
    ensures RunSteps(files, stains, k, step).error.None? ==>
      forall j :: 0 <= j < k ==> out(stains[j]) in RunSteps(files, stains, k, step).files
  {
    if k > 0 {
      RunStepsWrites(files, stains, k - 1, step, out);
    }
  }

  /** The stitching loop's step for one stain. */
  function StitchStepOf(dirs: set<Path>, job: StitchJob): (map<Path, Content>, string) -> Effect {
    (f, s) => StitchStep(dirs, f, s, job)
  }

  /** The stitching loop over the first k stains. */
  function StitchAll(dirs: set<Path>, files: map<Path, Content>, stains: seq<string>, k: nat, job: StitchJob): Effect
    requires k <= |stains|
  {
    RunSteps(files, stains, k, StitchStepOf(dirs, job))
  }

  /** Where the job's stitcher writes a stain's slide. */
  function OutputPath(stainType: string, job: StitchJob): Path {
    if job.vips then StitchedTifPath(job.normPath, stainType, job.stem) else StitchedJpegPath(job.normPath, stainType, job.stem)
  }

  /** Without removal, one stain's step deletes nothing and, when it
      succeeds, has written that stain's output. */
  lemma StitchStepWithoutRemoval(dirs: set<Path>, files: map<Path, Content>, stainType: string, job: StitchJob)
    requires !job.remove
    ensures files.Keys <= StitchStep(dirs, files, stainType, job).files.Keys
    ensures StitchStep(dirs, files, stainType, job).error.None? ==>
      OutputPath(stainType, job) in StitchStep(dirs, files, stainType, job).files
  {
    StitchedOutputCases(files, stainType, job.vips, job.mn, job.tileCount, job.subpath, job.normPath, job.stem);
  }

  /** Without removal (repeat_stitching), the stitching loop deletes no
      file, and once it finishes every stain's stitched output is there. */
  lemma StitchAllWithoutRemoval(dirs: set<Path>, files: map<Path, Content>, stains: seq<string>, job: StitchJob)
    requires !job.remove
    ensures var e := StitchAll(dirs, files, stains, |stains|, job);
      files.Keys <= e.files.Keys &&
      (e.error.None? ==> forall s :: s in stains ==> OutputPath(s, job) in e.files)
  {
    var step := StitchStepOf(dirs, job);
    forall f: map<Path, Content>, s: string
      ensures f.Keys <= step(f, s).files.Keys
      ensures step(f, s).error.None? ==> OutputPath(s, job) in step(f, s).files
    {
      StitchStepWithoutRemoval(dirs, f, s, job);
    }
    RunStepsWrites(files, stains, |stains|, step, s => OutputPath(s, job));
  }

  /** One more stain extends the stitching loop by that stain's step. */
  lemma StitchAllNext(dirs: set<Path>, files: map<Path, Content>, stains: seq<string>, k: nat, job: StitchJob)
    requires k < |stains|
    requires StitchAll(dirs, files, stains, k, job).error.None?
    ensures StitchAll(dirs, files, stains, k + 1, job)
         == StitchStep(dirs, StitchAll(dirs, files, stains, k, job).files, stains[k], job)
  {
  }

  /** The stitching loop of process_slide (and of repeat_stitching,
      without removal): stitch each stain, then clean its tiles when
      removal is on; the first error ends the loop. */
  method StitchLoop(fs: FileSystem, stains: seq<string>, job: StitchJob) returns (r: Result<(), Error>)
    modifies fs
    ensures fs.dirs == old(fs.dirs)
    ensures var e := StitchAll(old(fs.dirs), old(fs.files), stains, |stains|, job);
      fs.files == e.files && r == ResultOf(e)
  {
    ghost var dirs, files0 := fs.dirs, fs.files;
    var k := 0;
    while k < |stains|
      invariant 0 <= k <= |stains|
      invariant fs.dirs == dirs
      invariant StitchAll(dirs, files0, stains, k, job) == Effect(fs.files, None)
    {
      StitchAllNext(dirs, files0, stains, k, job);
      r := StitchStain(fs, stains[k], job);
      if r.Err? {
        RunStepsStops(files0, stains, StitchStepOf(dirs, job), k + 1, |stains|);
        return;
      }
      k := k + 1;
    }
    return Ok(());
  }

  /** One pass of the stitching loop: stitch the stain, then clean its
      tiles when removal is on and the stitch succeeded. */
  method StitchStain(fs: FileSystem, stainType: string, job: StitchJob) returns (r: Result<(), Error>)
    modifies fs
    ensures fs.dirs == old(fs.dirs)
    ensures var e := StitchStep(old(fs.dirs), old(fs.files), stainType, job);
      fs.files == e.files && r == ResultOf(e)
  {
    r := JpegStitch(fs, stainType, job);
    if r.Ok? && job.remove {
      r := CleanStain(fs, FinishedPaths(job.normPath, stainType, job.stem), TilePaths(job.subpath, stainType, job.tileCount));
    }
  }

  /** NormaliseSlides with its CurrentSlide: the settings of the run and the
      state of the slide being processed. */
  class NormaliseSlides {
    const config: Config
    const rewrite: bool
    const maxSidePx: int
    const normPath: Path
    const tempPath: Path
    const slidePaths: seq<Path>
    var slidePath: Path
    var wh: (nat, nat)
    var mn: (int, int)
    var tileMap: TileMap
    var tempSubpath: Path
    var he: Option<Basis>
    var tmp: Option<Ratio>

    /** The state after FileData and check_resources: the checked folders
        and the tile side; no slide read and no calibration yet. */
    constructor (config: Config, rewrite: bool, maxSidePx: int, normPath: Path, tempPath: Path, slidePaths: seq<Path>)
      ensures this.config == config && this.rewrite == rewrite && this.maxSidePx == maxSidePx
      ensures this.normPath == normPath && this.tempPath == tempPath && this.slidePaths == slidePaths
      ensures he == None && tmp == None
    {
      this.slidePaths := slidePaths;
      this.config := config;
      this.rewrite := rewrite;
      this.maxSidePx := maxSidePx;
      this.normPath := normPath;
      this.tempPath := tempPath;
      slidePath := Path([]);
      wh := (0, 0);
      mn := (0, 0);
      tileMap := TileMap([], map[]);
      tempSubpath := Path([]);
      he := None;
      tmp := None;
    }

    /** `DEFAULTS.stain_types()`. */
    function Stains(): seq<string>
    {
      StainTypeNames(config.outputType)
    }

    /** The folder a tile's images go to: the slide's temporary subfolder,
        or the folder of normalised slides for a single-tile slide. */
    function OutputFolder(single: bool): Path
      reads this`tempSubpath
    {
      if single then normPath else tempSubpath
    }

    /** The path save_jpeg is given for tile i and one stain (see
        TileBase). */
    function OutputBase(i: nat, stainType: string, single: bool): (p: Path)
      reads this`tempSubpath, this`slidePath
      ensures p.parts != [] && p.Parent() == OutputFolder(single)
    {
      TileBase(OutputFolder(single), i, slidePath.Stem(), stainType, single)
    }

    /** The region_s step of slice_normalisation: on the first run derive
        `he` and `tmp` from the tile and store them; on later runs solve
        against the stored `he`. The concentrations are returned once `he`
        and `tmp` are both set. */
    method Calibrate(rect: Rect, firstRun: bool) returns (r: Result<seq<Solved>, Error>)
      modifies this`he, this`tmp
      ensures firstRun ==> he == Some(StainVectorsOf(rect)) && tmp == Some(SeedRatio(rect))
      ensures !firstRun ==> he == old(he) && tmp == old(tmp)
      ensures !firstRun && old(he).None? ==> r == Err(UnsetAttribute("he"))
      ensures !firstRun && old(he).Some? && old(tmp).None? ==> r == Err(UnsetAttribute("tmp"))
      ensures r.Ok? <==> he.Some? && tmp.Some?
      ensures r.Ok? ==> r.value == SolveAll(he.value, SectorOd(rect))
    {
      var sCut: seq<Solved>;
      if firstRun {
        var ratio, basis;
        sCut, ratio, basis := RegionS(rect, None);
        tmp, he := Some(ratio), Some(basis);
      } else {
        if he.None? {
          return Err(UnsetAttribute("he"));
        }
        var unusedRatio, unusedBasis;
        sCut, unusedRatio, unusedBasis := RegionS(rect, he);
      }
      if tmp.None? {
        return Err(UnsetAttribute("tmp"));
      }
      assert sCut == SolveAll(he.value, SectorOd(rect));
      return Ok(sCut);
    }

    /** slice_normalisation: normalise tile i against the calibration
        (see Calibrate), then save each stain's image, as a tile or, for a
        single tile, as the slide (see SaveStains). */
    method SliceNormalisation(fs: FileSystem, i: nat, rect: Rect, single: bool, firstRun: bool)
      returns (r: Result<(), Error>)
      requires rect.size.width >= 0 && rect.size.height >= 0
      modifies this`he, this`tmp, fs
      ensures firstRun ==> he == Some(StainVectorsOf(rect)) && tmp == Some(SeedRatio(rect))
      ensures !firstRun ==> he == old(he) && tmp == old(tmp)
      ensures fs.dirs == old(fs.dirs)
      ensures !firstRun && old(he).None? ==> r == Err(UnsetAttribute("he")) && fs.files == old(fs.files)
      ensures !firstRun && old(he).Some? && old(tmp).None? ==> r == Err(UnsetAttribute("tmp")) && fs.files == old(fs.files)
      ensures he.Some? && tmp.Some? ==>
        var saves := TileSavesOf(OutputFolder(single), i, slidePath.Stem(), single, rect, he.value, tmp.value, Stains());
        (r.Ok? <==> saves == [] || OutputFolder(single) in fs.dirs) &&
        (r.Ok? ==> fs.files == SaveAll(old(fs.files), saves)) &&
        (r.Err? ==> fs.files == old(fs.files))
    {
      var sCut :- Calibrate(rect, firstRun);
      var c2 := SFinal(sCut, tmp.value);
      r := SaveStains(fs, OutputFolder(single), i, slidePath.Stem(), single, rect, he.value, tmp.value, c2, Stains());
    }

    /** The first tile of the queue: the one that calibrates he and tmp. */
    function SeedRect(): Rect
      requires tileMap.order != [] && FitsSlide(tileMap.order, tileMap.rects)
      reads this`tileMap
    {
      var first := tileMap.order[0];
      assert first in tileMap.order;
      tileMap.rects[first]
    }

    /** slide_pre_processing: read the slide's width and height, then cut
        it into the slicer's grid of tiles of at most maxSide. */
    method SlidePreProcessing(fs: FileSystem, maxSide: int) returns (r: Result<(), Error>)
      modifies this`wh, this`mn, this`tileMap
      ensures var slide := ReadImage(fs.files, slidePath);
        (slide.Err? ==> r == Err(slide.error) && wh == old(wh)) &&
        (slide.Ok? ==> wh == (slide.value.shape.width, slide.value.shape.height) &&
                       (r.Ok? <==> SlicerSucceeds(wh.0, wh.1, maxSide, config.firstTile)))
      ensures r.Ok? ==> IsSlicerPlan(wh.0, wh.1, maxSide, config.firstTile, mn.0, mn.1, tileMap)
      ensures r.Err? ==> mn == old(mn) && tileMap == old(tileMap)
    {
      var slide := ReadImage(fs.files, slidePath);
      if slide.Err? {
        return Err(slide.error);
      }
      var width, height := slide.value.shape.width, slide.value.shape.height;
      wh := (width, height);
      var sliced := Slicer(width, height, maxSide, config.firstTile);
      if sliced.Err? {
        return Err(sliced.error);
      }
      mn, tileMap := sliced.value.0, sliced.value.1;
      return Ok(());
    }

    /** The tile loop of process_slide: slice_normalisation for every tile in
        queue order, the first one calibrating. */
    method NormaliseTiles(fs: FileSystem, single: bool) returns (r: Result<(), Error>)
      requires FitsSlide(tileMap.order, tileMap.rects)
      modifies this`he, this`tmp, fs
      ensures fs.dirs == old(fs.dirs)
      ensures tileMap.order == [] ==> r.Ok? && he == old(he) && tmp == old(tmp) && fs.files == old(fs.files)
      ensures tileMap.order != [] ==>
        he == Some(StainVectorsOf(SeedRect())) && tmp == Some(SeedRatio(SeedRect())) &&
        (r.Ok? <==> Stains() == [] || OutputFolder(single) in fs.dirs) &&
        (r.Ok? ==> fs.files == SaveTiles(old(fs.files), OutputFolder(single), slidePath.Stem(), single, tileMap.order,
                                         |tileMap.order|, tileMap.rects, he.value, tmp.value, Stains())) &&
        (r.Err? ==> fs.files == old(fs.files))
    {
      var order, rects := tileMap.order, tileMap.rects;
      var folder, stem, stains := OutputFolder(single), slidePath.Stem(), Stains();
      if order == [] {
        return Ok(());
      }
      ghost var seed := SeedRect();
      ghost var basis, ratio := StainVectorsOf(seed), SeedRatio(seed);
      assert order[0] in order;
      r := SliceNormalisation(fs, order[0], rects[order[0]], single, true);
      if r.Err? {
        return;
      }
      assert fs.files == SaveTiles(old(fs.files), folder, stem, single, order, 1, rects, basis, ratio, stains);
      r := NormaliseLaterTiles(fs, single, old(fs.files), folder, stem, stains, basis, ratio);
    }

    /** The rest of the tile loop of process_slide: slice_normalisation,
        reusing he and tmp, for every tile after the first one. */
    method NormaliseLaterTiles(fs: FileSystem, single: bool, ghost files0: map<Path, Content>, ghost folder: Path,
                               ghost stem: string, ghost stains: seq<string>, ghost basis: Basis, ghost ratio: Ratio)
      returns (r: Result<(), Error>)
      requires folder == OutputFolder(single) && stem == slidePath.Stem() && stains == Stains()
      requires FitsSlide(tileMap.order, tileMap.rects) && tileMap.order != []
      requires he == Some(basis) && tmp == Some(ratio)
      requires stains == [] || folder in fs.dirs
      requires fs.files == SaveTiles(files0, folder, stem, single, tileMap.order, 1, tileMap.rects, basis, ratio, stains)
      modifies this`he, this`tmp, fs
      ensures r.Ok? && fs.dirs == old(fs.dirs) && he == old(he) && tmp == old(tmp)
      ensures fs.files == SaveTiles(files0, folder, stem, single, tileMap.order, |tileMap.order|, tileMap.rects,
                                    basis, ratio, stains)
    {
      ghost var order, rects := tileMap.order, tileMap.rects;
      var k := 1;
      while k < |tileMap.order|
        invariant 1 <= k <= |order|
        invariant fs.dirs == old(fs.dirs) && he == old(he) && tmp == old(tmp)
        invariant fs.files == SaveTiles(files0, folder, stem, single, order, k, rects, basis, ratio, stains)
      {
        r := NormaliseLaterTile(fs, single, files0, folder, stem, stains, basis, ratio, k);
        k := k + 1;
      }
      return Ok(());
    }

    /** slice_normalisation for a tile after the first: he and tmp, set by
        the first tile, are reused, and the tile's images are saved. */
    method NormaliseLaterTile(fs: FileSystem, single: bool, ghost files0: map<Path, Content>, ghost folder: Path,
                              ghost stem: string, ghost stains: seq<string>, ghost basis: Basis, ghost ratio: Ratio,
                              k: nat)
      returns (r: Result<(), Error>)
      requires FitsSlide(tileMap.order, tileMap.rects) && k < |tileMap.order|
      requires he == Some(basis) && tmp == Some(ratio)
      requires folder == OutputFolder(single) && stem == slidePath.Stem() && stains == Stains()
      requires stains == [] || folder in fs.dirs
      requires fs.files == SaveTiles(files0, folder, stem, single, tileMap.order, k, tileMap.rects, basis, ratio, stains)
      modifies this`he, this`tmp, fs
      ensures r.Ok? && he == old(he) && tmp == old(tmp) && fs.dirs == old(fs.dirs)
      ensures fs.files == SaveTiles(files0, folder, stem, single, tileMap.order, k + 1, tileMap.rects, basis, ratio, stains)
    {
      ghost var order, rects := tileMap.order, tileMap.rects;
      SaveTilesNext(files0, folder, stem, single, order, k, rects, basis, ratio, stains);
      var i := tileMap.order[k];
      r := SliceNormalisation(fs, i, tileMap.rects[i], single, false);
    }

    /** The settings stitch_stains works with for the current slide. */
    function Job(remove: bool): StitchJob
      reads this`mn, this`tileMap, this`tempSubpath, this`slidePath
    {
      StitchJob(config.vipsStitcher, remove, mn, |tileMap.order|, tempSubpath, normPath, slidePath.Stem())
    }

    /** jpeg_stitcher for the current slide (see JpegStitch). */
    method JpegStitcher(fs: FileSystem, stainType: string) returns (r: Result<(), Error>)
      modifies fs
      ensures fs.dirs == old(fs.dirs)
      ensures var e := WriteOutput(old(fs.dirs), old(fs.files), StitchOutputOf(old(fs.files), stainType, Job(false)));
        fs.files == e.files && r == ResultOf(e)
    {
      r := JpegStitch(fs, stainType, Job(false));
    }

    /** cleaner: with the stitched slide present and every tile of the
        stain present, unlink the tiles one by one; with the slide present
        but a tile missing, do nothing; without the slide, raise. */
    method Cleaner(fs: FileSystem, stainType: string) returns (r: Result<(), Error>)
      modifies fs
      ensures fs.dirs == old(fs.dirs)
      ensures var job := Job(true);
        var e := Clean(old(fs.dirs), old(fs.files), FinishedPaths(normPath, stainType, job.stem),
                       TilePaths(tempSubpath, stainType, job.tileCount));
        fs.files == e.files && r == ResultOf(e)
    {
      r := CleanStain(fs, FinishedPaths(normPath, stainType, slidePath.Stem()), TilePaths(tempSubpath, stainType, |tileMap.order|));
    }

    /** The stitching loop for the current slide (see StitchLoop). */
    method StitchStains(fs: FileSystem, stains: seq<string>, remove: bool) returns (r: Result<(), Error>)
      modifies fs
      ensures fs.dirs == old(fs.dirs)
      ensures var e := StitchAll(old(fs.dirs), old(fs.files), stains, |stains|, Job(remove));
        fs.files == e.files && r == ResultOf(e)
    {
      r := StitchLoop(fs, stains, Job(remove));
    }

    /** process_slide: read and slice the slide, then normalise and
        stitch it (see ProcessTiles). An unreadable slide, or one slicer
        cannot cut, fails before anything is written. */
    method ProcessSlide(fs: FileSystem) returns (r: Result<(), Error>)
      modifies this`wh, this`mn, this`tileMap, this`tempSubpath, this`he, this`tmp, fs
      ensures ReadImage(old(fs.files), slidePath).Err? ==>
        r == Err(MissingFile(slidePath)) && fs.files == old(fs.files) && fs.dirs == old(fs.dirs) &&
        he == old(he) && tmp == old(tmp)
      ensures ReadImage(old(fs.files), slidePath).Ok? && !SlicerSucceeds(wh.0, wh.1, maxSidePx, config.firstTile) ==>
        r.Err? && fs.files == old(fs.files) && fs.dirs == old(fs.dirs) && he == old(he) && tmp == old(tmp)
      ensures ReadImage(old(fs.files), slidePath).Ok? && SlicerSucceeds(wh.0, wh.1, maxSidePx, config.firstTile) ==>
        IsSlicerPlan(wh.0, wh.1, maxSidePx, config.firstTile, mn.0, mn.1, tileMap) && tileMap.order != [] &&
        FitsSlide(tileMap.order, tileMap.rects) &&
        SlideProcessed(old(fs.dirs), old(fs.files), fs.dirs, fs.files, old(tempSubpath), old(he), old(tmp), r)
      ensures r.Ok? ==>
        IsSlicerPlan(wh.0, wh.1, maxSidePx, config.firstTile, mn.0, mn.1, tileMap) && tileMap.order != [] &&
        FitsSlide(tileMap.order, tileMap.rects) && Calibrated()
    {
      r := SlidePreProcessing(fs, maxSidePx);
      if r.Err? {
        return;
      }
      PlanIsQueued(wh.0, wh.1, maxSidePx, config.firstTile, mn.0, mn.1, tileMap);
      r := ProcessTiles(fs);
    }

    /** he and tmp are those of the first tile of the queue. */
    ghost predicate Calibrated()
      requires tileMap.order != [] && FitsSlide(tileMap.order, tileMap.rects)
      reads this`tileMap, this`he, this`tmp
    {
      he == Some(StainVectorsOf(SeedRect())) && tmp == Some(SeedRatio(SeedRect()))
    }

    /** What process_slide does once the slide is sliced. A single-tile
        slide is calibrated by its tile and saved straight to the folder of
        normalised slides, which fails, writing nothing, when that folder is
        missing. A grid of several tiles first needs its temporary
        subfolder: when create_path refuses it (it exists and rewrite is
        off, or its parent is missing) nothing else happens; otherwise every
        tile is saved there and every stain is stitched, and cleaned when
        `remove_temporary_files is True`, the first failing stain ending the
        run with its error. */
    ghost predicate SlideProcessed(dirs0: set<Path>, files0: map<Path, Content>, dirs: set<Path>,
                                   files: map<Path, Content>, tempSubpath0: Path,
                                   he0: Option<Basis>, tmp0: Option<Ratio>, r: Result<(), Error>)
      requires tileMap.order != [] && FitsSlide(tileMap.order, tileMap.rects)
      reads this`tileMap, this`he, this`tmp, this`tempSubpath, this`slidePath, this`mn
    {
      if |tileMap.order| == 1 then
        tempSubpath == tempSubpath0 && dirs == dirs0 && Calibrated() &&
        (r.Ok? <==> Stains() == [] || normPath in dirs0) &&
        files == if r.Ok? then SaveTiles(files0, normPath, slidePath.Stem(), true, tileMap.order, 1, tileMap.rects,
                                         he.value, tmp.value, Stains())
                 else files0
      else
        tempSubpath == tempPath.Join(slidePath.Stem()) &&
        var e := CreatePathError(dirs0, files0, tempSubpath, rewrite);
        if e.Some? then
          r == Err(e.value) && dirs == dirs0 && files == files0 && he == he0 && tmp == tmp0
        else
          Calibrated() && dirs == dirs0 + {tempSubpath} &&
          var stitched := StitchAll(dirs, SaveTiles(files0, tempSubpath, slidePath.Stem(), false, tileMap.order,
                                                    |tileMap.order|, tileMap.rects, he.value, tmp.value, Stains()),
                                    Stains(), |Stains()|, Job(config.removeTemporaryFiles == Bool(true)));
          files == stitched.files && r == ResultOf(stitched)
    }

    /** process_slide once the slide is sliced: create the temporary
        subfolder for a grid of several tiles, normalise every tile, then,
        unless the slide is a single tile, stitch every stain. */
    method ProcessTiles(fs: FileSystem) returns (r: Result<(), Error>)
      requires tileMap.order != [] && FitsSlide(tileMap.order, tileMap.rects)
      modifies this`tempSubpath, this`he, this`tmp, fs
      ensures SlideProcessed(old(fs.dirs), old(fs.files), fs.dirs, fs.files, old(tempSubpath), old(he), old(tmp), r)
    {
      if |tileMap.order| == 1 {
        r := NormaliseTiles(fs, true);
      } else {
        r := NormaliseTileGrid(fs);
      }
    }

    /** process_slide for a grid of several tiles: create the temporary
        subfolder, normalise every tile into it, then stitch every stain. */
    method NormaliseTileGrid(fs: FileSystem) returns (r: Result<(), Error>)
      requires |tileMap.order| > 1 && FitsSlide(tileMap.order, tileMap.rects)
      modifies this`tempSubpath, this`he, this`tmp, fs
      ensures SlideProcessed(old(fs.dirs), old(fs.files), fs.dirs, fs.files, old(tempSubpath), old(he), old(tmp), r)
    {
      r := NormaliseIntoTempFolder(fs);
      if r.Err? {
        return;
      }
      ghost var dirs, saved, job := fs.dirs, fs.files, Job(config.removeTemporaryFiles == Bool(true));
      r := StitchStains(fs, Stains(), config.removeTemporaryFiles == Bool(true));
      assert fs.dirs == dirs && fs.files == StitchAll(dirs, saved, Stains(), |Stains()|, job).files;
    }

    /** The first half of process_slide for a grid of several tiles: create
        the slide's temporary subfolder and normalise every tile into it.
        It fails, changing nothing else, exactly when create_path does. */
    method NormaliseIntoTempFolder(fs: FileSystem) returns (r: Result<(), Error>)
      requires |tileMap.order| > 1 && FitsSlide(tileMap.order, tileMap.rects)
      modifies this`tempSubpath, this`he, this`tmp, fs
      ensures tempSubpath == tempPath.Join(slidePath.Stem())
      ensures var e := CreatePathError(old(fs.dirs), old(fs.files), tempSubpath, rewrite);
        e.Some? ==> r == Err(e.value) && fs.dirs == old(fs.dirs) && fs.files == old(fs.files) &&
                    he == old(he) && tmp == old(tmp)
      ensures var e := CreatePathError(old(fs.dirs), old(fs.files), tempSubpath, rewrite);
        e.None? ==> r.Ok? && Calibrated() && fs.dirs == old(fs.dirs) + {tempSubpath} &&
                    fs.files == SaveTiles(old(fs.files), tempSubpath, slidePath.Stem(), false, tileMap.order,
                                          |tileMap.order|, tileMap.rects, he.value, tmp.value, Stains())
    {
      tempSubpath := tempPath.Join(slidePath.Stem());
      r := fs.CreatePath(tempSubpath, rewrite);
      if r.Err? {
        return;
      }
      r := NormaliseTiles(fs, false);
    }

    /** repeat_stitching: stitch the tiles of an already processed slide
        again, without normalising or cleaning; only a selection of exactly
        one slide is accepted. */
    method RepeatStitching(fs: FileSystem, stainTypes: seq<string>) returns (r: Result<(), Error>)
      modifies this`slidePath, this`wh, this`mn, this`tileMap, this`tempSubpath, fs
      ensures |slidePaths| > 1 ==> r == Err(UserInputError(SeveralSlidesForRestitching)) && fs.files == old(fs.files)
      ensures slidePaths == [] ==> r == Err(SequenceIndexError(0)) && fs.files == old(fs.files)
      ensures fs.dirs == old(fs.dirs)
      ensures r.Ok? ==>
        |slidePaths| == 1 && slidePath == slidePaths[0] &&
        IsSlicerPlan(wh.0, wh.1, maxSidePx, config.firstTile, mn.0, mn.1, tileMap) &&
        tempSubpath == tempPath.Join(slidePath.Stem()) &&
        fs.files == StitchAll(old(fs.dirs), old(fs.files), stainTypes, |stainTypes|, Job(false)).files
      ensures r.Ok? ==>
        old(fs.files).Keys <= fs.files.Keys && forall s :: s in stainTypes ==> OutputPath(s, Job(false)) in fs.files
    {
      if |slidePaths| > 1 {
        return Err(UserInputError(SeveralSlidesForRestitching));
      }
      if slidePaths == [] {
        return Err(SequenceIndexError(0));
      }
      slidePath := slidePaths[0];
      r := SlidePreProcessing(fs, maxSidePx);
      if r.Err? {
        return;
      }
      tempSubpath := tempPath.Join(slidePath.Stem());
      StitchAllWithoutRemoval(fs.dirs, fs.files, stainTypes, Job(false));
      r := StitchStains(fs, stainTypes, false);
    }
  }
}
