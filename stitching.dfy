/** Stitching: how SlideTiler.stitcher and SlideTiler.vips_stitcher read the
    normalised tiles back from the temporary folder and put them together.
    Images are shapes with pixel terms; np.concatenate adds up the sides
    along its axis and needs the other side to agree. */
module Stitching {
  import opened Wrappers
  import opened Errors
  import opened PathLib
  import opened SlideTiler
  import opened Normalisation
  import opened FileStore

  // ---------------------------------------------------------------------
  // Tile file names

  /** `f"{i}_{stain_type}.jpeg"`. */
  function TileName(i: nat, stainType: string): string {
    Decimal(i) + "_" + stainType + ".jpeg"
  }

  /** The temporary file of tile i for one stain. */
  function TilePath(subpath: Path, i: nat, stainType: string): Path {
    subpath.Join(TileName(i, stainType))
  }

  /** Distinct tiles, or distinct stains, have distinct temporary files. */
  lemma TileNamesAreDistinct(i: nat, j: nat, s: string, t: string)
    requires TileName(i, s) == TileName(j, t)
    ensures i == j && s == t
  {
    var a, b := Decimal(i), Decimal(j);
    var x, y := a + "_" + s, b + "_" + t;
    assert x == TileName(i, s)[..|TileName(i, s)| - 5];
    assert y == TileName(j, t)[..|TileName(j, t)| - 5];
    if |a| < |b| {
      ShorterNumberEndsFirst(a, b, s, t);
      assert false;
    } else if |b| < |a| {
      ShorterNumberEndsFirst(b, a, t, s);
      assert false;
    }
    assert a == x[..|a|] && b == y[..|b|];
    DecimalIsInjective(i, j);
    assert s == x[|a| + 1..] && t == y[|b| + 1..];
  }

  /** Of two numbers written before an underscore, the shorter one's
      underscore meets a digit of the longer. */
  lemma ShorterNumberEndsFirst(a: string, b: string, s: string, t: string)
    requires forall k :: 0 <= k < |b| ==> '0' <= b[k] <= '9'
    requires |a| < |b|
    ensures a + "_" + s != b + "_" + t
  {
    var x, y := a + "_" + s, b + "_" + t;
    assert x[|a|] == '_';
    assert y[|a|] == b[|a|];
  }

  lemma TilePathsAreDistinct(subpath: Path, i: nat, j: nat, s: string, t: string)
    requires TilePath(subpath, i, s) == TilePath(subpath, j, t)
    ensures i == j && s == t
  {
    assert TileName(i, s) == TilePath(subpath, i, s).Name();
    TileNamesAreDistinct(i, j, s, t);
  }

  /** save_jpeg of `Path(temp_subpath, f"{i}_{stain_type}")` writes exactly
      the file the stitcher reads, as long as the stain name has no dot. */
  lemma SavedTileIsReadBack(subpath: Path, i: nat, stainType: string)
    requires '.' !in stainType
    ensures subpath.Join(Decimal(i) + "_" + stainType).WithSuffix(".jpeg") == TilePath(subpath, i, stainType)
  {
    var name := Decimal(i) + "_" + stainType;
    forall k | 0 <= k < |name|
      ensures name[k] != '.'
    {
      if k < |Decimal(i)| {
        assert name[k] == Decimal(i)[k];
      } else if k > |Decimal(i)| {
        assert name[k] == stainType[k - |Decimal(i)| - 1];
      }
    }
    assert LastIndexOf(name, '.').None?;
    var p := subpath.Join(name);
    assert p.parts[..|p.parts| - 1] == subpath.parts;
  }

  // ---------------------------------------------------------------------
  // np.concatenate on images

  function Widths(parts: seq<Image>): nat {
    if parts == [] then 0 else Widths(parts[..|parts| - 1]) + parts[|parts| - 1].shape.width
  }

  function Heights(parts: seq<Image>): nat {
    if parts == [] then 0 else Heights(parts[..|parts| - 1]) + parts[|parts| - 1].shape.height
  }

  function PixelsOf(parts: seq<Image>): (ps: seq<Pixels>)
    ensures |ps| == |parts| && forall i :: 0 <= i < |parts| ==> ps[i] == parts[i].pixels
  {
    seq(|parts|, i requires 0 <= i < |parts| => parts[i].pixels)
  }

  /** `np.concatenate(parts, axis=1)`: side by side; nothing to concatenate
      and differing heights raise. */
  function ConcatColumns(parts: seq<Image>): (r: Result<Image, Error>)
    ensures r.Ok? <==> parts != [] && forall i :: 0 <= i < |parts| ==> parts[i].shape.height == parts[0].shape.height
    ensures r.Err? ==> r.error == if parts == [] then EmptySequenceError else ShapeMismatch
  {
    if parts == [] then Err(EmptySequenceError)
    else if exists i :: 0 <= i < |parts| && parts[i].shape.height != parts[0].shape.height then Err(ShapeMismatch)
    else Ok(Image(Shape(parts[0].shape.height, Widths(parts)), Joined(1, PixelsOf(parts))))
  }

  /** `np.concatenate(parts, axis=0)`: one above the other; nothing to
      concatenate and differing widths raise. */
  function ConcatRows(parts: seq<Image>): (r: Result<Image, Error>)
    ensures r.Ok? <==> parts != [] && forall i :: 0 <= i < |parts| ==> parts[i].shape.width == parts[0].shape.width
    ensures r.Err? ==> r.error == if parts == [] then EmptySequenceError else ShapeMismatch
  {
    if parts == [] then Err(EmptySequenceError)
    else if exists i :: 0 <= i < |parts| && parts[i].shape.width != parts[0].shape.width then Err(ShapeMismatch)
    else Ok(Image(Shape(Heights(parts), parts[0].shape.width), Joined(0, PixelsOf(parts))))
  }

  // ---------------------------------------------------------------------
  // stitcher: the reference reading order

  /** How the stitchers read tile i of one stain: the image at its
      temporary file, or the error reading it raises. */
  type TileReader = nat -> Result<Image, Error>

  /** The tile reader of the temporary folder `subpath`, for one stain. */
  function TileReaderOf(files: map<Path, Content>, subpath: Path, stainType: string): TileReader {
    (i: nat) => ReadImage(files, TilePath(subpath, i, stainType))
  }

  /** The `count` tiles from index `start` on, in index order; the first one
      missing raises. */
  function ReadRow(read: TileReader, start: nat, count: nat): (r: Result<seq<Image>, Error>)
    ensures r.Ok? ==> |r.value| == count
  {
    if count == 0 then Ok([])
    else
      var front :- ReadRow(read, start, count - 1);
      var tile :- read(start + count - 1);
      Ok(front + [tile])
  }

  /** Stitched row `row` of a grid n tiles wide: its n tiles side by side. */
  function StitchedRow(read: TileReader, n: nat, row: nat): Result<Image, Error> {
    var tiles :- ReadRow(read, row * n, n);
    ConcatColumns(tiles)
  }

  /** The first `count` stitched rows, in order; the first failure raises. */
  function StitchedRows(read: TileReader, n: nat, count: nat): (r: Result<seq<Image>, Error>)
    ensures r.Ok? ==> |r.value| == count
  {
    if count == 0 then Ok([])
    else
      var front :- StitchedRows(read, n, count - 1);
      var row :- StitchedRow(read, n, count - 1);
      Ok(front + [row])
  }

  /** The stitched slide: m stitched rows one above the other. */
  function Assemble(read: TileReader, m: nat, n: nat): Result<Image, Error> {
    var rows :- StitchedRows(read, n, m);
    ConcatRows(rows)
  }

  /** A count as `range` sees it. */
  function Count(k: int): nat {
    if k < 0 then 0 else k
  }

  /** The file the numpy stitcher writes: save_jpeg of
      `Path(norm_path, f"{stain_type}_{stem}")`. */
  function StitchedJpegPath(normPath: Path, stainType: string, stem: string): Path {
    normPath.Join(stainType + "_" + stem).WithSuffix(".jpeg")
  }

  /** stitcher: read tile `slice_index` into row `slice_index / n`, column
      `slice_index % n`, concatenate each row and then the rows, and save
      the slide as a jpeg in the folder of normalised slides. */
  method Stitcher(fs: FileSystem, stainType: string, mn: (int, int), subpath: Path, normPath: Path, stem: string)
    returns (r: Result<(), Error>)
    modifies fs
    ensures fs.dirs == old(fs.dirs)
    ensures var a := Assemble(TileReaderOf(old(fs.files), subpath, stainType), Count(mn.0), Count(mn.1));
      var target := StitchedJpegPath(normPath, stainType, stem);
      (a.Err? ==> r == Err(a.error) && fs.files == old(fs.files)) &&
      (a.Ok? ==> (r.Ok? <==> target.Parent() in fs.dirs) &&
                 (r.Ok? ==> fs.files == old(fs.files)[target := Raster(a.value)]) &&
                 (r.Err? ==> r.error == NoSuchDirectory(target.Parent()) && fs.files == old(fs.files)))
  {
    var m, n := Count(mn.0), Count(mn.1);
    var read := TileReaderOf(fs.files, subpath, stainType);
    var sliceIndex := 0;
    var stackedRows: seq<Image> := [];
    var row := 0;
    while row < m
      invariant unchanged(fs)
      invariant 0 <= row <= m && sliceIndex == RowStart(row, n)
      invariant StitchedRows(read, n, row) == Ok(stackedRows)
    {
      var tiles;
      tiles, sliceIndex := ReadStitchRow(read, sliceIndex, n);
      if tiles.Err? {
        RowReadFails(read, m, n, row);
        return Err(tiles.error);
      }
      StitchedRowIs(read, n, row);
      var rowStitched := ConcatColumns(tiles.value);
      if rowStitched.Err? {
        StitchFailsAtRow(read, m, n, row);
        return Err(rowStitched.error);
      }
      StitchedRowsStep(read, n, row, stackedRows, rowStitched.value);
      stackedRows := stackedRows + [rowStitched.value];
      NextRowStart(row, n);
      row := row + 1;
    }
    AssembleIs(read, m, n);
    var image := ConcatRows(stackedRows);
    if image.Err? {
      return Err(image.error);
    }
    r := fs.SaveJpeg(normPath.Join(stainType + "_" + stem), image.value);
  }

  /** The index of the first tile of grid row `row`, n tiles to a row. */
  function RowStart(row: nat, n: nat): nat {
    row * n
  }

  /** The next row starts n tiles further on. */
  lemma NextRowStart(row: nat, n: nat)
    ensures RowStart(row + 1, n) == RowStart(row, n) + n
  {
  }

  /** The inner loop of stitcher: read the n tiles from `start` on, in
      order, stopping at the first that raises; `next` is the slice index
      after the last tile read. */
  method ReadStitchRow(read: TileReader, start: nat, n: nat) returns (tiles: Result<seq<Image>, Error>, next: nat)
    ensures tiles == ReadRow(read, start, n)
    ensures tiles.Ok? ==> next == start + n
  {
    var row: seq<Image> := [];
    next := start;
    var col := 0;
    while col < n
      invariant 0 <= col <= n && next == start + col
      invariant ReadRow(read, start, col) == Ok(row)
    {
      var tile := read(next);
      if tile.Err? {
        ReadRowStops(read, start, col);
        ReadRowFailureSticks(read, start, col + 1, n);
        return Err(tile.error), next;
      }
      ReadRowStep(read, start, col, row, tile.value);
      row := row + [tile.value];
      next := next + 1;
      col := col + 1;
    }
    return Ok(row), next;
  }

  /** A row whose tiles cannot all be read makes the whole stitch fail with
      the row's error. */
  lemma RowReadFails(read: TileReader, m: nat, n: nat, row: nat)
    requires row < m
    requires StitchedRows(read, n, row).Ok?
    requires ReadRow(read, RowStart(row, n), n).Err?
    ensures Assemble(read, m, n) == Err(ReadRow(read, RowStart(row, n), n).error)
  {
    StitchedRowsStop(read, n, row);
    StitchedRowsFailureSticks(read, n, row + 1, m);
    AssembleStops(read, m, n);
  }

  /** All m rows stitched: the slide is their concatenation. */
  lemma AssembleIs(read: TileReader, m: nat, n: nat)
    requires StitchedRows(read, n, m).Ok?
    ensures Assemble(read, m, n) == ConcatRows(StitchedRows(read, n, m).value)
  {
  }

  /** Reading one more tile appends it. */
  lemma ReadRowStep(read: TileReader, start: nat, count: nat, tiles: seq<Image>, tile: Image)
    requires ReadRow(read, start, count) == Ok(tiles)
    requires read(start + count) == Ok(tile)
    ensures ReadRow(read, start, count + 1) == Ok(tiles + [tile])
  {
  }

  /** Stitching one more row appends it. */
  lemma StitchedRowsStep(read: TileReader, n: nat, count: nat, rows: seq<Image>, row: Image)
    requires StitchedRows(read, n, count) == Ok(rows)
    requires StitchedRow(read, n, count) == Ok(row)
    ensures StitchedRows(read, n, count + 1) == Ok(rows + [row])
  {
  }

  /** A tile missing from row `row` makes the whole stitch fail with that
      tile's error: the first missing tile in reading order decides. */
  lemma StitchFailsInRow(read: TileReader, m: nat, n: nat, row: nat, col: nat)
    requires row < m && col < n
    requires StitchedRows(read, n, row).Ok?
    requires ReadRow(read, row * n, col).Ok?
    requires read(row * n + col).Err?
    ensures Assemble(read, m, n) ==
            Err(read(row * n + col).error)
  {
    ProductIsNat(row, n);
    var start := row * n;
    StitchedRowFails(read, n, start, row, col);
    StitchedRowsStop(read, n, row);
    StitchedRowsFailureSticks(read, n, row + 1, m);
    calc {
      Assemble(read, m, n);
      { AssembleStops(read, m, n); }
      Err(StitchedRows(read, n, m).error);
      Err(StitchedRows(read, n, row + 1).error);
      Err(StitchedRow(read, n, row).error);
      Err(read(start + col).error);
    }
  }

  /** Rows that fail to stitch make the slide fail with their error. */
  lemma AssembleStops(read: TileReader, m: nat, n: nat)
    requires StitchedRows(read, n, m).Err?
    ensures Assemble(read, m, n) == Err(StitchedRows(read, n, m).error)
  {
  }

  /** A missing tile makes its row fail with that tile's error. */
  lemma StitchedRowFails(read: TileReader, n: nat, start: nat, row: nat, col: nat)
    requires start == row * n && col < n
    requires ReadRow(read, start, col).Ok? && read(start + col).Err?
    ensures StitchedRow(read, n, row) == Err(read(start + col).error)
  {
    ReadRowStops(read, start, col);
    ReadRowFailureSticks(read, start, col + 1, n);
  }

  /** A missing tile stops the row with its error. */
  lemma ReadRowStops(read: TileReader, start: nat, count: nat)
    requires ReadRow(read, start, count).Ok? && read(start + count).Err?
    ensures ReadRow(read, start, count + 1) == Err(read(start + count).error)
  {
  }

  /** A row that fails stops the stitch with its error. */
  lemma StitchedRowsStop(read: TileReader, n: nat, count: nat)
    requires StitchedRows(read, n, count).Ok? && StitchedRow(read, n, count).Err?
    ensures StitchedRows(read, n, count + 1) == Err(StitchedRow(read, n, count).error)
  {
  }

  /** A row whose tiles do not concatenate makes the whole stitch fail. */
  lemma StitchFailsAtRow(read: TileReader, m: nat, n: nat, row: nat)
    requires row < m
    requires StitchedRows(read, n, row).Ok?
    requires ReadRow(read, row * n, n).Ok?
    requires ConcatColumns(ReadRow(read, row * n, n).value).Err?
    ensures Assemble(read, m, n) ==
            Err(ConcatColumns(ReadRow(read, row * n, n).value).error)
  {
    StitchedRowsFailureSticks(read, n, row + 1, m);
  }

  lemma {:induction false} ReadRowFailureSticks(read: TileReader, start: nat, k: nat, count: nat)
    requires k <= count
    requires ReadRow(read, start, k).Err?
    ensures ReadRow(read, start, count) == ReadRow(read, start, k)
    decreases count - k
  {
    if k < count {
      ReadRowFailureSticks(read, start, k, count - 1);
    }
  }

  lemma {:induction false} StitchedRowsFailureSticks(read: TileReader, n: nat, k: nat, count: nat)
    requires k <= count
    requires StitchedRows(read, n, k).Err?
    ensures StitchedRows(read, n, count) == StitchedRows(read, n, k)
    decreases count - k
  {
    if k < count {
      StitchedRowsFailureSticks(read, n, k, count - 1);
    }
  }

  /** Reading fewer tiles reads a prefix of them. */
  lemma {:induction false} ReadRowPrefix(read: TileReader, start: nat, k: nat, count: nat)
    requires k <= count
    requires ReadRow(read, start, count).Ok?
    ensures ReadRow(read, start, k).Ok?
    ensures ReadRow(read, start, count).value[..k] == ReadRow(read, start, k).value
    decreases count
  {
    if k < count {
      var all := ReadRow(read, start, count).value;
      ReadRowPrefix(read, start, k, count - 1);
      assert all[..count - 1] == ReadRow(read, start, count - 1).value;
      assert all[..k] == all[..count - 1][..k];
    }
  }

  /** Stitching fewer rows stitches a prefix of them. */
  lemma {:induction false} StitchedRowsPrefix(read: TileReader, n: nat, k: nat, count: nat)
    requires k <= count
    requires StitchedRows(read, n, count).Ok?
    ensures StitchedRows(read, n, k).Ok?
    ensures StitchedRows(read, n, count).value[..k] == StitchedRows(read, n, k).value
    decreases count
  {
    if k < count {
      var all := StitchedRows(read, n, count).value;
      StitchedRowsPrefix(read, n, k, count - 1);
      assert all[..count - 1] == StitchedRows(read, n, count - 1).value;
      assert all[..k] == all[..count - 1][..k];
    }
  }

  // ---------------------------------------------------------------------
  // The tiles of a slicer grid stitch back into the slide

  /** The first tile of a row has a non-negative index. */
  lemma ProductIsNat(row: nat, n: nat)
    ensures row * n >= 0
  {
  }

  /** The tile reads back as an image of the given size. */
  ghost predicate IsImageOfSize(tile: Result<Image, Error>, size: Size) {
    tile.Ok? && tile.value.shape.width == size.width && tile.value.shape.height == size.height
  }

  /** The temporary folder holds, for one stain, an image of the size of
      every tile of the m x n grid over a w x h slide. */
  ghost predicate HoldsGridTiles(read: TileReader, w: nat, h: nat, m: nat, n: nat)
    requires m >= 1 && n >= 1
  {
    forall i {:trigger RectAt(w, h, m, n, i)} :: 0 <= i < m * n ==> IsImageOfSize(read(i), RectAt(w, h, m, n, i).size)
  }

  /** The pixels of tile i in the temporary folder. */
  function TilePixels(read: TileReader, i: nat): Pixels {
    var tile := read(i);
    if tile.Ok? then tile.value.pixels else Joined(0, [])
  }

  /** The pixels of stitched row r: its n tiles joined side by side. */
  function RowPixels(read: TileReader, n: nat, r: nat): Pixels {
    Joined(1, seq(n, c requires 0 <= c < n => TilePixels(read, r * n + c)))
  }

  /** The tile at row `row`, column `col` of the grid reads back with the
      size of that grid cell. */
  lemma GridTileReads(read: TileReader, w: nat, h: nat, m: nat, n: nat, row: nat, col: nat, i: nat)
    requires m >= 1 && n >= 1 && row < m && col < n && i == row * n + col
    requires HoldsGridTiles(read, w, h, m, n)
    ensures read(i).Ok? && read(i).value.shape.height == PartLength(h, m, row) &&
      read(i).value.shape.width == PartLength(w, n, col) &&
      read(i).value.pixels == TilePixels(read, i)
  {
    RowMajorBound(row, col, m, n);
    RowMajor(row, col, n);
    assert IsImageOfSize(read(i), RectAt(w, h, m, n, i).size);
  }

  /** The tiles read for grid row `row` have that row's height, the widths
      of their columns, and the pixels of the files they come from. */
  ghost predicate IsGridRow(read: TileReader, w: nat, h: nat, m: nat, n: nat, row: nat, tiles: seq<Image>)
    requires m >= 1 && n >= 1
  {
    forall c :: 0 <= c < |tiles| ==>
      tiles[c].shape.height == PartLength(h, m, row) && tiles[c].shape.width == PartLength(w, n, c) &&
      tiles[c].pixels == TilePixels(read, row * n + c)
  }

  lemma {:induction false} GridRowReads(read: TileReader, w: nat, h: nat, m: nat, n: nat, row: nat, count: nat)
    requires m >= 1 && n >= 1 && row < m && count <= n
    requires HoldsGridTiles(read, w, h, m, n)
    ensures var tiles := ReadRow(read, row * n, count);
      tiles.Ok? && IsGridRow(read, w, h, m, n, row, tiles.value) &&
      Widths(tiles.value) == LengthSum(w, n, count)
  {
    ProductIsNat(row, n);
    if count > 0 {
      GridRowReads(read, w, h, m, n, row, count - 1);
      GridTileReads(read, w, h, m, n, row, count - 1, row * n + (count - 1));
      GridRowReadsStep(read, w, h, m, n, row, count - 1);
    }
  }

  /** The step of GridRowReads: reading the next tile of the row. */
  lemma GridRowReadsStep(read: TileReader, w: nat, h: nat, m: nat, n: nat, row: nat, count: nat)
    requires m >= 1 && n >= 1
    requires ReadRow(read, row * n, count).Ok?
    requires IsGridRow(read, w, h, m, n, row, ReadRow(read, row * n, count).value)
    requires Widths(ReadRow(read, row * n, count).value) == LengthSum(w, n, count)
    requires read(row * n + count).Ok? && read(row * n + count).value.shape.height == PartLength(h, m, row) &&
      read(row * n + count).value.shape.width == PartLength(w, n, count) &&
      read(row * n + count).value.pixels == TilePixels(read, row * n + count)
    ensures var tiles := ReadRow(read, row * n, count + 1);
      tiles.Ok? && IsGridRow(read, w, h, m, n, row, tiles.value) &&
      Widths(tiles.value) == LengthSum(w, n, count + 1)
  {
    ProductIsNat(row, n);
    var front := ReadRow(read, row * n, count).value;
    var tile := read(row * n + count).value;
    ReadRowStep(read, row * n, count, front, tile);
    GridRowStep(read, w, h, m, n, row, front, tile);
    WidthsStep(front, tile);
  }

  /** One more image adds its width. */
  lemma WidthsStep(front: seq<Image>, tile: Image)
    ensures Widths(front + [tile]) == Widths(front) + tile.shape.width
  {
    assert (front + [tile])[..|front|] == front;
  }

  /** A grid row's tiles followed by its next tile are still its tiles. */
  lemma GridRowStep(read: TileReader, w: nat, h: nat, m: nat, n: nat, row: nat, front: seq<Image>, tile: Image)
    requires m >= 1 && n >= 1
    requires IsGridRow(read, w, h, m, n, row, front)
    requires tile.shape.height == PartLength(h, m, row) && tile.shape.width == PartLength(w, n, |front|)
    requires tile.pixels == TilePixels(read, row * n + |front|)
    ensures IsGridRow(read, w, h, m, n, row, front + [tile])
  {
    var tiles := front + [tile];
    forall c | 0 <= c < |tiles|
      ensures tiles[c].shape.height == PartLength(h, m, row) && tiles[c].shape.width == PartLength(w, n, c) &&
              tiles[c].pixels == TilePixels(read, row * n + c)
    {
      if c < |front| {
        assert tiles[c] == front[c];
      }
    }
  }


  /** A full grid row concatenates into a strip as wide as the slide and as
      tall as the row. */
  lemma GridRowStitches(read: TileReader, w: nat, h: nat, m: nat, n: nat, row: nat)
    requires m >= 1 && n >= 1 && row < m
    requires HoldsGridTiles(read, w, h, m, n)
    ensures var s := StitchedRow(read, n, row);
      s.Ok? && s.value.shape.height == PartLength(h, m, row) && s.value.shape.width == w &&
      s.value.pixels == RowPixels(read, n, row)
  {
    ProductIsNat(row, n);
    GridRowReads(read, w, h, m, n, row, n);
    LengthsSumToTotal(w, n, n);
    var tiles := ReadRow(read, row * n, n).value;
    StitchedRowIs(read, n, row);
    GridRowConcat(read, w, h, m, n, row, tiles);
  }

  /** Stitched row `row` is the concatenation of the tiles read for it. */
  lemma StitchedRowIs(read: TileReader, n: nat, row: nat)
    requires ReadRow(read, row * n, n).Ok?
    ensures StitchedRow(read, n, row) == ConcatColumns(ReadRow(read, row * n, n).value)
  {
  }

  /** The n tiles of a grid row, as wide together as the slide, concatenate
      into a strip of the row's height and the slide's width. */
  lemma {:induction false} GridRowConcat(read: TileReader, w: nat, h: nat, m: nat, n: nat, row: nat, tiles: seq<Image>)
    requires m >= 1 && n >= 1 && row < m
    requires |tiles| == n && IsGridRow(read, w, h, m, n, row, tiles) && Widths(tiles) == w
    ensures ConcatColumns(tiles) == Ok(Image(Shape(PartLength(h, m, row), w), RowPixels(read, n, row)))
  {
    var pixels := PixelsOf(tiles);
    var rowPixels := seq(n, c requires 0 <= c < n => TilePixels(read, row * n + c));
    forall c | 0 <= c < n
      ensures pixels[c] == rowPixels[c]
    {
    }
    assert pixels == rowPixels;
  }

  /** The stitched rows have the heights of the grid rows, the slide's
      width, and the pixels of their tiles. */
  ghost predicate AreGridRows(read: TileReader, w: nat, h: nat, m: nat, n: nat, rows: seq<Image>)
    requires m >= 1 && n >= 1
  {
    forall r :: 0 <= r < |rows| ==>
      rows[r].shape.height == PartLength(h, m, r) && rows[r].shape.width == w &&
      rows[r].pixels == RowPixels(read, n, r)
  }

  lemma {:induction false} GridRowsStitch(read: TileReader, w: nat, h: nat, m: nat, n: nat, count: nat)
    requires m >= 1 && n >= 1 && count <= m
    requires HoldsGridTiles(read, w, h, m, n)
    ensures var rows := StitchedRows(read, n, count);
      rows.Ok? && AreGridRows(read, w, h, m, n, rows.value) &&
      Heights(rows.value) == LengthSum(h, m, count)
  {
    if count > 0 {
      GridRowsStitch(read, w, h, m, n, count - 1);
      GridRowStitches(read, w, h, m, n, count - 1);
      var front := StitchedRows(read, n, count - 1).value;
      var rows := StitchedRows(read, n, count).value;
      assert rows == front + [rows[count - 1]];
      assert rows[..|rows| - 1] == front;
    }
  }

  /** stitcher on a complete set of grid tiles gives a w x h image whose
      row r, column c is tile `r * n + c`. */
  lemma StitchedGrid(read: TileReader, w: nat, h: nat, m: nat, n: nat)
    requires m >= 1 && n >= 1
    requires HoldsGridTiles(read, w, h, m, n)
    ensures var a := Assemble(read, m, n);
      a.Ok? && a.value.shape == Shape(h, w) &&
      a.value.pixels == Joined(0, seq(m, r requires 0 <= r < m => RowPixels(read, n, r)))
  {
    GridRowsStitch(read, w, h, m, n, m);
    LengthsSumToTotal(h, m, m);
    var rows := StitchedRows(read, n, m).value;
    assert rows[0].shape.width == w;
    assert PixelsOf(rows) == seq(m, r requires 0 <= r < m => RowPixels(read, n, r));
  }

  /** Each tile lands where it was cut from: the tiles to its left in its
      stitched row are as wide as its x offset, and the rows above it are
      as tall as its y offset. */
  lemma TileReturnsToItsPlace(read: TileReader, w: nat, h: nat, m: nat, n: nat, r: nat, c: nat)
    requires m >= 1 && n >= 1 && r < m && c < n
    requires HoldsGridTiles(read, w, h, m, n)
    ensures ReadRow(read, r * n, n).Ok? && StitchedRows(read, n, m).Ok?
    ensures var rowTiles := ReadRow(read, r * n, n).value;
      var rows := StitchedRows(read, n, m).value;
      Point(Widths(rowTiles[..c]), Heights(rows[..r])) == RectAt(w, h, m, n, r * n + c).location
  {
    TileLeftEdge(read, w, h, m, n, r, c);
    TileTopEdge(read, w, h, m, n, r);
    RowMajor(r, c, n);
  }

  lemma TileLeftEdge(read: TileReader, w: nat, h: nat, m: nat, n: nat, r: nat, c: nat)
    requires m >= 1 && n >= 1 && r < m && c < n
    requires HoldsGridTiles(read, w, h, m, n)
    ensures ReadRow(read, r * n, n).Ok?
    ensures Widths(ReadRow(read, r * n, n).value[..c]) == PartStart(w, n, c)
  {
    ProductIsNat(r, n);
    var start := r * n;
    GridRowReads(read, w, h, m, n, r, c);
    GridRowReads(read, w, h, m, n, r, n);
    ReadRowPrefix(read, start, c, n);
    var all, left := ReadRow(read, start, n).value, ReadRow(read, start, c).value;
    assert all[..c] == left;
    assert Widths(left) == LengthSum(w, n, c);
    LengthsSumToTotal(w, n, c);
  }

  lemma TileTopEdge(read: TileReader, w: nat, h: nat, m: nat, n: nat, r: nat)
    requires m >= 1 && n >= 1 && r < m
    requires HoldsGridTiles(read, w, h, m, n)
    ensures StitchedRows(read, n, m).Ok?
    ensures Heights(StitchedRows(read, n, m).value[..r]) == PartStart(h, m, r)
  {
    GridRowsStitch(read, w, h, m, n, r);
    GridRowsStitch(read, w, h, m, n, m);
    StitchedRowsPrefix(read, n, r, m);
    LengthsSumToTotal(h, m, r);
  }

  // ---------------------------------------------------------------------
  // vips_stitcher

  /** Where `arrayjoin(tiles, across)` puts tile k: row k / across,
      column k % across. */
  function ArrayJoinCell(k: nat, across: int): (cell: (int, int))
    requires across >= 1
    ensures cell.0 * across + cell.1 == k && 0 <= cell.1 < across && cell.0 >= 0
  {
    (k / across, k % across)
  }

  /** With across = mn[1], arrayjoin puts every tile in the cell the numpy
      stitcher reads it into. */
  lemma VipsLayoutMatchesStitcher(m: int, n: int, row: int, col: int)
    requires n >= 1 && 0 <= row < m && 0 <= col < n
    ensures row * n + col >= 0 && ArrayJoinCell(row * n + col, n) == (row, col)
  {
    RowMajor(row, col, n);
  }

  /** The tiles 0 .. count-1 of one stain, in index order; the first one
      missing raises. */
  function ReadTiles(read: TileReader, count: nat): (r: Result<seq<Pixels>, Error>)
    ensures r.Ok? <==> forall i :: 0 <= i < count ==> read(i).Ok?
    ensures r.Ok? ==> |r.value| == count
    ensures r.Ok? ==> forall i :: 0 <= i < count ==> r.value[i] == TilePixels(read, i)
  {
    if count == 0 then Ok([])
    else
      var front :- ReadTiles(read, count - 1);
      var tile :- read(count - 1);
      Ok(front + [tile.pixels])
  }

  /** On a complete set of grid tiles vips_stitcher reads every tile, and
      puts the pixels of tile `r * n + c` at row r, column c, as stitcher
      does. */
  lemma VipsJoinsGridTiles(read: TileReader, w: nat, h: nat, m: nat, n: nat, r: nat, c: nat)
    requires m >= 1 && n >= 1 && r < m && c < n
    requires HoldsGridTiles(read, w, h, m, n)
    ensures var tiles := ReadTiles(read, m * n);
      tiles.Ok? && r * n + c < |tiles.value| &&
      ArrayJoinCell(r * n + c, n) == (r, c) &&
      tiles.value[r * n + c] == TilePixels(read, r * n + c)
  {
    forall i | 0 <= i < m * n
      ensures read(i).Ok?
    {
      assert IsImageOfSize(read(i), RectAt(w, h, m, n, i).size);
    }
    RowMajorBound(r, c, m, n);
    VipsLayoutMatchesStitcher(m, n, r, c);
  }

  /** The tif vips_stitcher writes: `Path(norm_path, f"{stain_type}_{stem}.tif")`. */
  function StitchedTifPath(normPath: Path, stainType: string, stem: string): Path {
    normPath.Join(stainType + "_" + stem + ".tif")
  }

  /** vips_stitcher: join the tiles 0 .. len(tile_map)-1 `across = mn[1]`
      wide and save them as a tiled tif. */
  method VipsStitcher(fs: FileSystem, stainType: string, tileCount: nat, across: int, subpath: Path, normPath: Path, stem: string)
    returns (r: Result<(), Error>)
    modifies fs
    ensures fs.dirs == old(fs.dirs)
    ensures var tiles := ReadTiles(TileReaderOf(old(fs.files), subpath, stainType), tileCount);
      var target := StitchedTifPath(normPath, stainType, stem);
      (tiles.Err? ==> r == Err(tiles.error) && fs.files == old(fs.files)) &&
      (tiles.Ok? ==> (r.Ok? <==> target.Parent() in fs.dirs) &&
                     (r.Ok? ==> fs.files == old(fs.files)[target := TiledTiff(tiles.value, across)]) &&
                     (r.Err? ==> r.error == NoSuchDirectory(target.Parent()) && fs.files == old(fs.files)))
  {
    var tiles := ReadTiles(TileReaderOf(fs.files, subpath, stainType), tileCount);
    if tiles.Err? {
      return Err(tiles.error);
    }
    r := fs.Save(StitchedTifPath(normPath, stainType, stem), TiledTiff(tiles.value, across));
  }

  /** What jpeg_stitcher writes for one stain, or the error that stops it
      before writing: with vips, the len(tile_map) tiles joined `mn[1]`
      across as a tif; otherwise the numpy stitch as a jpeg. */
  function StitchedOutput(files: map<Path, Content>, stainType: string, vips: bool, mn: (int, int), tileCount: nat,
                          subpath: Path, normPath: Path, stem: string): (r: Result<(Path, Content), Error>)
    ensures r.Ok? && vips ==> r.value.0 == StitchedTifPath(normPath, stainType, stem) && r.value.1.TiledTiff?
    ensures r.Ok? && !vips ==> r.value.0 == StitchedJpegPath(normPath, stainType, stem) && r.value.1.Raster?
  {
    var read := TileReaderOf(files, subpath, stainType);
    if vips then
      var tiles :- ReadTiles(read, tileCount);
      Ok((StitchedTifPath(normPath, stainType, stem), TiledTiff(tiles, mn.1)))
    else
      var image :- Assemble(read, Count(mn.0), Count(mn.1));
      Ok((StitchedJpegPath(normPath, stainType, stem), Raster(image)))
  }
}
