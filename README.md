# dogsled, modelled in Dafny

dogsled normalises the stains of whole-slide microscopy images (SVS slides, or
the images of a QuPath project). For each slide it does the following:

1. Cut the slide into a grid of tiles that fit in memory.
2. Queue the tiles with a seed tile first. Normalise the seed tile to calibrate
   the stain basis `he` and the saturation ratio `tmp`.
3. Normalise every later tile with that calibration.
4. Save the tiles to a temporary folder, stitch them back into one slide per
   output stain type, and remove the temporary tiles.

This project models the integer, path and bookkeeping logic of that pipeline
and proves what it promises. The floating-point image maths is kept as
uninterpreted terms.

Modules, one per concern of the program:

- `Wrappers`, `Errors` (wrappers.dfy): `Option`/`Result`, and the exceptions
  the program raises, as one error datatype.
- `PathLib` (pathlib.dfy): the parts of `pathlib` the program relies on
  (`/`, `.name`, `.parent`, `.suffix`, `.stem`, `.with_suffix`), on paths made
  of components, and `str(n)` for tile numbers.
- `Defaults` (defaults.dfy):
  - the `StainTypes` enum;
  - the `Defaults` slot class as a `class` whose `Init` runs the `setattr`
    loop of `__init__`;
  - `DEFAULTS_VALS`;
  - the typed `Config` record the rest of the model reads.
- `Resources` (resources.py): the tile side chosen from available memory
  (`ResourceChecker.tile_size`, a class that stores `_mpx`), and the disk-space
  estimate.
- `UserInput` (user_input.py):
  - `InputChecker`: index check, name check with `.svs` completion, and the
    controller;
  - `FileData`: system paths, slide listing, slides to process;
  - the `UserSlideInput` record as a class.
- `FileStore` (file_store.dfy): an abstract file system. It holds a set of
  folders and a map from file paths to contents. It provides `mkdir` as
  `PathCreator.create_path` uses it, `save_jpeg`, `unlink` and reading a slide.
- `SlideTiler` (slide_tiler.dfy): `rows_columns`, `slice_points` (a loop that
  appends), `coordinates_dict` (the `OrderedDict` queue), `slicer` and
  `thumbnail_size`.
- `Stitching` (stitching.dfy):
  - the numpy `stitcher`: its row and column loops with the `slice_index`
    counter, and `np.concatenate` on image shapes;
  - `vips_stitcher`: tiles `0..len(tile_map)-1` joined `across = mn[1]`.
- `Normalisation` (normalisation.dfy): the discrete decisions inside the
  numeric pipeline:
  - the background filter;
  - the ordering of the two stain columns;
  - `nb_lstsq`'s ten contiguous batches (a loop);
  - `region_s` reusing a given `he`;
  - the basis columns each output type selects;
  - the `uint8` cast and clamp in `image_restore`.
- `Normaliser` (normaliser.dfy):
  - the `NormaliseSlides` state machine: `process_slide`,
    `slice_normalisation` with the `he`/`tmp` fields, the tile loop, the
    stitching loop over stain types, `repeat_stitching`;
  - `cleaner` (a loop of `unlink`s);
  - lemmas that connect the tiler, the tile loop and the stitchers. The tiles
    saved by the loop fill the grid exactly, so the numpy stitcher rebuilds an
    image of the slide's size, and the vips stitcher finds every tile.

Images are `(height, width)` shapes with symbolic pixel content. `he`, `tmp`,
`s_cut` and restored pixels are provenance terms such as `StainVectorsOf(seed
rectangle)` and `LstsqOf(basis, pixel)`. This makes "every tile after the
first uses the seed tile's `he` and `tmp`" a provable statement.

Where the code and its comments or tests differ, the model follows the code:

- `rows_columns` derives `m` from the width and `n` from the height, and
  `slice_points` then divides the width by `n` and the height by `m`.
  - Coverage is proved for every grid of at least one row and column.
  - No bound of the tile side by `max_side_px` is claimed.
    `SlideTiler.TileSideCanExceedMaxSide` shows a tile 2487 px high for a
    1500 px limit.
- The shipped RAM table `{12000: 12000, 12001: 24500}` switches at 12000 MB,
  not at the 8000 MB that its comment and `test_tile_size` assume
  (`Resources.ShippedTableThreshold`).
- `resources.py:64` and `user_input.py:230` subscript `DEFAULTS[...]`, but
  `Defaults` defines no `__getitem__`, so both lines would raise `TypeError`.
  The model reads the intended entries: the RAM table and the temporary
  folder name are parameters, filled from `Config`.

## Model

| member | source | states |
|---|---|---|
| `Defaults.StainValueIsName` | dogsled/defaults.py:13-17 | every `StainTypes` member's value equals its name (`norm`, `he`, `eo`) |
| `Defaults.StainTypeOfValue` | dogsled/defaults.py:13-17 | `StainTypes(value)` finds the member with that value, and finds none exactly when no member has it |
| `Defaults.StainTypeRoundTrip` | dogsled/defaults.py:13-17 | looking a member up by its value gives the member back |
| `Defaults.StainTypeNames` | dogsled/defaults.py:81-83 | `stain_types` has one name per configured output type, in the same order, each naming its member |
| `Defaults.StainTypeNamesOfAllTypes` | dogsled/tests/test_defaults.py:88-90 | `[norm, he, eo]` gives `['norm', 'he', 'eo']` |
| `Defaults.MissingSlotFrom` | dogsled/defaults.py:76-79 | finds the first slot, in `__slots__` order, that the dictionary lacks; every slot before it is present; no result exactly when all are present |
| `Defaults.Defaults.Init` | dogsled/defaults.py:76-79 | `__init__` raises `KeyError` exactly when a slot is missing, naming the first missing slot; the slots before it are already set; on success every slot attribute holds `dict[slot]` |
| `Defaults.Defaults.StainTypes` | dogsled/defaults.py:81-83 | `stain_types()` on the object gives one name per entry of its `output_type` attribute |
| `Defaults.ExtraKeysAreIgnored` | dogsled/defaults.py:78-79 | two dictionaries that agree on the slots give the same outcome and the same attributes: keys outside `__slots__` are ignored |
| `Defaults.MissingSlotsAgree` | dogsled/defaults.py:78-79 | dictionaries with the same slot keys fail at the same slot |
| `Defaults.SlotsHoldTheirValues` | dogsled/defaults.py:78-79 | after a successful `__init__`, each slot holds its dictionary value and nothing else is set |
| `Defaults.DefaultsValuesFillEverySlot` | dogsled/defaults.py:73-86 | `DEFAULTS_VALS` has every slot, so `DEFAULTS = Defaults(DEFAULTS_VALS)` succeeds |
| `Defaults.DefaultConfigMatchesValues` | dogsled/defaults.py:24-28 | the default record's RAM table and output types are those of `DEFAULTS_VALS` |
| `Defaults.DefaultConfigMatchesTemporaryValues` | dogsled/defaults.py:35-36 | the default temporary folder name and removal flag are those of `DEFAULTS_VALS` |
| `Defaults.DefaultConfigMatchesStitchValues` | dogsled/defaults.py:40-45 | the default thumbnail side, stitcher choice and first tile (`"middle"`) are those of `DEFAULTS_VALS` |
| `FileStore.FileSystem.CreatePath` | dogsled/paths.py:42-61 | `create_path` creates the folder without parents; it raises when the parent is missing, or when the folder exists and `rewrite` is false; files are untouched |
| `FileStore.CreatePathTwice` | dogsled/paths.py:49-61 | creating a folder again succeeds with `rewrite` and raises `UserInputError` (already exists) without it |
| `FileStore.FileSystem.SaveJpeg` | dogsled/normaliser.py:288-295 | `save_jpeg` writes the image at `path.with_suffix(".jpeg")` exactly when that folder exists, and changes nothing otherwise |
| `FileStore.FileSystem.Unlink` | dogsled/normaliser.py:671-673 | `unlink` fails exactly on a missing file and otherwise removes that one path |
| `FileStore.ReadImage` | dogsled/normaliser.py:634-636 | opening the slide succeeds exactly when an image is stored at its path, and returns it |
| `Normalisation.FilterBackground` | dogsled/normaliser.py:166 | keeps exactly the optical-density rows whose three channels are all at least `beta`, each as many times as it occurs in `od` |
| `Normalisation.FilterBackgroundOfConcat` | dogsled/normaliser.py:166 | the kept rows stay in their original order: filtering two runs of rows and joining them is filtering the joined rows |
| `Normalisation.FilterBackgroundIsIdempotent` | dogsled/normaliser.py:166 | filtering the filtered rows again changes nothing |
| `Normalisation.OrderStainColumns` | dogsled/normaliser.py:186-189 | the column with the larger first component goes first; on a tie `c_max` goes first; the pair is `(c_min, c_max)` or `(c_max, c_min)` |
| `Normalisation.OrderStainColumnsIsSymmetric` | dogsled/normaliser.py:186-189 | without a tie, the order of the two candidates does not matter |
| `Normalisation.BatchesPartitionColumns` | dogsled/normaliser.py:200 | `np.array_split(y, 10, axis=1)` gives 10 contiguous batches in order, covering all columns; the first `count % 10` batches are one column longer |
| `Normalisation.SolveAllOfConcat` | dogsled/normaliser.py:200-204 | solving two runs of columns separately and concatenating equals solving them together |
| `Normalisation.NbLstsq` | dogsled/normaliser.py:197-205 | the batch loop returns `s_cut` followed by the solution of every column of `y`, in order |
| `Normalisation.RegionS` | dogsled/normaliser.py:216-248 | `hem` is the given `he_vals` when one is given, and is otherwise computed from the sector; `s_cut` solves every pixel against `hem`; `tmp` is derived from `s_cut` |
| `Normalisation.SelectBasis` | dogsled/normaliser.py:266-276 | `"norm"` uses both basis columns, `"eo"` uses column 1, anything else uses column 0 |
| `Normalisation.OtherOutputTypesUseFirstColumn` | dogsled/normaliser.py:272-275 | every output type other than `norm` and `eo` (`he` included) selects column 0 |
| `Normalisation.ImageRestore` | dogsled/normaliser.py:260-284 | the restored image has the tile's `(height, width)` |
| `Normalisation.CastToUint8` | dogsled/normaliser.py:281 | `astype(np.uint8)` yields a value of at most 255 |
| `Normalisation.RestoreChannelAsWritten` | dogsled/normaliser.py:281-282 | a channel as written, cast then clamped, stays within 0..255 |
| `Normalisation.ClampAfterCastNeverFires` | dogsled/normaliser.py:281-282 | the clamp `img[img > 255] = 254` after the cast never changes a value |
| `Normalisation.RestoreChannelWrapsAround` | dogsled/normaliser.py:281-282 | a channel value of 300 comes out as 44 as written, and as 254 when clamped first |
| `Normalisation.RestoreChannel` | dogsled/normaliser.py:281-282 | the clamp-then-cast channel stays within 0..255 |
| `Normalisation.RestoreChannelSaturates` | dogsled/normaliser.py:281-282 | clamping first maps values above 255 to 254 and keeps the others |
| `Resources.ShiftToMegabytes` | dogsled/resources.py:63 | `x >> 20` is floor division by 2^20 |
| `Resources.ClosestKeyIndex` | dogsled/resources.py:64-65 | picks the key closest to the available megabytes; a tie goes to the earliest key |
| `Resources.ResourceChecker.constructor` | dogsled/resources.py:57-58 | a new checker has no tile side stored in `_mpx` |
| `Resources.ResourceChecker.TileSize` | dogsled/resources.py:61-67 | `tile_size` fails on an empty table (`min` of nothing); otherwise it returns the value of the closest key and stores it in `_mpx` |
| `Resources.TileSizeIsATableValue` | dogsled/resources.py:64-67 | the chosen side is the value of a table entry whose key is at least as close as every other key |
| `Resources.ShippedTableThreshold` | dogsled/defaults.py:24-25 | with the shipped table, 12000 px is chosen up to 12000 MB and 24500 px above |
| `Resources.MappingEquation` | dogsled/resources.py:45-47 | `int(-2.28 + 1.51 * svs_size)`, truncated toward zero, computed exactly in hundredths |
| `Resources.Max` | dogsled/resources.py:42 | `max` is an element that no element exceeds |
| `Resources.SpaceEstimator` | dogsled/resources.py:33-43 | the estimate fails exactly for an empty slide list (`max` of nothing) |
| `Resources.MappedSumOfAppend` | dogsled/resources.py:40-42 | one more slide adds its mapped jpeg size to the sum |
| `Resources.SpaceEstimateOfAppend` | dogsled/resources.py:39-43 | one more slide gives the larger maximum plus the sum with its mapped size: `max + sum` |
| `Resources.SpaceEstimateOfOneSlide` | dogsled/tests/test_resources.py:11-21 | one slide of 100 bytes needs 100 + 148 bytes |
| `Resources.Space` | dogsled/resources.py:69-81 | `space` fails on no slides; otherwise free MB is free bytes `>> 20`, required MB is the estimate `>> 20`, and `all_svs` holds iff every suffix is `.svs` |
| `Resources.AllSvs` | dogsled/resources.py:78 | true exactly when every path's suffix is `.svs` |
| `SlideTiler.FloorDiv` | dogsled/normaliser.py:316-317 | Python's `//` rounds toward minus infinity, for either sign of divisor |
| `SlideTiler.NegatedFloorIsCeiling` | dogsled/normaliser.py:316-317 | `-(x // -s)` is the ceiling of `x / s`, and is at least 1 exactly when `x` is |
| `SlideTiler.RowsColumns` | dogsled/normaliser.py:311-318 | `rows_columns` is `(ceil(w/s), ceil(h/s))` for a positive side; a dimension of 0 gives 0; a negative side gives no tiles |
| `SlideTiler.CeilingUnique` | dogsled/normaliser.py:316-317 | the ceiling is unique, so `rows_columns` is exactly `ceil(w/s), ceil(h/s)` |
| `SlideTiler.PartsAreContiguous` | dogsled/normaliser.py:333-343 | each column (row) starts where the previous ends, the first at 0, and the last absorbs the remainder up to the slide's width (height) |
| `SlideTiler.PartsAreOrdered` | dogsled/normaliser.py:333-343 | earlier columns (rows) end before later ones start: no overlap |
| `SlideTiler.PartOf` | dogsled/normaliser.py:333-343 | every pixel of a side falls in some column (row) |
| `SlideTiler.LengthsSumToTotal` | dogsled/normaliser.py:339-343 | the column widths (row heights) add up to the width (height) |
| `SlideTiler.RowMajor` | dogsled/normaliser.py:336-338 | tile index `row * n + col` decomposes back into its row and column |
| `SlideTiler.TileInsideSlide` | dogsled/normaliser.py:336-345 | every tile has a non-negative size and lies inside the slide |
| `SlideTiler.TileAt` | dogsled/normaliser.py:336-345 | every pixel of the slide is covered by a tile |
| `SlideTiler.TilesPartitionSlide` | dogsled/normaliser.py:336-345 | the tile covering a pixel is unique: exact coverage |
| `SlideTiler.RowWidthsArePartLengths` | dogsled/normaliser.py:338-341 | the widths of the first k tiles of a row are the first k column widths |
| `SlideTiler.RowWidthsSumToWidth` | dogsled/normaliser.py:338-341 | the tile widths of every row add up to the slide width |
| `SlideTiler.ColumnHeightsArePartLengths` | dogsled/normaliser.py:338-343 | the heights of the first k tiles of a column are the first k row heights |
| `SlideTiler.ColumnHeightsSumToHeight` | dogsled/normaliser.py:338-343 | the tile heights of every column add up to the slide height |
| `SlideTiler.SlicePoints` | dogsled/normaliser.py:321-346 | `slice_points` raises `ZeroDivisionError` exactly when m or n is 0; a negative count gives no rectangles; otherwise it gives m*n rectangles in row-major order, each at `((i%n)*(w//n), (i//n)*(h//m))`, with the last column and row taking the rest |
| `SlideTiler.SeedIndex` | dogsled/normaliser.py:362-366 | the seed is `max(keys) // 2`, i.e. `(N-1)//2`, which needs at least one tile; an explicit first tile must be a key |
| `SlideTiler.MoveToFrontOfRange` | dogsled/normaliser.py:358-366 | `move_to_end(seed, last=False)` puts the seed first and keeps every other index in order |
| `SlideTiler.QueueIsPermutation` | dogsled/normaliser.py:358-366 | the queue is a permutation of `0..N-1` |
| `SlideTiler.CoordinatesDict` | dogsled/normaliser.py:349-367 | the loop maps each index to its rectangle; the queue is the seed moved to the front; an empty list or an unknown first tile raises |
| `SlideTiler.Slicer` | dogsled/normaliser.py:371-379 | `slicer` succeeds exactly when every step does; the result is `rows_columns`, the grid and its queue |
| `SlideTiler.SlicerPlanHolds` | dogsled/normaliser.py:376-378 | the three steps of `slicer` together give its plan |
| `SlideTiler.SlicerFailsOnZeroCount` | dogsled/normaliser.py:376-377 | a grid of zero rows or columns makes `slicer` raise |
| `SlideTiler.SlicerFailsOnSeed` | dogsled/normaliser.py:362-366 | a grid with no valid seed makes `slicer` raise |
| `SlideTiler.SlicerSucceedsOnSeed` | dogsled/normaliser.py:362-366 | a grid with a valid seed makes `slicer` succeed |
| `SlideTiler.SlicerGrid` | dogsled/normaliser.py:376-377 | a slide gets tiles exactly when the side is positive and the slide is not empty; then they are the m*n grid |
| `SlideTiler.RowsColumnsOfSquareSlide` | dogsled/tests/test_normaliser.py:182-189 | `(2780, 2780, 900)` gives `(4, 4)` |
| `SlideTiler.FirstTileOfFourByThreeGrid` | dogsled/tests/test_normaliser.py:192-198 | the first rectangle of `slice_points(3451, 7463, (4, 3))` is `((0, 0), (1150, 1865))` |
| `SlideTiler.TileSideCanExceedMaxSide` | dogsled/normaliser.py:316-334 | `slicer((3451, 7463), 1500)` gives `(3, 5)` and a first tile of 690 x 2487: a tile side can exceed the maximum |
| `SlideTiler.ThumbnailSize` | dogsled/normaliser.py:532-538 | `thumbnail_size` divides by zero exactly for a 0 x 0 slide |
| `SlideTiler.ThumbnailIsProportional` | dogsled/normaliser.py:537-538 | each side is the original side scaled by `max_side / longer`, truncated |
| `SlideTiler.ThumbnailLongerSideIsMaxSide` | dogsled/normaliser.py:537-538 | the longer side becomes exactly the maximum, and the other side is at most the maximum |
| `SlideTiler.ThumbnailSizeIsSymmetric` | dogsled/normaliser.py:537-538 | swapping width and height swaps the thumbnail's sides |
| `SlideTiler.ThumbnailOfWideSlide` | dogsled/tests/test_normaliser.py:212-220 | `(577392, 464930)` gives `(6000, 4831)`, and the swapped input the swapped output |
| `PathLib.DecimalIsInjective` | dogsled/normaliser.py:438-439 | `str(i)` of distinct tile numbers are distinct strings |
| `Stitching.TileNamesAreDistinct` | dogsled/normaliser.py:438-439 | `f"{i}_{stain}.jpeg"` names are equal only for the same tile and stain |
| `Stitching.TilePathsAreDistinct` | dogsled/normaliser.py:438-439 | distinct tiles or stains have distinct temporary files |
| `Stitching.SavedTileIsReadBack` | dogsled/normaliser.py:751-753 | the file `slice_normalisation` saves for tile i is the one the stitchers read for tile i |
| `Stitching.ConcatColumns` | dogsled/normaliser.py:443 | `np.concatenate(row, axis=1)` succeeds exactly for a non-empty row of equal heights |
| `Stitching.ConcatRows` | dogsled/normaliser.py:445 | `np.concatenate(rows, axis=0)` succeeds exactly for a non-empty list of equal widths |
| `Stitching.Stitcher` | dogsled/normaliser.py:425-449 | the numpy stitcher writes the assembled image at `{stain}_{stem}` with `.jpeg` when every step succeeds; otherwise it reports the first failure and writes nothing |
| `Stitching.ReadStitchRow` | dogsled/normaliser.py:437-442 | the inner loop reads tiles `start .. start+n-1` and advances the counter by n |
| `Stitching.NextRowStart` | dogsled/normaliser.py:433-442 | the counter starts row r+1 n tiles after row r, at `r * n` |
| `Stitching.StitchFailsInRow` | dogsled/normaliser.py:438-440 | a missing tile makes the whole stitch fail with that tile's error |
| `Stitching.StitchFailsAtRow` | dogsled/normaliser.py:443 | a row whose tiles do not concatenate makes the stitch fail |
| `Stitching.AssembleStops` | dogsled/normaliser.py:435-445 | rows that fail make the slide fail with their error |
| `Stitching.AssembleIs` | dogsled/normaliser.py:445 | with every row stitched, the slide is their vertical concatenation |
| `Stitching.GridRowReads` | dogsled/normaliser.py:436-442 | with grid-sized tiles saved, the first k tiles of a row are read and their widths add up to the first k column widths |
| `Stitching.GridRowStitches` | dogsled/normaliser.py:436-443 | each stitched row has its row's height and the slide's width |
| `Stitching.GridRowConcat` | dogsled/normaliser.py:443 | a row's tiles concatenate into the row image |
| `Stitching.GridRowsStitch` | dogsled/normaliser.py:435-444 | the first k rows stitch, and their heights add up to the first k row heights |
| `Stitching.StitchedGrid` | dogsled/normaliser.py:432-445 | tiles of the `slice_points` sizes assemble into an h x w image whose rows are in order |
| `Stitching.TileReturnsToItsPlace` | dogsled/normaliser.py:433-445 | tile `r*n + c` lands at the location `slice_points` cut it from |
| `Stitching.TileLeftEdge` | dogsled/normaliser.py:436-443 | the tiles before column c of a row are as wide as the start of column c |
| `Stitching.TileTopEdge` | dogsled/normaliser.py:435-445 | the rows before row r are as high as the start of row r |
| `Stitching.ArrayJoinCell` | dogsled/normaliser.py:501-502 | `arrayjoin(across)` places image k at row `k // across`, column `k % across` |
| `Stitching.VipsLayoutMatchesStitcher` | dogsled/normaliser.py:497-502 | with `across = mn[1]`, vips places tile `r*n + c` where the numpy stitcher does |
| `Stitching.ReadTiles` | dogsled/normaliser.py:497-500 | reading tiles `0..count-1` succeeds exactly when each one is readable, and keeps their order |
| `Stitching.VipsJoinsGridTiles` | dogsled/normaliser.py:497-502 | with grid tiles saved, vips reads all m*n tiles and puts each in its grid cell |
| `Stitching.VipsStitcher` | dogsled/normaliser.py:493-524 | the vips stitcher writes the tiled tif at `{stain}_{stem}.tif` when every tile reads; otherwise it reports the first failure and writes nothing |
| `Stitching.StitchedOutput` | dogsled/normaliser.py:404-412 | `jpeg_stitcher` writes a tif with vips and a jpeg with numpy |
| `Normaliser.RestoredTile` | dogsled/normaliser.py:741-745 | a restored tile image has the tile's size |
| `Normaliser.StainNamesHaveNoDot` | dogsled/defaults.py:13-17 | no stain name contains a dot |
| `Normaliser.TileBase` | dogsled/normaliser.py:747-758 | the path `slice_normalisation` saves to lies in the output folder |
| `Normaliser.TileSavesOf` | dogsled/normaliser.py:740-758 | one save per configured stain |
| `Normaliser.TileSavesAt` | dogsled/normaliser.py:740-758 | the k-th save is stain k's restored image, at `{i}_{stain}` (or, for a single tile, at `{stain}_{stem}`) with `.jpeg` |
| `Normaliser.SaveStains` | dogsled/normaliser.py:740-758 | the stain loop succeeds exactly when there is no stain or the folder exists; then all saves are made in order; otherwise nothing changes |
| `Normaliser.SaveTilesNext` | dogsled/normaliser.py:701-705 | one more step of the tile loop saves that tile's images after the earlier ones |
| `Normaliser.SaveTilesIsSlideSaves` | dogsled/normaliser.py:701-705 | after k steps the tile loop has made exactly the saves of the first k queued tiles |
| `Normaliser.PlanFitsSlide` | dogsled/normaliser.py:358-379 | the queue lists each index `0..m*n-1` once, and each has a rectangle of non-negative size |
| `Normaliser.PlanIsQueued` | dogsled/normaliser.py:358-379 | the queue of a successful `slicer` is never empty |
| `Normaliser.SavedTilesFillTheGrid` | dogsled/normaliser.py:701-705 | after the tile loop, each grid tile's file holds an image of its rectangle's size |
| `Normaliser.SlideSavesHoldTile` | dogsled/normaliser.py:751-753 | after the tile loop, the file of tile i and a stain holds that tile's restored image |
| `Normaliser.StitchedSlideKeepsItsSize` | dogsled/normaliser.py:701-709 | the numpy stitcher rebuilds an image of the slide's own width and height from the saved tiles |
| `Normaliser.VipsFindsEveryTile` | dogsled/normaliser.py:497-500 | the vips stitcher finds all `len(tile_map)` = m*n tiles |
| `Normaliser.UnlinkAllRemovesThem` | dogsled/normaliser.py:671-673 | unlinking present, distinct files removes exactly them |
| `Normaliser.UnlinkAllFailsOnAMissingFile` | dogsled/normaliser.py:671-673 | the unlink loop fails exactly when some file is missing |
| `Normaliser.UnlinkAllKeepsOthers` | dogsled/normaliser.py:671-673 | every other path is left as it was |
| `Normaliser.UnlinkAllStops` | dogsled/normaliser.py:671-673 | after a failing unlink the loop does nothing more |
| `Normaliser.Clean` | dogsled/normaliser.py:660-676 | `cleaner` raises `CleaningError`, and changes nothing, exactly when no finished slide is present; with a finished slide and every tile present it unlinks the tiles in order; with a finished slide and a tile missing it does nothing and raises nothing |
| `Normaliser.CleanStain` | dogsled/normaliser.py:660-676 | the cleaner's loop does what `Clean` states: the same files and the same outcome |
| `Normaliser.CleanRemovesTiles` | dogsled/normaliser.py:669-673 | finished slide present and all tiles present: exactly the tiles are deleted |
| `Normaliser.CleanKeepsOthers` | dogsled/normaliser.py:669-673 | the cleaner touches nothing but the tiles |
| `Normaliser.CleanIsIdempotent` | dogsled/normaliser.py:660-676 | cleaning again after a successful clean changes nothing |
| `Normaliser.TilePaths` | dogsled/normaliser.py:670 | the N temporary tile paths of a stain, in index order |
| `Normaliser.TilePathsAreDistinctPaths` | dogsled/normaliser.py:670-673 | no tile path appears twice |
| `Normaliser.FinishedPaths` | dogsled/normaliser.py:519-521 | the finished slide is looked for where the numpy and vips stitchers write it |
| `Normaliser.FinishedPathsAgreeWithoutDots` | dogsled/normaliser.py:666-669 | when neither stain nor stem has a dot, the lookup as written equals the corrected one |
| `Normaliser.DottedNameStem` | dogsled/normaliser.py:666-667 | `with_suffix` treats the stem's last dotted part as a suffix: `he_a.b` has the stem `he_a` |
| `Normaliser.DottedStemFinishedPaths` | dogsled/normaliser.py:666-669 | for the slide `a.b.svs` the cleaner as written looks for `he_a.jpeg` and `he_a.tif` |
| `Normaliser.DottedStemTifPath` | dogsled/normaliser.py:519-520 | for the slide `a.b.svs` the vips stitcher writes `he_a.b.tif` |
| `Normaliser.DottedStemTifIsMissed` | dogsled/normaliser.py:666-676 | as written, the cleaner raises `CleaningError` although that tif exists; the corrected lookup finds it |
| `Normaliser.CleanerFindsStitchedOutput` | dogsled/normaliser.py:669 | once either stitcher has written its output, the corrected cleaner never raises `CleaningError` |
| `Normaliser.StitchedOutputCases` | dogsled/normaliser.py:404-412 | each stitcher's result, in terms of the tiles read or the assembled image |
| `Normaliser.NumpyStitchIsOutput` | dogsled/normaliser.py:409-412 | what the numpy stitcher leaves is the stitched output written |
| `Normaliser.VipsStitchIsOutput` | dogsled/normaliser.py:409-410 | what the vips stitcher leaves is the stitched output written |
| `Normaliser.JpegStitch` | dogsled/normaliser.py:404-412 | `jpeg_stitcher` dispatches on `vips_stitcher` and writes that output |
| `Normaliser.RunStepsStops` | dogsled/normaliser.py:708-711 | the first error stops the loop over stain types, and later stains change nothing |
| `Normaliser.RunStepsWrites` | dogsled/normaliser.py:708-711 | a loop whose steps keep files and write their output leaves every output present |
| `Normaliser.StitchStepWithoutRemoval` | dogsled/normaliser.py:709-710 | without removal, a stain's step keeps every file and, on success, writes its stitched slide |
| `Normaliser.StitchAllWithoutRemoval` | dogsled/normaliser.py:655-656 | stitching every stain without removal keeps every file and writes every stain's slide |
| `Normaliser.StitchLoop` | dogsled/normaliser.py:708-711 | the loop over stain types leaves what `StitchAll` states |
| `Normaliser.StitchStain` | dogsled/normaliser.py:709-711 | one stain: `jpeg_stitcher`, then `cleaner` only when removal is on |
| `Normaliser.NormaliseSlides.constructor` | dogsled/normaliser.py:547-603 | the object starts with the given settings and with `he` and `tmp` unset |
| `Normaliser.NormaliseSlides.OutputBase` | dogsled/normaliser.py:747-758 | the save path lies in the temporary subfolder, or in `norm_path` for a single tile |
| `Normaliser.NormaliseSlides.Calibrate` | dogsled/normaliser.py:722-735 | the first run sets `he` and `tmp` from its own sector; a later run keeps them and fails if either is unset |
| `Normaliser.NormaliseSlides.SliceNormalisation` | dogsled/normaliser.py:714-763 | `slice_normalisation`: calibration as in `Calibrate`, then the saves of every stain with the stored `he` and `tmp` |
| `Normaliser.NormaliseSlides.SlidePreProcessing` | dogsled/normaliser.py:632-642 | reads the slide's size and sets `wh`, `mn` and `tile_map` from `slicer`; a failure leaves `mn` and `tile_map` as they were |
| `Normaliser.NormaliseSlides.NormaliseTiles` | dogsled/normaliser.py:700-705 | only the first queued tile calibrates: afterwards `he` and `tmp` are the seed tile's, and every tile's images are saved in queue order |
| `Normaliser.NormaliseSlides.NormaliseLaterTiles` | dogsled/normaliser.py:701-705 | the tiles after the first reuse `he` and `tmp` unchanged, and their saves follow in queue order |
| `Normaliser.NormaliseSlides.NormaliseLaterTile` | dogsled/normaliser.py:701-705 | one later tile: its saves follow the earlier ones; `he` and `tmp` are unchanged |
| `Normaliser.NormaliseSlides.JpegStitcher` | dogsled/normaliser.py:404-412 | `jpeg_stitcher` for the current slide |
| `Normaliser.NormaliseSlides.Cleaner` | dogsled/normaliser.py:659-676 | `cleaner` for the current slide, over its `len(tile_map)` tiles |
| `Normaliser.NormaliseSlides.StitchStains` | dogsled/normaliser.py:707-711 | the stitching loop for the current slide |
| `Normaliser.NormaliseSlides.ProcessSlide` | dogsled/normaliser.py:678-711 | `process_slide`: an unreadable slide, or one `slicer` cannot cut, fails and changes no file, folder, `he` or `tmp`; otherwise the plan is `slicer`'s and every outcome, failures included, is as `ProcessTiles` states; on success `he`/`tmp` come from the seed tile |
| `Normaliser.NormaliseSlides.ProcessTiles` | dogsled/normaliser.py:689-711 | one tile is saved straight to `norm_path`, failing with nothing written when that folder is missing; for a grid, a refused `create_path` of `temp_path/stem` fails and changes nothing; otherwise the tiles are saved there and every stain is stitched (and cleaned if `remove_temporary_files is True`), the first failing stain giving the error and the files as they are then |
| `Normaliser.NormaliseSlides.NormaliseTileGrid` | dogsled/normaliser.py:693-711 | a grid of several tiles: a refused `create_path` fails and changes nothing; otherwise the subfolder is created, all tiles are saved there, then every stain is stitched, the result being that of the stitching loop |
| `Normaliser.NormaliseSlides.NormaliseIntoTempFolder` | dogsled/normaliser.py:693-705 | fails, changing no file, folder, `he` or `tmp`, exactly when `create_path(temp_path/stem, rewrite)` raises (an existing folder without `rewrite`, or a missing parent), with that error; otherwise creates the folder and saves every tile there |
| `Normaliser.NormaliseSlides.RepeatStitching` | dogsled/normaliser.py:644-657 | `repeat_stitching` raises for several slides, re-slices the one slide, and stitches every given stain without cleaning, so every stitched slide is present afterwards |
| `UserInput.OutOfRange` | dogsled/user_input.py:117-118 | exactly the indexes above `len(slide_names) - 1` |
| `UserInput.CheckIndexRange` | dogsled/user_input.py:111-119 | `max` of no indexes raises; a report exists exactly when some index exceeds the last position, and it lists exactly those indexes |
| `UserInput.CheckIndexes` | dogsled/user_input.py:91-109 | no indexes give the empty set; an index above the range raises `UserInputError` listing the out-of-range ones; otherwise the result is the set of the indexes |
| `UserInput.NegativeIndexesPass` | dogsled/user_input.py:116 | only the upper bound is checked: negative indexes pass |
| `UserInput.AcceptedIndexesAreBelowCount` | dogsled/user_input.py:102-109 | every accepted index is below the number of slides |
| `UserInput.NamesToCheck` | dogsled/user_input.py:130-134 | no names (or an empty string) check nothing; a single string is wrapped in a list |
| `UserInput.AppendedSuffixMatches` | dogsled/user_input.py:138-139 | a name with `.svs` appended matches `re.search('.svs')` |
| `UserInput.CompleteName` | dogsled/user_input.py:138-139 | `.svs` is appended exactly when the pattern, whose dot matches any character, is not found |
| `UserInput.CompleteNameIsIdempotent` | dogsled/user_input.py:138-139 | completing a completed name changes nothing |
| `UserInput.DotMatchesAnyCharacter` | dogsled/user_input.py:138 | `slide_svs` is kept as is, while `slide` becomes `slide.svs` |
| `UserInput.FirstIndex` | dogsled/user_input.py:141 | `list.index` gives the first occurrence |
| `UserInput.NameIndexes` | dogsled/user_input.py:136-148 | the name check succeeds exactly when every completed name is a slide name |
| `UserInput.NameIndexesAreFirstOccurrences` | dogsled/user_input.py:136-148 | on success, the result is exactly the first positions of the completed names |
| `UserInput.NameIndexesReportsFirstUnknown` | dogsled/user_input.py:140-147 | on failure, the name reported is the first unknown one |
| `UserInput.NameIndexesKnown` | dogsled/user_input.py:140-141 | a known name adds its first position |
| `UserInput.FirstUnknownIsReported` | dogsled/user_input.py:142-147 | an unknown name raises `UserInputError` naming it, whatever follows |
| `UserInput.CheckNames` | dogsled/user_input.py:121-148 | the `check_names` loop computes `NameIndexes` of the names to check |
| `UserInput.NamingEverySlide` | dogsled/tests/test_user_input.py:14-18 | naming every slide selects every index |
| `UserInput.Controller` | dogsled/user_input.py:150-162 | the index error comes first, then the name error; otherwise the union of both sets, which is within range and holds every given index |
| `UserInput.PathsCheck` | dogsled/user_input.py:196-234 | on success `norm_path` exists and is kept, and the temporary folder can be created |
| `UserInput.SystemPathsOf` | dogsled/user_input.py:196-234 | `system_paths` returns what `PathsCheck` states, and creates only the temporary folder |
| `UserInput.NoSourceIsRejected` | dogsled/user_input.py:209-215 | neither a slide folder nor a project raises `UserInputError` |
| `UserInput.QuPathProjectTakesPriority` | dogsled/user_input.py:219-222 | the project is the source even when a slide folder is given too |
| `UserInput.DefaultTemporaryFolder` | dogsled/user_input.py:226-230 | the temporary path defaults to `norm_path/temporary_folder_name` |
| `UserInput.GivenTemporaryPathNeedsRewrite` | dogsled/user_input.py:226-231 | a given temporary path must exist, so creating it without `rewrite` raises |
| `UserInput.SvsSlideNames` | dogsled/user_input.py:262-264 | the listing keeps exactly the `.svs` files whose names do not start with a dot |
| `UserInput.GetSlideNames` | dogsled/user_input.py:250-266 | project image names for a project, otherwise the folder's SVS names |
| `UserInput.PyIndex` | dogsled/user_input.py:295-296 | Python list indexing, negative indexes counting from the end, `IndexError` outside |
| `UserInput.SelectedFiles` | dogsled/user_input.py:294-296 | the selected slides' paths, in selection order; an index outside the list raises |
| `UserInput.SlidesToProcess` | dogsled/user_input.py:289-306 | with a selection, only the selected slides; otherwise all slides, as folder paths or project images |
| `UserInput.UserSlideInput.constructor` | dogsled/user_input.py:279-280 | the record keeps the given names and indexes and starts with nothing to process |
| `UserInput.ListOfSet` | dogsled/user_input.py:162 | `list(set)` lists each element once |
| `UserInput.SlidesToProcessOf` | dogsled/user_input.py:268-308 | `slides_to_process` fills the record with the checked indexes and their slides, or raises the first error |
| `UserInput.CheckedIndexesSelectListedSlides` | dogsled/user_input.py:294-296 | checked indexes select the listed slides' paths |

## Left out

- Pixel I/O and native calls are not modelled: OpenSlide/pyvips reading, JPEG
  and TIFF encoding, `arrayjoin`'s pixel layout, and the Aperio metadata string
  (dogsled/normaliser.py:504-517). Images are shapes with symbolic contents,
  and a file holds a `Raster` image or a `TiledTiff` of tiles.
- Floating-point numerics are uninterpreted terms: optical density, covariance
  and `eigh`, `arctan2`, percentiles, `lstsq`, the `tmp` division and the `exp`
  reconstruction. Only the discrete decisions around them are proved.
- Thumbnails are not modelled. This covers `thumbnail_from_np`,
  `thumbnail_from_image`, and the calls to them in `process_slide`, the
  stitchers and `slice_normalisation`; they only add thumbnail files.
  `thumbnail_size` is modelled.
- Logging is not modelled: `ProcessLogger`, the profiler, the log file handler
  in `NormaliseSlides.__init__`, and the messages of `check_resources`.
- `Normaliser.NormaliseSlides.constructor`: does not run `FileData` or
  `check_resources`. It takes the checked paths, the slide list and the tile
  side that `check_resources` sets (`Resources.ResourceChecker.TileSize`) as
  parameters. So it does not raise where `check_resources` does: `tile_size`
  on an empty RAM table, and `space` on an empty slide list (`max` of nothing,
  dogsled/resources.py:42). Both raises are modelled by
  `Resources.ResourceChecker.TileSize` and `Resources.Space`.
- `psutil` is not modelled. Available memory, free disk space and the file
  sizes from `stat()` are parameters.
- `start` is not modelled. It only runs `process_slide` for each slide in
  turn; `ProcessSlide` models one slide with `slidePath` set.
- Reading a QuPath project (paquo, `QuPathSlides`, `qupath_image_path`) is not
  modelled. Project image names are a parameter, and a project slide is
  referred to by its index.
- `list(set)` in `controller` has an unspecified order. `ListOfSet` promises
  each element once, in some order, and the model's results do not depend on
  the order.
- `SlideTiler.ThumbnailSize`: computes `int(max_side / max(w, h) * side)`
  exactly in rationals. Double rounding could differ by one pixel.
- `Resources.MappingEquation`: the float expression `-2.28 + 1.51 * x` is
  computed exactly in hundredths. Rounding of large floats is not modelled.
- `Defaults.Defaults.StainTypes`: states only one name per output type. The
  names and their order are stated by `Defaults.StainTypeNames`, which it
  returns.
- `Normaliser.NormaliseSlides.Cleaner`, `Normaliser.StitchStep`: look for the
  stitched slide where the stitchers write it (`Normaliser.FinishedPaths`), not
  as written. With vips and a dotted stem they succeed where the source raises
  `CleaningError`. See "Findings".

## Findings

| source | as written | input that shows it | evidently intended | confidence | as-written member | corrected member |
|---|---|---|---|---|---|---|
| dogsled/normaliser.py:281-282 | the image is cast to `uint8` before `img[img > 255] = 254`, so the clamp never fires and values above 255 wrap | a channel value of 300 comes out as 44 (`Normalisation.RestoreChannelWrapsAround`, `Normalisation.ClampAfterCastNeverFires`) | clamp first, then cast: values above 255 become 254 | not executed; numpy's out-of-range float cast is platform-dependent and commonly wraps modulo 256 | `Normalisation.RestoreChannelAsWritten` | `Normalisation.RestoreChannel` |
| dogsled/normaliser.py:666-669 | `cleaner` builds `{stain}_{stem}` and calls `with_suffix`, which drops a dotted stem's last part | slide `a.b.svs` with the vips stitcher: the tif is `he_a.b.tif`, the cleaner looks for `he_a.tif` and raises `CleaningError` (`Normaliser.DottedStemTifIsMissed`) | look for the files the stitchers write (dogsled/normaliser.py:519-521) | not executed | `Normaliser.FinishedPathsAsWritten` | `Normaliser.FinishedPaths` |
