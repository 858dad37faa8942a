/** SlideTiler: the tile grid of a slide (rows_columns, slice_points), the
    processing order of its tiles (coordinates_dict, slicer), the layout the
    two stitchers read the tiles back in, and the thumbnail size. */
module SlideTiler {
  import opened Wrappers
  import opened Errors

  // ---------------------------------------------------------------------
  // Integer helpers with Python's semantics

  /** Python's `a // b`: floor division, for any non-zero divisor. */
  function FloorDiv(a: int, b: int): (q: int)
    requires b != 0
    ensures b > 0 ==> q * b <= a < q * b + b
    ensures b < 0 ==> q * b + b < a <= q * b
  {
    if b > 0 then a / b else (-a) / (-b)
  }

  /** `c` is the ceiling of x / s. */
  ghost predicate IsCeiling(x: int, s: int, c: int) {
    (c - 1) * s < x <= c * s
  }

  // ---------------------------------------------------------------------
  // rows_columns

  /** `-(x // -s)` is the ceiling of x / s for a positive s. */
  lemma NegatedFloorIsCeiling(x: nat, s: int)
    requires s > 0
    ensures IsCeiling(x, s, -FloorDiv(x, -s))
    ensures -FloorDiv(x, -s) >= 1 <==> x >= 1
  {
    var q := FloorDiv(x, -s);
    var c := -q;
    assert q * -s == c * s;
    assert q * -s + -s == (c - 1) * s;
    if c <= 0 {
      MulMonotone(c, 0, s);
    } else {
      MulMonotone(0, c - 1, s);
    }
  }

  /** Number of rows and columns, `(-(w // -s), -(h // -s))`. As in the
      source, the row count comes from the WIDTH and the column count from
      the HEIGHT. */
  function RowsColumns(slideWidth: nat, slideHeight: nat, maxSide: int): (mn: (int, int))
    requires maxSide != 0
    ensures maxSide > 0 ==> IsCeiling(slideWidth, maxSide, mn.0) && IsCeiling(slideHeight, maxSide, mn.1)
    ensures maxSide > 0 ==> (mn.0 >= 1 <==> slideWidth >= 1) && (mn.1 >= 1 <==> slideHeight >= 1)
    ensures maxSide < 0 ==> mn.0 <= 0 && mn.1 <= 0
  {
    if maxSide > 0 then
      NegatedFloorIsCeiling(slideWidth, maxSide);
      NegatedFloorIsCeiling(slideHeight, maxSide);
      (-FloorDiv(slideWidth, -maxSide), -FloorDiv(slideHeight, -maxSide))
    else
      (-FloorDiv(slideWidth, -maxSide), -FloorDiv(slideHeight, -maxSide))
  }

  /** The ceiling is unique, so RowsColumns is exactly ceil(w/s), ceil(h/s). */
  lemma {:induction false} CeilingUnique(x: int, s: int, c: int, d: int)
    requires s > 0 && IsCeiling(x, s, c) && IsCeiling(x, s, d)
    ensures c == d
  {
    if c < d {
      MulMonotone(c, d - 1, s);
    } else if d < c {
      MulMonotone(d, c - 1, s);
    }
  }

  lemma MulMonotone(a: int, b: int, s: int)
    requires a <= b && s >= 0
    ensures a * s <= b * s
  {
  }

  // ---------------------------------------------------------------------
  // slice_points: one dimension of the grid

  /** Start of part k when `total` pixels are cut into `parts` parts of
      `total // parts` pixels, the last part taking the remainder. */
  function PartStart(total: nat, parts: int, k: int): int
    requires parts >= 1
  {
    k * (total / parts)
  }

  /** Length of part k: the base length, or the remainder for the last part. */
  function PartLength(total: nat, parts: int, k: int): int
    requires parts >= 1
  {
    if k == parts - 1 then total - k * (total / parts) else total / parts
  }

  /** Parts are non-empty-or-empty intervals inside [0, total), laid end to
      end: part k ends where part k + 1 starts, the last ends at `total`. */
  lemma PartsAreContiguous(total: nat, parts: int, k: int)
    requires parts >= 1 && 0 <= k < parts
    ensures PartStart(total, parts, 0) == 0
    ensures 0 <= PartStart(total, parts, k) && 0 <= PartLength(total, parts, k)
    ensures PartStart(total, parts, k) + PartLength(total, parts, k) <= total
    ensures k < parts - 1 ==> PartStart(total, parts, k) + PartLength(total, parts, k) == PartStart(total, parts, k + 1)
    ensures k == parts - 1 ==> PartStart(total, parts, k) + PartLength(total, parts, k) == total
    ensures k == parts - 1 ==> PartLength(total, parts, k) >= total / parts
  {
    var b := total / parts;
    assert total == parts * b + total % parts;
    MulMonotone(k, parts - 1, b);
    MulMonotone(k + 1, parts, b);
  }

  /** Parts k1 < k2 do not overlap: part k1 ends no later than part k2 starts. */
  lemma PartsAreOrdered(total: nat, parts: int, k1: int, k2: int)
    requires parts >= 1 && 0 <= k1 < k2 < parts
    ensures PartStart(total, parts, k1) + PartLength(total, parts, k1) <= PartStart(total, parts, k2)
  {
    MulMonotone(k1 + 1, k2, total / parts);
  }

  lemma DivBounds(p: int, b: int)
    requires p >= 0 && b > 0
    ensures 0 <= (p / b) * b <= p < (p / b) * b + b
  {
  }

  /** The part that contains pixel p. */
  function PartOf(total: nat, parts: int, p: int): (k: int)
    requires parts >= 1 && 0 <= p < total
    ensures 0 <= k < parts
    ensures PartStart(total, parts, k) <= p < PartStart(total, parts, k) + PartLength(total, parts, k)
  {
    var b := total / parts;
    PartsAreContiguous(total, parts, parts - 1);
    if b == 0 || p / b >= parts - 1 then
      PartOfLast(total, parts, p);
      parts - 1
    else
      DivBounds(p, b);
      p / b
  }

  lemma PartOfLast(total: nat, parts: int, p: int)
    requires parts >= 1 && 0 <= p < total
    requires total / parts == 0 || p / (total / parts) >= parts - 1
    ensures PartStart(total, parts, parts - 1) <= p
  {
    var b := total / parts;
    if b > 0 {
      DivBounds(p, b);
      MulMonotone(parts - 1, p / b, b);
    }
  }

  /** Sum of the lengths of the first k parts. */
  function LengthSum(total: nat, parts: int, k: nat): int
    requires parts >= 1
  {
    if k == 0 then 0 else LengthSum(total, parts, k - 1) + PartLength(total, parts, k - 1)
  }

  /** The lengths of all parts add up to the whole. */
  lemma {:induction false} LengthsSumToTotal(total: nat, parts: int, k: nat)
    requires parts >= 1 && k <= parts
    ensures k < parts ==> LengthSum(total, parts, k) == PartStart(total, parts, k)
    ensures k == parts ==> LengthSum(total, parts, k) == total
  {
    if k > 0 {
      LengthsSumToTotal(total, parts, k - 1);
      PartsAreContiguous(total, parts, k - 1);
    }
  }

  // ---------------------------------------------------------------------
  // slice_points: the grid

  datatype Point = Point(x: int, y: int)
  datatype Size = Size(width: int, height: int)
  /** A tile: top-left location and size, `((x, y), (width, height))`. */
  datatype Rect = Rect(location: Point, size: Size)

  /** Row-major decomposition of a tile index. */
  lemma RowMajor(row: int, col: int, n: int)
    requires n >= 1 && 0 <= col < n && row >= 0
    ensures (row * n + col) / n == row && (row * n + col) % n == col
  {
    var i := row * n + col;
    var q, r := i / n, i % n;
    assert q * n + r == row * n + col;
    if q > row {
      MulMonotone(row + 1, q, n);
    } else if q < row {
      MulMonotone(q + 1, row, n);
    }
  }

  lemma RowMajorBound(row: int, col: int, m: int, n: int)
    requires n >= 1 && 0 <= col < n && 0 <= row < m
    ensures 0 <= row * n + col < m * n
  {
    MulMonotone(row + 1, m, n);
  }

  /** Tile i of a grid of m rows and n columns over a w x h slide: column
      `i % n`, row `i / n`; widths come from cutting w into n columns and
      heights from cutting h into m rows. */
  function RectAt(w: nat, h: nat, m: int, n: int, i: int): Rect
    requires m >= 1 && n >= 1
  {
    var row, col := i / n, i % n;
    Rect(Point(PartStart(w, n, col), PartStart(h, m, row)),
         Size(PartLength(w, n, col), PartLength(h, m, row)))
  }

  ghost predicate Covers(r: Rect, px: int, py: int) {
    r.location.x <= px < r.location.x + r.size.width &&
    r.location.y <= py < r.location.y + r.size.height
  }

  /** Every tile lies inside the slide and has a non-negative size. */
  lemma {:induction false} TileInsideSlide(w: nat, h: nat, m: int, n: int, i: int)
    requires m >= 1 && n >= 1 && 0 <= i < m * n
    ensures var r := RectAt(w, h, m, n, i);
      0 <= r.location.x && 0 <= r.size.width && r.location.x + r.size.width <= w &&
      0 <= r.location.y && 0 <= r.size.height && r.location.y + r.size.height <= h
  {
    RowOfIndex(m, n, i);
    PartsAreContiguous(w, n, i % n);
    PartsAreContiguous(h, m, i / n);
  }

  lemma RowOfIndex(m: int, n: int, i: int)
    requires m >= 1 && n >= 1 && 0 <= i < m * n
    ensures 0 <= i / n < m && 0 <= i % n < n && i == (i / n) * n + i % n
  {
    if i / n >= m {
      MulMonotone(m, i / n, n);
    }
  }

  /** The tile holding pixel (px, py). */
  function TileAt(w: nat, h: nat, m: int, n: int, px: int, py: int): (i: int)
    requires m >= 1 && n >= 1 && 0 <= px < w && 0 <= py < h
    ensures 0 <= i < m * n && Covers(RectAt(w, h, m, n, i), px, py)
  {
    var row, col := PartOf(h, m, py), PartOf(w, n, px);
    RowMajor(row, col, n);
    RowMajorBound(row, col, m, n);
    row * n + col
  }

  /** Exact coverage: every pixel of the slide lies in exactly one tile. */
  lemma {:induction false} TilesPartitionSlide(w: nat, h: nat, m: int, n: int, px: int, py: int, j: int)
    requires m >= 1 && n >= 1 && 0 <= px < w && 0 <= py < h
    requires 0 <= j < m * n && Covers(RectAt(w, h, m, n, j), px, py)
    ensures j == TileAt(w, h, m, n, px, py)
  {
    var i := TileAt(w, h, m, n, px, py);
    RowOfIndex(m, n, i);
    RowOfIndex(m, n, j);
    var ci, cj := i % n, j % n;
    var ri, rj := i / n, j / n;
    if ci < cj {
      PartsAreOrdered(w, n, ci, cj);
    } else if cj < ci {
      PartsAreOrdered(w, n, cj, ci);
    } else if ri < rj {
      PartsAreOrdered(h, m, ri, rj);
    } else if rj < ri {
      PartsAreOrdered(h, m, rj, ri);
    }
  }

  /** The widths of the tiles of any row add up to the slide width. */
  function RowWidthSum(w: nat, h: nat, m: int, n: int, row: int, k: nat): int
    requires m >= 1 && n >= 1
  {
    if k == 0 then 0 else RowWidthSum(w, h, m, n, row, k - 1) + RectAt(w, h, m, n, row * n + k - 1).size.width
  }

  /** The heights of the tiles of any column add up to the slide height. */
  function ColumnHeightSum(w: nat, h: nat, m: int, n: int, col: int, k: nat): int
    requires m >= 1 && n >= 1
  {
    if k == 0 then 0 else ColumnHeightSum(w, h, m, n, col, k - 1) + RectAt(w, h, m, n, (k - 1) * n + col).size.height
  }

  lemma {:induction false} RowWidthsArePartLengths(w: nat, h: nat, m: int, n: int, row: int, k: nat)
    requires m >= 1 && n >= 1 && 0 <= row < m && k <= n
    ensures RowWidthSum(w, h, m, n, row, k) == LengthSum(w, n, k)
  {
    if k > 0 {
      RowWidthsArePartLengths(w, h, m, n, row, k - 1);
      RowMajor(row, k - 1, n);
    }
  }

  lemma RowWidthsSumToWidth(w: nat, h: nat, m: int, n: int, row: int)
    requires m >= 1 && n >= 1 && 0 <= row < m
    ensures RowWidthSum(w, h, m, n, row, n) == w
  {
    RowWidthsArePartLengths(w, h, m, n, row, n);
    LengthsSumToTotal(w, n, n);
  }

  lemma {:induction false} ColumnHeightsArePartLengths(w: nat, h: nat, m: int, n: int, col: int, k: nat)
    requires m >= 1 && n >= 1 && 0 <= col < n && k <= m
    ensures ColumnHeightSum(w, h, m, n, col, k) == LengthSum(h, m, k)
  {
    if k > 0 {
      ColumnHeightsArePartLengths(w, h, m, n, col, k - 1);
      RowMajor(k - 1, col, n);
    }
  }

  lemma ColumnHeightsSumToHeight(w: nat, h: nat, m: int, n: int, col: int)
    requires m >= 1 && n >= 1 && 0 <= col < n
    ensures ColumnHeightSum(w, h, m, n, col, m) == h
  {
    ColumnHeightsArePartLengths(w, h, m, n, col, m);
    LengthsSumToTotal(h, m, m);
  }

  /** The rectangles of a grid of m rows and n columns, row-major:
      `slice_points(w, h, (m, n))`. */
  ghost predicate IsGrid(w: nat, h: nat, m: int, n: int, points: seq<Rect>)
    requires m >= 1 && n >= 1
  {
    |points| == m * n && forall i :: 0 <= i < m * n ==> points[i] == RectAt(w, h, m, n, i)
  }

  /** slice_points: appends the tiles row by row, column by column. A zero
      row or column count divides by zero; a negative one gives no tiles. */
  method SlicePoints(w: nat, h: nat, m: int, n: int) returns (r: Result<seq<Rect>, Error>)
    ensures r.Err? <==> m == 0 || n == 0
    ensures r.Err? ==> r.error == ZeroDivisionError
    ensures r.Ok? && (m < 0 || n < 0) ==> r.value == []
    ensures r.Ok? && m >= 1 && n >= 1 ==> IsGrid(w, h, m, n, r.value)
  {
    if n == 0 || m == 0 {
      return Err(ZeroDivisionError);
    }
    if m < 0 || n < 0 {
      // `range` over a negative count is empty: nothing is appended
      return Ok([]);
    }
    var columnWidth := w / n;
    var rowHeight := h / m;
    var points: seq<Rect> := [];
    var row := 0;
    while row < m
      invariant 0 <= row <= m
      invariant |points| == row * n
      invariant forall i :: 0 <= i < |points| ==> points[i] == RectAt(w, h, m, n, i)
    {
      var col := 0;
      while col < n
        invariant 0 <= col <= n
        invariant |points| == row * n + col
        invariant forall i :: 0 <= i < |points| ==> points[i] == RectAt(w, h, m, n, i)
      {
        var location := Point(col * columnWidth, row * rowHeight);
        var width, height := columnWidth, rowHeight;
        if col == n - 1 {  // the last column takes the rest of the width
          width := w - col * columnWidth;
        }
        if row == m - 1 {  // the last row takes the rest of the height
          height := h - row * rowHeight;
        }
        RowMajor(row, col, n);
        assert Rect(location, Size(width, height)) == RectAt(w, h, m, n, row * n + col);
        points := points + [Rect(location, Size(width, height))];
        col := col + 1;
      }
      assert row * n + n == (row + 1) * n;
      row := row + 1;
    }
    return Ok(points);
  }

  // ---------------------------------------------------------------------
  // coordinates_dict: the processing queue

  /** DEFAULTS.first_tile: "middle", or an explicit tile index. */
  datatype FirstTile = Middle | Tile(index: int)

  /** The tile map: the OrderedDict's key order and its key -> rect entries. */
  datatype TileMap = TileMap(order: seq<int>, rects: map<int, Rect>)

  /** The seed tile of a grid of `count` tiles. "middle" takes
      `max(keys) // 2`, which fails on an empty map; an explicit index must
      be one of the keys, as `move_to_end` raises KeyError otherwise. */
  function SeedIndex(count: nat, firstTile: FirstTile): (r: Result<int, Error>)
    ensures r.Ok? ==> 0 <= r.value < count
    ensures r.Ok? <==> match firstTile
                       case Middle => count >= 1
                       case Tile(k) => 0 <= k < count
    ensures firstTile.Middle? && r.Ok? ==> r.value <= count - 1 - r.value <= r.value + 1
    ensures r.Err? ==> r.error == if firstTile.Middle? then EmptySequenceError else UnknownTileKey(firstTile.index)
  {
    match firstTile
    case Middle => if count == 0 then Err(EmptySequenceError) else Ok((count - 1) / 2)
    case Tile(k) => if 0 <= k < count then Ok(k) else Err(UnknownTileKey(k))
  }

  /** The keys 0 .. count-1 in order. */
  function Range(count: nat): (s: seq<int>)
    ensures |s| == count && forall i :: 0 <= i < count ==> s[i] == i
  {
    seq(count, i => i)
  }

  /** `key` without its occurrences, the other keys in order. */
  function Remove(keys: seq<int>, key: int): (r: seq<int>)
    ensures forall x :: x in r <==> x in keys && x != key
  {
    if keys == [] then []
    else if keys[0] == key then Remove(keys[1..], key)
    else [keys[0]] + Remove(keys[1..], key)
  }

  /** OrderedDict.move_to_end(key, last=False) on the key order. */
  function MoveToFront(keys: seq<int>, key: int): seq<int> {
    [key] + Remove(keys, key)
  }

  /** Moving a key of 0..count-1 to the front shifts the keys before it one
      place right and leaves the keys after it where they were. */
  lemma {:induction false} MoveToFrontOfRange(count: nat, seed: int)
    requires 0 <= seed < count
    ensures var q := MoveToFront(Range(count), seed);
      |q| == count && q[0] == seed &&
      (forall j :: 1 <= j <= seed ==> q[j] == j - 1) &&
      (forall j :: seed < j < count ==> q[j] == j)
  {
    assert Range(count) == seq(count - 0, i => 0 + i);
    RemoveFromRange(0, count, seed);
  }

  /** The keys lo .. hi-1 without `seed`. */
  lemma {:induction false} RemoveFromRange(lo: int, hi: int, seed: int)
    requires lo <= seed < hi
    ensures var r := Remove(seq(hi - lo, i => lo + i), seed);
      |r| == hi - lo - 1 &&
      (forall j :: 0 <= j < seed - lo ==> r[j] == lo + j) &&
      (forall j :: seed - lo <= j < hi - lo - 1 ==> r[j] == lo + j + 1)
    decreases hi - lo
  {
    var keys := seq(hi - lo, i => lo + i);
    if lo == seed {
      assert keys[1..] == seq(hi - lo - 1, i => lo + 1 + i);
      RemoveAbsent(keys[1..], seed);
    } else {
      assert keys[1..] == seq(hi - (lo + 1), i => lo + 1 + i);
      RemoveFromRange(lo + 1, hi, seed);
    }
  }

  lemma {:induction false} RemoveAbsent(keys: seq<int>, key: int)
    requires key !in keys
    ensures Remove(keys, key) == keys
  {
    if keys != [] {
      RemoveAbsent(keys[1..], key);
      assert [keys[0]] + keys[1..] == keys;
    }
  }

  /** The queue is a permutation of the tile indices: every index appears
      exactly once. */
  lemma QueueIsPermutation(count: nat, seed: int)
    requires 0 <= seed < count
    ensures var q := MoveToFront(Range(count), seed);
      multiset(q) == multiset(Range(count)) &&
      forall x :: x in q <==> 0 <= x < count
  {
    var q := MoveToFront(Range(count), seed);
    MoveToFrontOfRange(count, seed);
    var shifted := seq(count, j => if j == 0 then seed else if j <= seed then j - 1 else j);
    assert q == shifted;
    PermutationByShift(count, seed);
    forall x ensures x in q <==> 0 <= x < count {
      assert x in q <==> x in multiset(q);
      assert x in Range(count) <==> x in multiset(Range(count));
      if 0 <= x < count {
        assert Range(count)[x] == x;
      }
    }
  }

  lemma {:induction false} PermutationByShift(count: nat, seed: int)
    requires 0 <= seed < count
    ensures multiset(seq(count, j => if j == 0 then seed else if j <= seed then j - 1 else j)) == multiset(Range(count))
  {
    // the first seed + 1 entries rotate 0..seed, the rest are unchanged
    var q := seq(count, j => if j == 0 then seed else if j <= seed then j - 1 else j);
    var front, back := q[..seed + 1], q[seed + 1..];
    assert q == front + back;
    assert Range(count) == Range(seed + 1) + back by {
      assert forall j :: 0 <= j < count - seed - 1 ==> back[j] == seed + 1 + j;
    }
    assert front == [seed] + Range(seed);
    assert Range(seed + 1) == Range(seed) + [seed];
    assert multiset(front) == multiset(Range(seed + 1));
  }

  /** coordinates_dict: enumerate the tiles into an ordered map, then move
      the seed tile to the front of the queue. */
  method CoordinatesDict(points: seq<Rect>, firstTile: FirstTile) returns (r: Result<TileMap, Error>)
    ensures r.Err? <==> SeedIndex(|points|, firstTile).Err?
    ensures r.Err? ==> r.error == SeedIndex(|points|, firstTile).error
    ensures r.Ok? ==> var seed := SeedIndex(|points|, firstTile).value;
      r.value.order == MoveToFront(Range(|points|), seed) &&
      r.value.rects == map i | 0 <= i < |points| :: points[i]
  {
    var order: seq<int> := [];
    var rects: map<int, Rect> := map[];
    var i := 0;
    while i < |points|
      invariant 0 <= i <= |points|
      invariant order == Range(i)
      invariant rects == map j | 0 <= j < i :: points[j]
    {
      order := order + [i];
      rects := rects[i := points[i]];
      i := i + 1;
    }
    var seed :- SeedIndex(|points|, firstTile);
    order := MoveToFront(order, seed);
    return Ok(TileMap(order, rects));
  }

  /** The tile map entries of a grid: index -> rectangle. */
  function GridMap(w: nat, h: nat, m: int, n: int): map<int, Rect>
    requires m >= 1 && n >= 1
  {
    map i | 0 <= i < m * n :: RectAt(w, h, m, n, i)
  }

  /** When slicer succeeds: a positive tile side, a non-empty slide and a
      seed that exists in the grid. */
  ghost predicate SlicerSucceeds(w: nat, h: nat, maxSide: int, firstTile: FirstTile) {
    maxSide > 0 && w >= 1 && h >= 1 &&
    SeedIndex(RowsColumns(w, h, maxSide).0 * RowsColumns(w, h, maxSide).1, firstTile).Ok?
  }

  /** What slicer returns on success: m and n are the ceilings of the
      width and the height over max_side, the queue starts at the seed and
      then lists the other tile keys in order, and every key maps to its
      tile of the m x n grid. */
  ghost predicate IsSlicerPlan(w: nat, h: nat, maxSide: int, firstTile: FirstTile, m: int, n: int, tm: TileMap) {
    IsCeiling(w, maxSide, m) && IsCeiling(h, maxSide, n) && m >= 1 && n >= 1 &&
    SeedIndex(m * n, firstTile).Ok? &&
    tm.order == MoveToFront(Range(m * n), SeedIndex(m * n, firstTile).value) &&
    tm.rects == GridMap(w, h, m, n)
  }

  /** slicer: the grid shape and the tile map of a slide. */
  method Slicer(w: nat, h: nat, maxSide: int, firstTile: FirstTile) returns (r: Result<((int, int), TileMap), Error>)
    ensures r.Ok? <==> SlicerSucceeds(w, h, maxSide, firstTile)
    ensures r.Ok? ==> IsSlicerPlan(w, h, maxSide, firstTile, r.value.0.0, r.value.0.1, r.value.1)
  {
    if maxSide == 0 {
      return Err(ZeroDivisionError);
    }
    var mn := RowsColumns(w, h, maxSide);
    var pointsOrError := SlicePoints(w, h, mn.0, mn.1);
    if pointsOrError.Err? {
      SlicerFailsOnZeroCount(w, h, maxSide, firstTile);
      return Err(pointsOrError.error);
    }
    var points := pointsOrError.value;
    SlicerGrid(w, h, maxSide, points);
    var tileMapOrError := CoordinatesDict(points, firstTile);
    if tileMapOrError.Err? {
      SlicerFailsOnSeed(w, h, maxSide, firstTile, |points|);
      return Err(tileMapOrError.error);
    }
    SlicerSucceedsOnSeed(w, h, maxSide, firstTile, |points|);
    SlicerPlanHolds(w, h, maxSide, firstTile, points, tileMapOrError.value);
    return Ok((mn, tileMapOrError.value));
  }

  lemma SlicerPlanHolds(w: nat, h: nat, maxSide: int, firstTile: FirstTile, points: seq<Rect>, tm: TileMap)
    requires maxSide > 0 && |points| >= 1
    requires var mn := RowsColumns(w, h, maxSide);
      mn.0 >= 1 && mn.1 >= 1 && |points| == mn.0 * mn.1 &&
      (map i | 0 <= i < |points| :: points[i]) == GridMap(w, h, mn.0, mn.1)
    requires SeedIndex(|points|, firstTile).Ok?
    requires tm.order == MoveToFront(Range(|points|), SeedIndex(|points|, firstTile).value)
    requires tm.rects == map i | 0 <= i < |points| :: points[i]
    ensures var mn := RowsColumns(w, h, maxSide);
      IsSlicerPlan(w, h, maxSide, firstTile, mn.0, mn.1, tm)
  {
  }

  lemma SlicerFailsOnZeroCount(w: nat, h: nat, maxSide: int, firstTile: FirstTile)
    requires maxSide != 0
    requires RowsColumns(w, h, maxSide).0 == 0 || RowsColumns(w, h, maxSide).1 == 0
    ensures !SlicerSucceeds(w, h, maxSide, firstTile)
  {
  }

  lemma SlicerFailsOnSeed(w: nat, h: nat, maxSide: int, firstTile: FirstTile, count: nat)
    requires maxSide != 0
    requires count >= 1 ==> count == RowsColumns(w, h, maxSide).0 * RowsColumns(w, h, maxSide).1
    requires maxSide > 0 && w >= 1 && h >= 1 <==> count >= 1
    requires SeedIndex(count, firstTile).Err?
    ensures !SlicerSucceeds(w, h, maxSide, firstTile)
  {
  }

  lemma SlicerSucceedsOnSeed(w: nat, h: nat, maxSide: int, firstTile: FirstTile, count: nat)
    requires maxSide != 0
    requires count >= 1 ==> count == RowsColumns(w, h, maxSide).0 * RowsColumns(w, h, maxSide).1
    requires maxSide > 0 && w >= 1 && h >= 1 <==> count >= 1
    requires SeedIndex(count, firstTile).Ok?
    ensures count >= 1 && SlicerSucceeds(w, h, maxSide, firstTile)
  {
  }

  /** The tiles slice_points gives the slicer: a full grid when both
      counts are positive, none otherwise. */
  lemma SlicerGrid(w: nat, h: nat, maxSide: int, points: seq<Rect>)
    requires maxSide != 0
    requires var mn := RowsColumns(w, h, maxSide);
      mn.0 != 0 && mn.1 != 0 &&
      (mn.0 < 0 || mn.1 < 0 ==> points == []) &&
      (mn.0 >= 1 && mn.1 >= 1 ==> IsGrid(w, h, mn.0, mn.1, points))
    ensures var mn := RowsColumns(w, h, maxSide);
      (maxSide > 0 && w >= 1 && h >= 1 <==> |points| >= 1) &&
      (|points| >= 1 ==>
         mn.0 >= 1 && mn.1 >= 1 && |points| == mn.0 * mn.1 &&
         (map i | 0 <= i < |points| :: points[i]) == GridMap(w, h, mn.0, mn.1))
  {
    var mn := RowsColumns(w, h, maxSide);
    if mn.0 >= 1 && mn.1 >= 1 {
      MulMonotone(1, mn.0, mn.1);
    }
  }

  // ---------------------------------------------------------------------
  // Worked cases

  /** A 2780 x 2780 slide with tiles of at most 900 px needs 4 x 4 tiles. */
  lemma RowsColumnsOfSquareSlide()
    ensures RowsColumns(2780, 2780, 900) == (4, 4)
  {
  }

  /** The first tile of a 3451 x 7463 slide cut into 4 rows and 3 columns. */
  lemma FirstTileOfFourByThreeGrid()
    ensures RectAt(3451, 7463, 4, 3, 0) == Rect(Point(0, 0), Size(1150, 1865))
  {
  }

  /** rows_columns takes the row count from the width and the column count
      from the height, while slice_points cuts the width into columns and the
      height into rows; the tiles of a 3451 x 7463 slide at max_side 1500
      are therefore 690 x 2487, taller than max_side. */
  lemma TileSideCanExceedMaxSide()
    ensures RowsColumns(3451, 7463, 1500) == (3, 5)
    ensures RectAt(3451, 7463, 3, 5, 0).size == Size(690, 2487)
    ensures RectAt(3451, 7463, 3, 5, 0).size.height > 1500
  {
  }

  // ---------------------------------------------------------------------
  // thumbnail_size

  /** thumbnail_size: scale the slide so that its longer side becomes
      thumbnailMaxSide, truncating both products toward zero. */
  function ThumbnailSize(w: nat, h: nat, thumbnailMaxSide: nat): (r: Result<(int, int), Error>)
    ensures r.Err? <==> w == 0 && h == 0
    ensures r.Err? ==> r.error == ZeroDivisionError
  {
    var longer := if w >= h then w else h;
    if longer == 0 then Err(ZeroDivisionError)
    else Ok((thumbnailMaxSide * w / longer, thumbnailMaxSide * h / longer))
  }

  /** Each side of the thumbnail is the exact proportional size, truncated:
      `t * longer <= maxSide * side < (t + 1) * longer`. */
  lemma ThumbnailIsProportional(w: nat, h: nat, thumbnailMaxSide: nat)
    requires w + h > 0
    ensures var longer := if w >= h then w else h;
      var t := ThumbnailSize(w, h, thumbnailMaxSide).value;
      t.0 * longer <= thumbnailMaxSide * w < (t.0 + 1) * longer &&
      t.1 * longer <= thumbnailMaxSide * h < (t.1 + 1) * longer
  {
    var longer := if w >= h then w else h;
    var t := ThumbnailSize(w, h, thumbnailMaxSide).value;
    DivBounds(thumbnailMaxSide * w, longer);
    DivBounds(thumbnailMaxSide * h, longer);
    assert (t.0 + 1) * longer == t.0 * longer + longer;
    assert (t.1 + 1) * longer == t.1 * longer + longer;
  }

  /** The longer side becomes exactly thumbnailMaxSide and the shorter one
      at most that. */
  lemma ThumbnailLongerSideIsMaxSide(w: nat, h: nat, thumbnailMaxSide: nat)
    requires w + h > 0
    ensures var t := ThumbnailSize(w, h, thumbnailMaxSide).value;
      (w >= h ==> t.0 == thumbnailMaxSide && 0 <= t.1 <= thumbnailMaxSide) &&
      (h >= w ==> t.1 == thumbnailMaxSide && 0 <= t.0 <= thumbnailMaxSide)
  {
    var t := ThumbnailSize(w, h, thumbnailMaxSide).value;
    if w >= h {
      assert t == (thumbnailMaxSide * w / w, thumbnailMaxSide * h / w);
      LongerSideIsMaxSide(thumbnailMaxSide, w, h);
    }
    if h >= w {
      assert t == (thumbnailMaxSide * w / h, thumbnailMaxSide * h / h);
      LongerSideIsMaxSide(thumbnailMaxSide, h, w);
    }
  }

  /** The arithmetic of one side: scaling by maxSide / longer. */
  lemma LongerSideIsMaxSide(maxSide: nat, longer: nat, shorter: nat)
    requires shorter <= longer && longer > 0
    ensures maxSide * longer / longer == maxSide
    ensures 0 <= maxSide * shorter / longer <= maxSide
  {
    MulDivCancel(maxSide, longer);
    MulMonotone(shorter, longer, maxSide);
    assert maxSide * shorter <= maxSide * longer;
    DivIsMonotone(maxSide * shorter, maxSide * longer, longer);
  }

  lemma MulDivCancel(x: nat, d: int)
    requires d > 0
    ensures x * d / d == x
  {
    var q := x * d / d;
    DivBounds(x * d, d);
    if q < x {
      MulMonotone(q + 1, x, d);
    } else if q > x {
      MulMonotone(x + 1, q, d);
    }
  }

  lemma DivIsMonotone(a: nat, b: nat, d: int)
    requires a <= b && d > 0
    ensures a / d <= b / d
  {
    DivBounds(a, d);
    DivBounds(b, d);
    if a / d > b / d {
      MulMonotone(b / d + 1, a / d, d);
    }
  }

  /** Swapping width and height swaps the thumbnail's sides. */
  lemma ThumbnailSizeIsSymmetric(w: nat, h: nat, thumbnailMaxSide: nat)
    requires w + h > 0
    ensures var t := ThumbnailSize(w, h, thumbnailMaxSide).value;
      ThumbnailSize(h, w, thumbnailMaxSide) == Ok((t.1, t.0))
  {
  }

  /** A 577392 x 464930 slide gets a 6000 x 4831 thumbnail. */
  lemma ThumbnailOfWideSlide()
    ensures ThumbnailSize(577392, 464930, 6000) == Ok((6000, 4831))
    ensures ThumbnailSize(464930, 577392, 6000) == Ok((4831, 6000))
  {
  }
}
