/**
 * The playing grid as a value: 22 x 22 cells stored row-major (cell (r, c) at
 * index r * 22 + c), an occupancy flag and a colour string per cell. This
 * module states what placing a figure and clearing full lines do to such a
 * grid; the `Field` object in module Fields is proved to do exactly this to
 * its arrays.
 *
 * Both board shapes share one notion of a row's range: the columns that make
 * up a line. On the rectangular field it is columns 1..20 of every row; on
 * the bucket it is the row's own valid column range.
 */
module Board {
  import opened Figures

  const Width: int := 22
  const Height: int := 22
  const Cells: int := 484
  /** The empty colour of a free cell. */
  const Blank: string := ""
  /** The colour the rectangular field's constructor gives its walls. */
  const WallColor: string := " "
  /** What `getColor` reports for a coordinate off the grid. */
  const OffGridColor: string := "\U{1b}[37m"

  predicate InGrid(r: int, c: int) {
    0 <= r < Height && 0 <= c < Width
  }

  /** Position of cell (r, c) in the row-major vectors. */
  function Idx(r: int, c: int): int {
    r * Width + c
  }

  function RowOf(k: int): int {
    k / Width
  }

  function ColOf(k: int): int {
    k % Width
  }

  lemma IdxRoundTrip(r: int, c: int)
    requires InGrid(r, c)
    ensures 0 <= Idx(r, c) < Cells && RowOf(Idx(r, c)) == r && ColOf(Idx(r, c)) == c
  {
  }

  lemma RowColRoundTrip(k: int)
    requires 0 <= k < Cells
    ensures InGrid(RowOf(k), ColOf(k)) && Idx(RowOf(k), ColOf(k)) == k
  {
  }

  datatype Grid = Grid(occ: seq<bool>, color: seq<string>) {
    predicate WellFormed() {
      |occ| == Cells && |color| == Cells
    }
  }

  /** Two grids that agree on every cell are equal. */
  lemma GridExt(g: Grid, h: Grid)
    requires g.WellFormed() && h.WellFormed()
    requires forall r, c | InGrid(r, c) :: g.occ[Idx(r, c)] == h.occ[Idx(r, c)]
    requires forall r, c | InGrid(r, c) :: g.color[Idx(r, c)] == h.color[Idx(r, c)]
    ensures g == h
  {
    forall k | 0 <= k < Cells
      ensures g.occ[k] == h.occ[k] && g.color[k] == h.color[k]
    {
      RowColRoundTrip(k);
    }
  }

  /** `getch`: the occupancy of a cell; every coordinate off the grid reads as occupied. */
  function Occupied(g: Grid, r: int, c: int): (b: bool)
    requires g.WellFormed()
    ensures !InGrid(r, c) ==> b
  {
    if InGrid(r, c) then g.occ[Idx(r, c)] else true
  }

  /** `getColor`: the colour of a cell; off the grid it is white. */
  function ColorAt(g: Grid, r: int, c: int): string
    requires g.WellFormed()
  {
    if InGrid(r, c) then g.color[Idx(r, c)] else OffGridColor
  }

  /**
   * The colour `setch` leaves in a cell that held `prev` when it writes
   * occupancy `value` with colour `color`.
   */
  function WriteColor(prev: string, value: bool, color: string): string {
    if color != Blank then color else if !value then Blank else prev
  }

  /**
   * The colour rules of `setch`: a non-empty colour always overwrites; an
   * empty colour empties the cell when it is freed and leaves it alone otherwise.
   */
  lemma WriteColorRules(prev: string, value: bool, color: string)
    ensures color != Blank ==> WriteColor(prev, value, color) == color
    ensures color == Blank && !value ==> WriteColor(prev, value, color) == Blank
    ensures color == Blank && value ==> WriteColor(prev, value, color) == prev
    ensures WriteColor(prev, value, color) == prev || WriteColor(prev, value, color) == color
  {
  }

  // ---------------------------------------------------------------------
  // Geometry of the two board shapes

  /** The bucket's width of row r: 6 at the top, growing to 22 at the bottom. */
  function BucketRowWidth(r: int): int {
    6 + (22 - 6) * r / (Height - 1)
  }

  /** First column of a centred row of width w. */
  function LeftBound(w: int): int {
    (Width - w) / 2
  }

  /** First column of row r's range. */
  function Lo(bucket: bool, r: int): int {
    if bucket then LeftBound(BucketRowWidth(r)) else 1
  }

  /** One past the last column of row r's range. */
  function Hi(bucket: bool, r: int): int {
    if bucket then LeftBound(BucketRowWidth(r)) + BucketRowWidth(r) else Width - 1
  }

  predicate InRange(bucket: bool, r: int, c: int) {
    Lo(bucket, r) <= c < Hi(bucket, r)
  }

  /**
   * `isValidPosition`: inside the grid and, on the bucket, inside the row's
   * valid range.
   */
  predicate ValidAt(bucket: bool, r: int, c: int) {
    InGrid(r, c) && (bucket ==> InRange(true, r, c))
  }

  /**
   * The bucket's widths grow from 6 at row 0 to 22 at row 21, by at most one
   * per row, and every row's range lies inside the grid.
   */
  lemma BucketWidths(r: int)
    requires 0 <= r < Height
    ensures BucketRowWidth(0) == 6 && BucketRowWidth(Height - 1) == Width
    ensures 6 <= BucketRowWidth(r) <= Width
    ensures r > 0 ==> BucketRowWidth(r - 1) <= BucketRowWidth(r) <= BucketRowWidth(r - 1) + 1
    ensures 0 <= Lo(true, r) < Hi(true, r) <= Width
  {
  }

  /**
   * Ranges nest: each row's range contains the range of the row above it,
   * and every range is a non-empty interval of the grid.
   */
  lemma RangesNest(bucket: bool, r: int)
    requires 0 <= r < Height
    ensures 0 <= Lo(bucket, r) < Hi(bucket, r) <= Width
    ensures r > 0 ==> Lo(bucket, r) <= Lo(bucket, r - 1) && Hi(bucket, r - 1) <= Hi(bucket, r)
  {
    if bucket {
      BucketWidths(r);
      if r > 0 {
        BucketWidths(r - 1);
        var w, v := BucketRowWidth(r), BucketRowWidth(r - 1);
        assert w == v || w == v + 1;
      }
    }
  }

  /** The bucket's bottom row spans the whole grid; every other row misses column 21. */
  lemma BucketBottomIsFull(r: int)
    requires 0 <= r < Height
    ensures r == Height - 1 ==> Lo(true, r) == 0 && Hi(true, r) == Width
    ensures r < Height - 1 ==> Hi(true, r) <= Width - 1
  {
    BucketWidths(r);
  }

  // ---------------------------------------------------------------------
  // Placing a figure

  /** Whether the figure cell over board cell (r, c) is occupied and written there. */
  predicate Lands(bucket: bool, shape: Bitmap, x: int, y: int, r: int, c: int)
    requires shape.Valid()
  {
    shape.At(r - y, c - x) && ValidAt(bucket, r, c)
  }

  /**
   * `placeFigure` of the rectangular field (bucket = false) and of the bucket:
   * every cell a figure cell lands on becomes occupied, with the figure's colour.
   */
  function Place(g: Grid, bucket: bool, shape: Bitmap, x: int, y: int, color: string): (h: Grid)
    requires g.WellFormed() && shape.Valid()
    ensures h.WellFormed()
  {
    Grid(seq(Cells, k requires 0 <= k < Cells =>
               g.occ[k] || Lands(bucket, shape, x, y, RowOf(k), ColOf(k))),
         seq(Cells, k requires 0 <= k < Cells =>
               if Lands(bucket, shape, x, y, RowOf(k), ColOf(k)) then WriteColor(g.color[k], true, color)
               else g.color[k]))
  }

  /**
   * After placement every valid cell under an occupied figure cell is occupied
   * and carries the figure's colour (when it has one); no other cell changes.
   */
  lemma PlaceMeaning(g: Grid, bucket: bool, shape: Bitmap, x: int, y: int, color: string, r: int, c: int)
    requires g.WellFormed() && shape.Valid() && InGrid(r, c)
    ensures var h := Place(g, bucket, shape, x, y, color);
            if shape.At(r - y, c - x) && ValidAt(bucket, r, c) then
              h.occ[Idx(r, c)] && (color != Blank ==> h.color[Idx(r, c)] == color)
            else
              h.occ[Idx(r, c)] == g.occ[Idx(r, c)] && h.color[Idx(r, c)] == g.color[Idx(r, c)]
  {
    IdxRoundTrip(r, c);
  }

  // ---------------------------------------------------------------------
  // Clearing lines

  /** A line is full when every column of its range is occupied. */
  predicate RowFull(g: Grid, bucket: bool, r: int)
    requires g.WellFormed() && 0 <= r < Height
  {
    forall c | Lo(bucket, r) <= c < Hi(bucket, r) :: Occupied(g, r, c)
  }

  /** The new occupancy of cell (m, c) when line `row` is removed. */
  function ShiftedOcc(g: Grid, bucket: bool, row: int, m: int, c: int): bool
    requires g.WellFormed() && 1 <= row < Height && InGrid(m, c)
  {
    if 1 <= m <= row && InRange(bucket, m, c) then
      InRange(bucket, m - 1, c) && g.occ[Idx(m - 1, c)]
    else if m == 0 && InRange(bucket, 0, c) then
      false
    else
      g.occ[Idx(m, c)]
  }

  /** The new colour of cell (m, c) when line `row` is removed (as `setch` writes it). */
  function ShiftedColor(g: Grid, bucket: bool, row: int, m: int, c: int): string
    requires g.WellFormed() && 1 <= row < Height && InGrid(m, c)
  {
    if 1 <= m <= row && InRange(bucket, m, c) then
      if InRange(bucket, m - 1, c) then
        WriteColor(g.color[Idx(m, c)], g.occ[Idx(m - 1, c)], g.color[Idx(m - 1, c)])
      else
        Blank
    else if m == 0 && InRange(bucket, 0, c) then
      Blank
    else
      g.color[Idx(m, c)]
  }

  /**
   * Removing line `row`: every row from `row` up to 1 takes, over its range,
   * the row above it where the two ranges overlap and is emptied elsewhere;
   * then row 0's range is emptied.
   */
  function ShiftDown(g: Grid, bucket: bool, row: int): (h: Grid)
    requires g.WellFormed() && 1 <= row < Height
    ensures h.WellFormed()
  {
    Grid(seq(Cells, k requires 0 <= k < Cells => ShiftedOcc(g, bucket, row, RowOf(k), ColOf(k))),
         seq(Cells, k requires 0 <= k < Cells => ShiftedColor(g, bucket, row, RowOf(k), ColOf(k))))
  }

  lemma ShiftDownAt(g: Grid, bucket: bool, row: int, m: int, c: int)
    requires g.WellFormed() && 1 <= row < Height && InGrid(m, c)
    ensures ShiftDown(g, bucket, row).occ[Idx(m, c)] == ShiftedOcc(g, bucket, row, m, c)
    ensures ShiftDown(g, bucket, row).color[Idx(m, c)] == ShiftedColor(g, bucket, row, m, c)
  {
    IdxRoundTrip(m, c);
  }

  /**
   * One line clear at `row`: each row m with 1 <= m <= row now holds, over the
   * range of row m - 1, what row m - 1 held, and is empty over the rest of its
   * range; row 0's range is empty; rows below `row`, and every cell outside its
   * row's range, are unchanged.
   */
  lemma SingleClear(g: Grid, bucket: bool, row: int, m: int, c: int)
    requires g.WellFormed() && 1 <= row < Height && InGrid(m, c)
    ensures var h := ShiftDown(g, bucket, row);
            && (1 <= m <= row && InRange(bucket, m, c) && InRange(bucket, m - 1, c) ==>
                  h.occ[Idx(m, c)] == g.occ[Idx(m - 1, c)])
            && (1 <= m <= row && InRange(bucket, m, c) && !InRange(bucket, m - 1, c) ==>
                  !h.occ[Idx(m, c)] && h.color[Idx(m, c)] == Blank)
            && (m == 0 && InRange(bucket, m, c) ==> !h.occ[Idx(m, c)] && h.color[Idx(m, c)] == Blank)
            && (m > row || !InRange(bucket, m, c) ==>
                  h.occ[Idx(m, c)] == g.occ[Idx(m, c)] && h.color[Idx(m, c)] == g.color[Idx(m, c)])
  {
    ShiftDownAt(g, bucket, row, m, c);
  }

  /** Whether row m holds an occupied cell within its range. */
  predicate HasBlock(g: Grid, bucket: bool, m: int)
    requires g.WellFormed() && 0 <= m < Height
  {
    exists c | Lo(bucket, m) <= c < Hi(bucket, m) :: Occupied(g, m, c)
  }

  /** Number of rows among 0 .. k - 1 that hold a block within their range. */
  function BlockRows(g: Grid, bucket: bool, k: int): (n: nat)
    requires g.WellFormed() && 0 <= k <= Height
    ensures n <= k
  {
    if k == 0 then 0 else BlockRows(g, bucket, k - 1) + (if HasBlock(g, bucket, k - 1) then 1 else 0)
  }

  /** After removing line `row`, row m + 1 holds a block exactly when row m did. */
  lemma ShiftMovesBlocks(g: Grid, bucket: bool, row: int, m: int)
    requires g.WellFormed() && 1 <= row < Height && 0 <= m < row
    ensures HasBlock(ShiftDown(g, bucket, row), bucket, m + 1) == HasBlock(g, bucket, m)
  {
    ShiftCarriesBlock(g, bucket, row, m);
    ShiftBlockHasSource(g, bucket, row, m);
  }

  lemma ShiftCarriesBlock(g: Grid, bucket: bool, row: int, m: int)
    requires g.WellFormed() && 1 <= row < Height && 0 <= m < row
    ensures HasBlock(g, bucket, m) ==> HasBlock(ShiftDown(g, bucket, row), bucket, m + 1)
  {
    if HasBlock(g, bucket, m) {
      RangesNest(bucket, m + 1);
      var c :| Lo(bucket, m) <= c < Hi(bucket, m) && Occupied(g, m, c);
      ShiftCopiesCell(g, bucket, row, m, c);
      assert Occupied(ShiftDown(g, bucket, row), m + 1, c);
    }
  }

  /** An occupied cell of row m + 1's range after the shift came from row m. */
  lemma ShiftFillsFromAbove(g: Grid, bucket: bool, row: int, m: int, c: int)
    requires g.WellFormed() && 1 <= row < Height && 0 <= m < row
    requires InRange(bucket, m + 1, c) && 0 <= c < Width
    requires ShiftDown(g, bucket, row).occ[Idx(m + 1, c)]
    ensures InRange(bucket, m, c) && g.occ[Idx(m, c)]
  {
    ShiftDownAt(g, bucket, row, m + 1, c);
  }

  /** A cell in both row m's and row m + 1's ranges moves down one row. */
  lemma ShiftCopiesCell(g: Grid, bucket: bool, row: int, m: int, c: int)
    requires g.WellFormed() && 1 <= row < Height && 0 <= m < row
    requires InRange(bucket, m, c) && InRange(bucket, m + 1, c) && 0 <= c < Width
    ensures ShiftDown(g, bucket, row).occ[Idx(m + 1, c)] == g.occ[Idx(m, c)]
  {
    ShiftDownAt(g, bucket, row, m + 1, c);
  }

  lemma ShiftBlockHasSource(g: Grid, bucket: bool, row: int, m: int)
    requires g.WellFormed() && 1 <= row < Height && 0 <= m < row
    ensures HasBlock(ShiftDown(g, bucket, row), bucket, m + 1) ==> HasBlock(g, bucket, m)
  {
    var h := ShiftDown(g, bucket, row);
    if HasBlock(h, bucket, m + 1) {
      RangesNest(bucket, m + 1);
      var c :| Lo(bucket, m + 1) <= c < Hi(bucket, m + 1) && Occupied(h, m + 1, c);
      ShiftFillsFromAbove(g, bucket, row, m, c);
      assert Occupied(g, m, c);
    }
  }

  /** Removing a line leaves row 0's range empty. */
  lemma ShiftEmptiesTop(g: Grid, bucket: bool, row: int)
    requires g.WellFormed() && 1 <= row < Height
    ensures !HasBlock(ShiftDown(g, bucket, row), bucket, 0)
  {
    var h := ShiftDown(g, bucket, row);
    RangesNest(bucket, 0);
    forall c | Lo(bucket, 0) <= c < Hi(bucket, 0)
      ensures !Occupied(h, 0, c)
    {
      ShiftDownAt(g, bucket, row, 0, c);
    }
  }

  lemma {:induction false} ShiftCountsBelow(g: Grid, bucket: bool, row: int, m: int)
    requires g.WellFormed() && 1 <= row < Height && 0 <= m <= row
    ensures BlockRows(ShiftDown(g, bucket, row), bucket, m + 1) == BlockRows(g, bucket, m)
  {
    var h := ShiftDown(g, bucket, row);
    if m == 0 {
      ShiftEmptiesTop(g, bucket, row);
    } else {
      ShiftCountsBelow(g, bucket, row, m - 1);
      ShiftMovesBlocks(g, bucket, row, m - 1);
    }
  }

  /**
   * Removing a full line takes away one row that holds a block among rows
   * 0 .. row: the measure that makes the re-scanning loop terminate.
   */
  lemma ShiftRemovesBlockRow(g: Grid, bucket: bool, row: int)
    requires g.WellFormed() && 1 <= row < Height && RowFull(g, bucket, row)
    ensures BlockRows(ShiftDown(g, bucket, row), bucket, row + 1) + 1 == BlockRows(g, bucket, row + 1)
  {
    ShiftCountsBelow(g, bucket, row, row);
    RangesNest(bucket, row);
    assert Occupied(g, row, Lo(bucket, row));
    assert HasBlock(g, bucket, row);
  }

  /** The outcome of a line-clearing scan: the grid and the number of lines removed. */
  datatype Cleared = Cleared(grid: Grid, lines: nat)

  /**
   * The scan of `clearFullLines`, continued from `row` with `n` lines removed
   * so far: a full row is removed and the same row examined again; otherwise
   * the scan moves one row up, and it stops above row 1.
   */
  function ClearFrom(g: Grid, bucket: bool, row: int, n: nat): (res: Cleared)
    requires g.WellFormed() && 0 <= row < Height
    ensures res.grid.WellFormed()
    decreases row + BlockRows(g, bucket, row + 1)
  {
    if row < 1 then Cleared(g, n)
    else if RowFull(g, bucket, row) then
      ShiftRemovesBlockRow(g, bucket, row);
      ClearFrom(ShiftDown(g, bucket, row), bucket, row, n + 1)
    else
      ClearFrom(g, bucket, row - 1, n)
  }

  /** `clearFullLines`: the scan from row 20 (the row above the floor) up to row 1. */
  function ClearLines(g: Grid, bucket: bool): Cleared
    requires g.WellFormed()
  {
    ClearFrom(g, bucket, Height - 2, 0)
  }

  predicate NoFullRowBetween(g: Grid, bucket: bool, lo: int, hi: int)
    requires g.WellFormed() && 0 <= lo && hi <= Height
  {
    forall r | lo <= r < hi :: !RowFull(g, bucket, r)
  }

  /** Removing line `row` keeps every line below it full or not full as it was. */
  lemma ShiftKeepsFullness(g: Grid, bucket: bool, row: int, m: int)
    requires g.WellFormed() && 1 <= row < Height && row < m < Height
    ensures RowFull(ShiftDown(g, bucket, row), bucket, m) == RowFull(g, bucket, m)
  {
    var h := ShiftDown(g, bucket, row);
    RangesNest(bucket, m);
    forall c | Lo(bucket, m) <= c < Hi(bucket, m)
      ensures Occupied(h, m, c) == Occupied(g, m, c)
    {
      ShiftDownAt(g, bucket, row, m, c);
    }
  }

  lemma {:induction false} ClearFromNoFullRow(g: Grid, bucket: bool, row: int, n: nat)
    requires g.WellFormed() && 0 <= row < Height - 1
    requires NoFullRowBetween(g, bucket, row + 1, Height - 1)
    ensures NoFullRowBetween(ClearFrom(g, bucket, row, n).grid, bucket, 1, Height - 1)
    decreases row + BlockRows(g, bucket, row + 1)
  {
    if row < 1 {
    } else if RowFull(g, bucket, row) {
      ShiftRemovesBlockRow(g, bucket, row);
      var h := ShiftDown(g, bucket, row);
      forall m | row + 1 <= m < Height - 1
        ensures !RowFull(h, bucket, m)
      {
        ShiftKeepsFullness(g, bucket, row, m);
      }
      ClearFromNoFullRow(h, bucket, row, n + 1);
    } else {
      ClearFromNoFullRow(g, bucket, row - 1, n);
    }
  }

  /** After `clearFullLines` no line between row 1 and row 20 is full. */
  lemma ClearLinesLeavesNoFullRow(g: Grid, bucket: bool)
    requires g.WellFormed()
    ensures NoFullRowBetween(ClearLines(g, bucket).grid, bucket, 1, Height - 1)
  {
    ClearFromNoFullRow(g, bucket, Height - 2, 0);
  }

  /** Whether cell (m, c) is one that line clearing may rewrite. */
  predicate Clearable(bucket: bool, m: int, c: int) {
    m < Height - 1 && InRange(bucket, m, c)
  }

  lemma {:induction false} ClearFromKeepsOutside(g: Grid, bucket: bool, row: int, n: nat, m: int, c: int)
    requires g.WellFormed() && 0 <= row < Height - 1 && InGrid(m, c) && !Clearable(bucket, m, c)
    ensures ClearFrom(g, bucket, row, n).grid.occ[Idx(m, c)] == g.occ[Idx(m, c)]
    ensures ClearFrom(g, bucket, row, n).grid.color[Idx(m, c)] == g.color[Idx(m, c)]
    decreases row + BlockRows(g, bucket, row + 1)
  {
    if row < 1 {
    } else if RowFull(g, bucket, row) {
      ShiftRemovesBlockRow(g, bucket, row);
      ShiftDownAt(g, bucket, row, m, c);
      ClearFromKeepsOutside(ShiftDown(g, bucket, row), bucket, row, n + 1, m, c);
    } else {
      ClearFromKeepsOutside(g, bucket, row - 1, n, m, c);
    }
  }

  /**
   * `clearFullLines` never changes a cell outside its row's range, nor the
   * bottom row: on the rectangular field, columns 0 and 21 and row 21.
   */
  lemma ClearLinesKeepsWalls(g: Grid, bucket: bool, m: int, c: int)
    requires g.WellFormed() && InGrid(m, c) && !Clearable(bucket, m, c)
    ensures ClearLines(g, bucket).grid.occ[Idx(m, c)] == g.occ[Idx(m, c)]
    ensures ClearLines(g, bucket).grid.color[Idx(m, c)] == g.color[Idx(m, c)]
  {
    ClearFromKeepsOutside(g, bucket, Height - 2, 0, m, c);
  }

  lemma {:induction false} ClearFromCount(g: Grid, bucket: bool, row: int, n: nat)
    requires g.WellFormed() && 0 <= row < Height
    ensures n <= ClearFrom(g, bucket, row, n).lines <= n + BlockRows(g, bucket, row + 1)
    decreases row + BlockRows(g, bucket, row + 1)
  {
    if row < 1 {
    } else if RowFull(g, bucket, row) {
      ShiftRemovesBlockRow(g, bucket, row);
      ClearFromCount(ShiftDown(g, bucket, row), bucket, row, n + 1);
    } else {
      ClearFromCount(g, bucket, row - 1, n);
    }
  }

  /**
   * The number of lines `clearFullLines` removes is at most the number of
   * rows 0..20 holding a block, so at most 21, and at most 20 when row 0's
   * range is empty (as it is in play: pieces never reach row 0).
   */
  lemma ClearLinesCount(g: Grid, bucket: bool)
    requires g.WellFormed()
    ensures ClearLines(g, bucket).lines <= BlockRows(g, bucket, Height - 1) <= Height - 1
    ensures !HasBlock(g, bucket, 0) ==> ClearLines(g, bucket).lines <= Height - 2
  {
    ClearFromCount(g, bucket, Height - 2, 0);
    if !HasBlock(g, bucket, 0) {
      BlockRowsSkipsEmptyTop(g, bucket, Height - 1);
    }
  }

  lemma {:induction false} BlockRowsSkipsEmptyTop(g: Grid, bucket: bool, k: int)
    requires g.WellFormed() && 1 <= k <= Height && !HasBlock(g, bucket, 0)
    ensures BlockRows(g, bucket, k) <= k - 1
  {
    if k > 1 {
      BlockRowsSkipsEmptyTop(g, bucket, k - 1);
    }
  }

  /** A grid without full lines is left exactly as it was, and no line is counted. */
  lemma {:induction false} ClearFromNothingFull(g: Grid, bucket: bool, row: int, n: nat)
    requires g.WellFormed() && 0 <= row < Height
    requires NoFullRowBetween(g, bucket, 1, row + 1)
    ensures ClearFrom(g, bucket, row, n) == Cleared(g, n)
    decreases row
  {
    if row >= 1 {
      ClearFromNothingFull(g, bucket, row - 1, n);
    }
  }
}
