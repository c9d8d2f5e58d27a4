/**
 * The playing field object: the rectangular `Field` and the bucket-shaped
 * `BucketField`, one class here with a `bucket` tag that selects the
 * bucket's overrides of `getRowWidth`, `isValidPosition`, `placeFigure` and
 * `clearFullLines`. The cells live in two arrays of 484 entries, as the
 * source's vectors; every operation is proved to act on them as the value
 * functions of module Board say.
 */
module Fields {
  import opened Figures
  import opened Board

  /** A cell of the rectangular field's frame: the floor row or a side column. */
  predicate FrameCell(r: int, c: int) {
    r == Height - 1 || c == 0 || c == Width - 1
  }

  /**
   * A freshly built field. Occupied: the floor row and every cell outside its
   * row's range. Coloured as a wall: the frame cells the bucket shape leaves
   * outside its rows (the bucket reuses the rectangle's frame colours and
   * blanks everything it writes as free).
   */
  function InitialGrid(bucket: bool): (g: Grid)
    ensures g.WellFormed()
  {
    Grid(seq(Cells, k => RowOf(k) == Height - 1 || !InRange(bucket, RowOf(k), ColOf(k))),
         seq(Cells, k => if FrameCell(RowOf(k), ColOf(k)) && !(bucket && InRange(true, RowOf(k), ColOf(k)))
                         then WallColor else Blank))
  }

  lemma InitialGridAt(bucket: bool, r: int, c: int)
    requires InGrid(r, c)
    ensures InitialGrid(bucket).occ[Idx(r, c)] == (r == Height - 1 || !InRange(bucket, r, c))
    ensures InitialGrid(bucket).color[Idx(r, c)] ==
              if FrameCell(r, c) && !(bucket && InRange(true, r, c)) then WallColor else Blank
  {
    IdxRoundTrip(r, c);
  }

  /** A fresh field of either shape: its floor line is full and every cell outside a row's range is a wall. */
  lemma FreshFieldWalls(bucket: bool)
    ensures RowFull(InitialGrid(bucket), bucket, Height - 1)
    ensures forall r, c | InGrid(r, c) && !InRange(bucket, r, c) :: Occupied(InitialGrid(bucket), r, c)
  {
    var g, floor := InitialGrid(bucket), Height - 1;
    RangesNest(bucket, floor);
    forall c | Lo(bucket, floor) <= c < Hi(bucket, floor)
      ensures Occupied(g, floor, c)
    {
      InitialGridAt(bucket, floor, c);
    }
    forall r, c | InGrid(r, c) && !InRange(bucket, r, c)
      ensures Occupied(g, r, c)
    {
      InitialGridAt(bucket, r, c);
    }
  }

  /** A fresh field holds no block in line r above the floor. */
  lemma FreshRowEmpty(bucket: bool, r: int)
    requires 0 <= r < Height - 1
    ensures !HasBlock(InitialGrid(bucket), bucket, r)
    ensures r >= 1 ==> !RowFull(InitialGrid(bucket), bucket, r)
  {
    RangesNest(bucket, r);
    forall c | Lo(bucket, r) <= c < Hi(bucket, r)
      ensures !Occupied(InitialGrid(bucket), r, c)
    {
      InitialGridAt(bucket, r, c);
    }
    assert !Occupied(InitialGrid(bucket), r, Lo(bucket, r));
  }

  /**
   * A fresh field holds no block in any line above the floor, so clearing
   * lines removes none and changes nothing.
   */
  lemma FreshFieldEmpty(bucket: bool)
    ensures forall r | 0 <= r < Height - 1 :: !HasBlock(InitialGrid(bucket), bucket, r)
    ensures ClearLines(InitialGrid(bucket), bucket) == Cleared(InitialGrid(bucket), 0)
  {
    forall r | 0 <= r < Height - 1
      ensures !HasBlock(InitialGrid(bucket), bucket, r)
      ensures r >= 1 ==> !RowFull(InitialGrid(bucket), bucket, r)
    {
      FreshRowEmpty(bucket, r);
    }
    ClearFromNothingFull(InitialGrid(bucket), bucket, Height - 2, 0);
  }

  /** The fresh rectangular field: its walls are exactly row 21 and columns 0 and 21, coloured " ". */
  lemma FreshRectangle(r: int, c: int)
    requires InGrid(r, c)
    ensures Occupied(InitialGrid(false), r, c) == FrameCell(r, c)
    ensures ColorAt(InitialGrid(false), r, c) == if FrameCell(r, c) then WallColor else Blank
  {
    InitialGridAt(false, r, c);
  }

  /**
   * The fresh bucket: a cell is a wall exactly when it lies outside its row's
   * centred range or on the floor; only the side-column cells left outside
   * the range keep the rectangle's wall colour.
   */
  lemma FreshBucket(r: int, c: int)
    requires InGrid(r, c)
    ensures Occupied(InitialGrid(true), r, c) == (r == Height - 1 || !ValidAt(true, r, c))
    ensures ColorAt(InitialGrid(true), r, c) ==
              if (c == 0 || c == Width - 1) && !ValidAt(true, r, c) then WallColor else Blank
  {
    InitialGridAt(true, r, c);
    BucketBottomIsFull(r);
  }

  /** Whether figure cell (a, b) comes before cell (i, j) in row-major order. */
  predicate Before(a: int, b: int, i: int, j: int) {
    a < i || (a == i && b < j)
  }

  class Field {
    /** Whether this is the bucket-shaped field. */
    const bucket: bool
    /** The bucket's width of every row; empty on the rectangular field. */
    var rowWidths: seq<int>
    /** Occupancy of cell (r, c) at index r * 22 + c. */
    const matrix: array<bool>
    /** Colour of cell (r, c) at index r * 22 + c; "" for none. */
    const colors: array<string>

    ghost predicate Valid()
      reads this
    {
      matrix.Length == Cells && colors.Length == Cells
      && (bucket ==> rowWidths == seq(Height, r => BucketRowWidth(r)))
    }

    /** The field's contents as a value. */
    function Snapshot(): (g: Grid)
      requires Valid()
      reads this, matrix, colors
      ensures g.WellFormed()
    {
      Grid(matrix[..], colors[..])
    }

    /** The rectangular field: floor and side walls, coloured " ". */
    constructor ()
      ensures Valid() && !bucket && Snapshot() == InitialGrid(false)
      ensures fresh(matrix) && fresh(colors)
    {
      bucket := false;
      rowWidths := [];
      matrix := new bool[Cells](_ => false);
      colors := new string[Cells](_ => Blank);
      new;
      BuildFrame();
      forall r, c | InGrid(r, c)
        ensures matrix[Idx(r, c)] == InitialGrid(false).occ[Idx(r, c)]
        ensures colors[Idx(r, c)] == InitialGrid(false).color[Idx(r, c)]
      {
        InitialGridAt(false, r, c);
      }
      GridExt(Snapshot(), InitialGrid(false));
    }

    /** The bucket field: the rectangle's frame is built first, then reshaped. */
    constructor Bucket()
      ensures Valid() && bucket && Snapshot() == InitialGrid(true)
      ensures fresh(matrix) && fresh(colors)
    {
      bucket := true;
      rowWidths := [];
      matrix := new bool[Cells](_ => false);
      colors := new string[Cells](_ => Blank);
      new;
      BuildFrame();
      InitializeBucketShape();
      forall r, c | InGrid(r, c)
        ensures matrix[Idx(r, c)] == InitialGrid(true).occ[Idx(r, c)]
        ensures colors[Idx(r, c)] == InitialGrid(true).color[Idx(r, c)]
      {
        InitialGridAt(true, r, c);
      }
      GridExt(Snapshot(), InitialGrid(true));
    }

    /** The wall-building loop of the `Field` constructor, on a blank grid. */
    method BuildFrame()
      requires matrix.Length == Cells && colors.Length == Cells
      requires forall k | 0 <= k < Cells :: !matrix[k] && colors[k] == Blank
      modifies matrix, colors
      ensures forall r, c | InGrid(r, c) ::
                matrix[Idx(r, c)] == FrameCell(r, c)
                && colors[Idx(r, c)] == (if FrameCell(r, c) then WallColor else Blank)
    {
      var i := 0;
      while i < Width
        invariant 0 <= i <= Width
        invariant forall r, c | InGrid(r, c) ::
                    matrix[Idx(r, c)] == ((r == Height - 1 && c < i) || ((c == 0 || c == Width - 1) && r < i))
                    && colors[Idx(r, c)] == if matrix[Idx(r, c)] then WallColor else Blank
      {
        Setch(Height - 1, i, true, WallColor);
        Setch(i, 0, true, WallColor);
        Setch(i, Width - 1, true, WallColor);
        i := i + 1;
      }
    }

    /**
     * `initializeBucketShape`: records the row widths, empties the grid, marks
     * every cell outside its row's range as a wall (a free cell loses its
     * colour, a wall keeps it) and fills the floor row.
     */
    method InitializeBucketShape()
      requires bucket && matrix.Length == Cells && colors.Length == Cells
      modifies this, matrix, colors
      ensures Valid() && rowWidths == seq(Height, r => BucketRowWidth(r))
      ensures forall r, c | InGrid(r, c) ::
                matrix[Idx(r, c)] == (r == Height - 1 || !InRange(true, r, c))
                && colors[Idx(r, c)] == (if InRange(true, r, c) then Blank else old(colors[Idx(r, c)]))
    {
      var widths: seq<int> := [];
      var row := 0;
      while row < Height
        invariant 0 <= row <= Height
        invariant widths == seq(row, r => BucketRowWidth(r))
      {
        widths := widths + [6 + (22 - 6) * row / (Height - 1)];
        row := row + 1;
      }
      rowWidths := widths;

      forall k | 0 <= k < Cells {
        matrix[k] := false;
      }

      row := 0;
      while row < Height
        invariant 0 <= row <= Height && Valid()
        invariant forall r, c | InGrid(r, c) ::
                    matrix[Idx(r, c)] == (r < row && !InRange(true, r, c))
                    && colors[Idx(r, c)] == (if r < row && InRange(true, r, c) then Blank else old(colors[Idx(r, c)]))
      {
        var width := GetRowWidth(row);
        var leftBound := (Width - width) / 2;
        var rightBound := leftBound + width;
        var col := 0;
        while col < Width
          invariant 0 <= col <= Width && Valid()
          invariant forall r, c | InGrid(r, c) ::
                      matrix[Idx(r, c)] == ((r < row || (r == row && c < col)) && !InRange(true, r, c))
                      && colors[Idx(r, c)] ==
                           (if (r < row || (r == row && c < col)) && InRange(true, r, c) then Blank
                            else old(colors[Idx(r, c)]))
        {
          var isWall := col < leftBound || col >= rightBound;
          Setch(row, col, isWall, Blank);
          col := col + 1;
        }
        row := row + 1;
      }

      var col := 0;
      while col < Width
        invariant 0 <= col <= Width && Valid()
        invariant forall r, c | InGrid(r, c) ::
                    matrix[Idx(r, c)] == ((r == Height - 1 && c < col) || !InRange(true, r, c))
                    && colors[Idx(r, c)] == (if InRange(true, r, c) then Blank else old(colors[Idx(r, c)]))
      {
        BucketBottomIsFull(Height - 1);
        Setch(Height - 1, col, true, Blank);
        col := col + 1;
      }
    }

    /** `getRowWidth`: the bucket's width of a row, or 22 off the rows and on the rectangle. */
    function GetRowWidth(row: int): (w: int)
      requires Valid()
      reads this
      ensures bucket && 0 <= row < Height ==> w == BucketRowWidth(row)
      ensures !(bucket && 0 <= row < Height) ==> w == Width
      ensures 6 <= w <= Width
    {
      if bucket && 0 <= row < Height then
        BucketWidths(row);
        rowWidths[row]
      else
        Width
    }

    /**
     * `isValidPosition`: inside the grid, and on the bucket inside the row's
     * centred range of `getRowWidth(row)` columns.
     */
    function IsValidPosition(row: int, col: int): (b: bool)
      requires Valid()
      reads this
      ensures b == ValidAt(bucket, row, col)
      ensures b ==> InGrid(row, col)
    {
      if !bucket then
        row >= 0 && row < Height && col >= 0 && col < Width
      else if row < 0 || row >= Height || col < 0 || col >= Width then
        false
      else
        var width := GetRowWidth(row);
        var leftBound := (Width - width) / 2;
        col >= leftBound && col < leftBound + width
    }

    /** `getch`: whether a cell is occupied; every coordinate off the grid is. */
    function Getch(i: int, j: int): (b: bool)
      requires Valid()
      reads this, matrix
      ensures !InGrid(i, j) ==> b
      ensures InGrid(i, j) ==> b == matrix[Idx(i, j)]
    {
      if i >= 0 && i < Height && j >= 0 && j < Width then matrix[i * Width + j] else true
    }

    /** `getColor`: a cell's colour; white off the grid. */
    function GetColor(i: int, j: int): (s: string)
      requires Valid()
      reads this, colors
      ensures !InGrid(i, j) ==> s == OffGridColor
      ensures InGrid(i, j) ==> s == colors[Idx(i, j)]
    {
      if i >= 0 && i < Height && j >= 0 && j < Width then colors[i * Width + j] else OffGridColor
    }

    /**
     * `setch`: writes one on-grid cell and nothing else; a non-empty colour
     * replaces the cell's colour, an empty one blanks it only when freeing.
     */
    method Setch(i: int, j: int, value: bool, color: string)
      requires matrix.Length == Cells && colors.Length == Cells
      modifies matrix, colors
      ensures InGrid(i, j) ==> matrix[Idx(i, j)] == value
      ensures InGrid(i, j) ==> colors[Idx(i, j)] == WriteColor(old(colors[Idx(i, j)]), value, color)
      ensures forall r, c | InGrid(r, c) && (r != i || c != j) ::
                matrix[Idx(r, c)] == old(matrix[Idx(r, c)]) && colors[Idx(r, c)] == old(colors[Idx(r, c)])
    {
      if i >= 0 && i < Height && j >= 0 && j < Width {
        matrix[i * Width + j] := value;
        if color != Blank {
          colors[i * Width + j] := color;
        } else if !value {
          colors[i * Width + j] := Blank;
        }
      }
    }

    /**
     * `placeFigure`: every valid cell under an occupied cell of the figure
     * becomes occupied, in the figure's colour; see `Place` and `PlaceMeaning`.
     */
    method PlaceFigure(figure: Figure)
      requires Valid() && figure.Valid()
      modifies matrix, colors
      ensures Snapshot() == Place(old(Snapshot()), bucket, figure.Shape(), figure.startx, figure.starty, figure.color)
    {
      ghost var g0 := Snapshot();
      ghost var shape := figure.Shape();
      var x := figure.startx;
      var y := figure.starty;
      var i := 0;
      while i < figure.height
        invariant 0 <= i <= figure.height
        invariant PlacedBefore(g0, shape, x, y, figure.color, i, 0)
      {
        PlaceRow(figure, i, g0);
        i := i + 1;
      }
      forall r, c | InGrid(r, c)
        ensures matrix[Idx(r, c)] == Place(g0, bucket, shape, x, y, figure.color).occ[Idx(r, c)]
        ensures colors[Idx(r, c)] == Place(g0, bucket, shape, x, y, figure.color).color[Idx(r, c)]
      {
        IdxRoundTrip(r, c);
      }
      GridExt(Snapshot(), Place(g0, bucket, shape, x, y, figure.color));
    }

    /**
     * The cells of `g0` as changed by placing, in row-major order, the figure
     * cells before (i, j): each one that lands becomes occupied in `color`.
     */
    ghost predicate PlacedBefore(g0: Grid, shape: Bitmap, x: int, y: int, color: string, i: int, j: int)
      requires Valid() && g0.WellFormed() && shape.Valid()
      reads this, matrix, colors
    {
      forall r, c | InGrid(r, c) ::
        matrix[Idx(r, c)] == (g0.occ[Idx(r, c)] || (Lands(bucket, shape, x, y, r, c) && Before(r - y, c - x, i, j)))
        && colors[Idx(r, c)] == (if Lands(bucket, shape, x, y, r, c) && Before(r - y, c - x, i, j)
                                 then WriteColor(g0.color[Idx(r, c)], true, color)
                                 else g0.color[Idx(r, c)])
    }

    /** The inner loop of `placeFigure`: row i of the figure. */
    method PlaceRow(figure: Figure, i: int, ghost g0: Grid)
      requires Valid() && figure.Valid() && g0.WellFormed() && 0 <= i < figure.height
      requires PlacedBefore(g0, figure.Shape(), figure.startx, figure.starty, figure.color, i, 0)
      modifies matrix, colors
      ensures PlacedBefore(g0, figure.Shape(), figure.startx, figure.starty, figure.color, i + 1, 0)
    {
      ghost var shape := figure.Shape();
      var x := figure.startx;
      var y := figure.starty;
      var j := 0;
      while j < figure.width
        invariant 0 <= j <= figure.width
        invariant PlacedBefore(g0, shape, x, y, figure.color, i, j)
      {
        PlaceCell(figure, i, j, g0);
        j := j + 1;
      }
      RowPlaced(g0, shape, x, y, figure.color, i);
    }

    /** Having placed every cell of row i is having placed every cell before row i + 1. */
    lemma RowPlaced(g0: Grid, shape: Bitmap, x: int, y: int, color: string, i: int)
      requires Valid() && g0.WellFormed() && shape.Valid()
      requires PlacedBefore(g0, shape, x, y, color, i, shape.width)
      ensures PlacedBefore(g0, shape, x, y, color, i + 1, 0)
    {
    }

    /** The body of the inner loop: figure cell (i, j), written when it is occupied and lands on a valid cell. */
    method PlaceCell(figure: Figure, i: int, j: int, ghost g0: Grid)
      requires Valid() && figure.Valid() && g0.WellFormed() && 0 <= i < figure.height && 0 <= j < figure.width
      requires PlacedBefore(g0, figure.Shape(), figure.startx, figure.starty, figure.color, i, j)
      modifies matrix, colors
      ensures PlacedBefore(g0, figure.Shape(), figure.startx, figure.starty, figure.color, i, j + 1)
    {
      if figure.GetChar(i, j) {
        var fieldx := figure.startx + j;
        var fieldy := figure.starty + i;
        if !bucket || IsValidPosition(fieldy, fieldx) {
          Setch(fieldy, fieldx, true, figure.color);
        }
      }
    }

    /** Whether line `row` is full, scanning its range and stopping at the first free cell. */
    method IsLineFull(row: int) returns (lineFull: bool)
      requires Valid() && 1 <= row < Height
      ensures lineFull == RowFull(Snapshot(), bucket, row)
    {
      var leftBound, rightBound := 1, Width - 1;
      if bucket {
        var width := GetRowWidth(row);
        leftBound := (Width - width) / 2;
        rightBound := leftBound + width;
      }
      RangesNest(bucket, row);
      assert leftBound == Lo(bucket, row) && rightBound == Hi(bucket, row);
      lineFull := true;
      var col := leftBound;
      while col < rightBound
        invariant leftBound <= col <= rightBound && lineFull
        invariant forall c | leftBound <= c < col :: Occupied(Snapshot(), row, c)
      {
        if !Getch(row, col) {
          assert !Occupied(Snapshot(), row, col);
          lineFull := false;
          break;
        }
        col := col + 1;
      }
      if lineFull {
        assert forall c | Lo(bucket, row) <= c < Hi(bucket, row) :: Occupied(Snapshot(), row, c);
      }
    }

    /**
     * One step of the moving loop: row m takes, over its range, row m - 1
     * where the two ranges overlap and is emptied elsewhere; nothing else changes.
     */
    method CopyRowDown(m: int)
      requires Valid() && 1 <= m < Height
      modifies matrix, colors
      ensures forall r, c | InGrid(r, c) ::
                matrix[Idx(r, c)] == if r == m && InRange(bucket, m, c)
                                     then InRange(bucket, m - 1, c) && old(matrix[Idx(m - 1, c)])
                                     else old(matrix[Idx(r, c)])
      ensures forall r, c | InGrid(r, c) ::
                colors[Idx(r, c)] == if r == m && InRange(bucket, m, c)
                                     then (if InRange(bucket, m - 1, c)
                                           then WriteColor(old(colors[Idx(m, c)]), old(matrix[Idx(m - 1, c)]),
                                                           old(colors[Idx(m - 1, c)]))
                                           else Blank)
                                     else old(colors[Idx(r, c)])
    {
      var moveLeft, moveRight, prevLeft, prevRight := 1, Width - 1, 1, Width - 1;
      if bucket {
        var moveWidth := GetRowWidth(m);
        moveLeft := (Width - moveWidth) / 2;
        moveRight := moveLeft + moveWidth;
        var prevWidth := GetRowWidth(m - 1);
        prevLeft := (Width - prevWidth) / 2;
        prevRight := prevLeft + prevWidth;
      }
      RangesNest(bucket, m);
      assert moveLeft == Lo(bucket, m) && moveRight == Hi(bucket, m);
      assert prevLeft == Lo(bucket, m - 1) && prevRight == Hi(bucket, m - 1);
      CopyColumns(m, moveLeft, moveRight, prevLeft, prevRight);
    }

    /**
     * The moving loop of `clearFullLines` over columns moveLeft .. moveRight - 1
     * of row m: each takes the cell above it when the column lies in
     * prevLeft .. prevRight - 1 and is emptied otherwise.
     */
    method CopyColumns(m: int, moveLeft: int, moveRight: int, prevLeft: int, prevRight: int)
      requires Valid() && 1 <= m < Height && 0 <= moveLeft <= moveRight <= Width
      modifies matrix, colors
      ensures forall r, c | InGrid(r, c) ::
                matrix[Idx(r, c)] == if r == m && moveLeft <= c < moveRight
                                     then prevLeft <= c < prevRight && old(matrix[Idx(m - 1, c)])
                                     else old(matrix[Idx(r, c)])
      ensures forall r, c | InGrid(r, c) ::
                colors[Idx(r, c)] == if r == m && moveLeft <= c < moveRight
                                     then (if prevLeft <= c < prevRight
                                           then WriteColor(old(colors[Idx(m, c)]), old(matrix[Idx(m - 1, c)]),
                                                           old(colors[Idx(m - 1, c)]))
                                           else Blank)
                                     else old(colors[Idx(r, c)])
    {
      var col := moveLeft;
      while col < moveRight
        invariant moveLeft <= col <= moveRight
        invariant forall r, c | InGrid(r, c) ::
                    matrix[Idx(r, c)] == if r == m && moveLeft <= c < col
                                         then prevLeft <= c < prevRight && old(matrix[Idx(m - 1, c)])
                                         else old(matrix[Idx(r, c)])
        invariant forall r, c | InGrid(r, c) ::
                    colors[Idx(r, c)] == if r == m && moveLeft <= c < col
                                         then (if prevLeft <= c < prevRight
                                               then WriteColor(old(colors[Idx(m, c)]), old(matrix[Idx(m - 1, c)]),
                                                               old(colors[Idx(m - 1, c)]))
                                               else Blank)
                                         else old(colors[Idx(r, c)])
      {
        var value, color := false, Blank;
        if m > 0 && col >= prevLeft && col < prevRight {
          value := Getch(m - 1, col);
          color := GetColor(m - 1, col);
        }
        Setch(m, col, value, color);
        col := col + 1;
      }
    }

    /** The last step of a clear: row 0's range is emptied; nothing else changes. */
    method ClearTopRow()
      requires Valid()
      modifies matrix, colors
      ensures forall r, c | InGrid(r, c) ::
                matrix[Idx(r, c)] == (if r == 0 && InRange(bucket, 0, c) then false else old(matrix[Idx(r, c)]))
      ensures forall r, c | InGrid(r, c) ::
                colors[Idx(r, c)] == (if r == 0 && InRange(bucket, 0, c) then Blank else old(colors[Idx(r, c)]))
    {
      var topLeft, topRight := 1, Width - 1;
      if bucket {
        var topWidth := GetRowWidth(0);
        topLeft := (Width - topWidth) / 2;
        topRight := topLeft + topWidth;
      }
      RangesNest(bucket, 0);
      var col := topLeft;
      while col < topRight
        invariant topLeft <= col <= topRight
        invariant forall r, c | InGrid(r, c) ::
                    matrix[Idx(r, c)] == (if r == 0 && topLeft <= c < col then false else old(matrix[Idx(r, c)]))
        invariant forall r, c | InGrid(r, c) ::
                    colors[Idx(r, c)] == (if r == 0 && topLeft <= c < col then Blank else old(colors[Idx(r, c)]))
      {
        Setch(0, col, false, Blank);
        col := col + 1;
      }
    }

    /**
     * The moving part of a clear: rows `row` down to 1 take the row above
     * within their range, then row 0's range is emptied.
     */
    method ShiftDownFrom(row: int)
      requires Valid() && 1 <= row < Height
      modifies matrix, colors
      ensures Snapshot() == ShiftDown(old(Snapshot()), bucket, row)
    {
      ghost var g0 := Snapshot();
      MoveRowsDown(row);
      ClearTopRow();
      forall r, c | InGrid(r, c)
        ensures matrix[Idx(r, c)] == ShiftDown(g0, bucket, row).occ[Idx(r, c)]
        ensures colors[Idx(r, c)] == ShiftDown(g0, bucket, row).color[Idx(r, c)]
      {
        ShiftDownAt(g0, bucket, row, r, c);
      }
      GridExt(Snapshot(), ShiftDown(g0, bucket, row));
    }

    /** The moving loop: rows `row` down to 1, each taking the row above within its range. */
    method MoveRowsDown(row: int)
      requires Valid() && 1 <= row < Height
      modifies matrix, colors
      ensures forall r, c | InGrid(r, c) ::
                matrix[Idx(r, c)] == if 0 < r <= row && InRange(bucket, r, c)
                                     then ShiftedOcc(old(Snapshot()), bucket, row, r, c) else old(matrix[Idx(r, c)])
      ensures forall r, c | InGrid(r, c) ::
                colors[Idx(r, c)] == if 0 < r <= row && InRange(bucket, r, c)
                                     then ShiftedColor(old(Snapshot()), bucket, row, r, c) else old(colors[Idx(r, c)])
    {
      ghost var g0 := Snapshot();
      var moveRow := row;
      while moveRow >= 1
        invariant 0 <= moveRow <= row
        invariant forall r, c | InGrid(r, c) ::
                    matrix[Idx(r, c)] == if moveRow < r <= row && InRange(bucket, r, c)
                                         then ShiftedOcc(g0, bucket, row, r, c) else g0.occ[Idx(r, c)]
        invariant forall r, c | InGrid(r, c) ::
                    colors[Idx(r, c)] == if moveRow < r <= row && InRange(bucket, r, c)
                                         then ShiftedColor(g0, bucket, row, r, c) else g0.color[Idx(r, c)]
      {
        ghost var pre := matrix[..];
        CopyRowDown(moveRow);
        forall r, c | InGrid(r, c) && r == moveRow && InRange(bucket, r, c)
          ensures matrix[Idx(r, c)] == ShiftedOcc(g0, bucket, row, r, c)
        {
          assert pre[Idx(r - 1, c)] == g0.occ[Idx(r - 1, c)];
        }
        moveRow := moveRow - 1;
      }
    }

    /**
     * `clearFullLines`: scans from row 20 up to row 1; a full line is removed
     * and the same row examined again. The result is `ClearLines`, whose
     * properties are proved in module Board.
     */
    method ClearFullLines() returns (linesCleared: int)
      requires Valid()
      modifies matrix, colors
      ensures Snapshot() == ClearLines(old(Snapshot()), bucket).grid
      ensures linesCleared == ClearLines(old(Snapshot()), bucket).lines
    {
      ghost var g0 := Snapshot();
      linesCleared := 0;
      var row := Height - 2;
      while row >= 1
        invariant 0 <= row < Height - 1 && 0 <= linesCleared
        invariant ClearFrom(Snapshot(), bucket, row, linesCleared) == ClearLines(g0, bucket)
        decreases row + BlockRows(Snapshot(), bucket, row + 1)
      {
        var lineFull := IsLineFull(row);
        if lineFull {
          linesCleared := linesCleared + 1;
          ghost var before := Snapshot();
          ShiftRemovesBlockRow(before, bucket, row);
          ShiftDownFrom(row);
          row := row + 1;
        }
        row := row - 1;
      }
    }
  }
}
