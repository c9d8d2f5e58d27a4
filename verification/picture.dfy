/**
 * The "build a picture" field: a rectangular field with a target mask that
 * the pieces must fill. A piece cell outside the target, or off the grid,
 * ends the game, and so does completing the picture.
 */
module Pictures {
  import opened Figures
  import opened Board
  import opened Fields

  const PictureSquare: int := 1
  const PictureDiamond: int := 2
  const PictureHouse: int := 3
  const PictureArrow: int := 4
  const PictureButterfly: int := 5
  const PictureStar: int := 6
  const PictureTriangle: int := 7

  /** The square: rows 11..20, columns 6..15. */
  predicate SquareCell(r: int, c: int) {
    11 <= r < 21 && 6 <= c < 16
  }

  /** Width of row `t` of the triangle, counted from its apex: at least 1. */
  function TriWidth(t: int): int {
    var w := (t * 19) / 16;
    if w < 1 then 1 else w
  }

  /** First column of row `t` of the triangle, which is centred on a 19-column base starting at column 1. */
  function TriStart(t: int): int {
    1 + (19 - TriWidth(t)) / 2
  }

  /** The triangle: its 16 rows are grid rows 5..20. */
  predicate TriangleCell(r: int, c: int) {
    var t := r - 5;
    0 <= t < 16 && TriStart(t) <= c < TriStart(t) + TriWidth(t)
  }

  /**
   * Whether (r, c) belongs to picture `pictureType`. The diamond, house,
   * arrow, butterfly and star are empty; an unknown type is the square.
   */
  predicate InPicture(pictureType: int, r: int, c: int) {
    InGrid(r, c)
    && if pictureType == PictureTriangle then TriangleCell(r, c)
       else if PictureDiamond <= pictureType <= PictureStar then false
       else SquareCell(r, c)
  }

  /** The target mask of a picture. */
  function TargetOf(pictureType: int): (m: seq<bool>)
    ensures |m| == Cells
  {
    seq(Cells, k requires 0 <= k < Cells => InPicture(pictureType, RowOf(k), ColOf(k)))
  }

  const NoCells: seq<bool> := seq(Cells, _ => false)
  const NoColors: seq<string> := seq(Cells, _ => Blank)

  /** `isInTargetArea` on a mask: false off the grid. */
  predicate InTarget(target: seq<bool>, r: int, c: int)
    requires |target| == Cells
  {
    InGrid(r, c) && target[Idx(r, c)]
  }

  /** `isPictureComplete`: every target cell is set in the current picture. */
  predicate Complete(target: seq<bool>, current: seq<bool>)
    requires |target| == |current|
  {
    forall k | 0 <= k < |target| :: target[k] ==> current[k]
  }

  /** Every set cell of `current` is a target cell. */
  predicate Within(current: seq<bool>, target: seq<bool>)
    requires |target| == |current|
  {
    forall k | 0 <= k < |target| :: current[k] ==> target[k]
  }

  /** The current picture after a piece with `shape` at (x, y) has set the target cells it covers. */
  function Mark(target: seq<bool>, current: seq<bool>, shape: Bitmap, x: int, y: int): (m: seq<bool>)
    requires |target| == Cells && |current| == Cells && shape.Valid()
    ensures |m| == Cells
  {
    seq(Cells, k requires 0 <= k < Cells => current[k] || (shape.At(RowOf(k) - y, ColOf(k) - x) && target[k]))
  }

  /** Some occupied cell of the piece lands in the target. */
  predicate Reaches(target: seq<bool>, shape: Bitmap, x: int, y: int)
    requires |target| == Cells && shape.Valid()
  {
    exists a, b | 0 <= a < shape.height && 0 <= b < shape.width :: shape.At(a, b) && InTarget(target, y + a, x + b)
  }

  /** Some occupied cell of the piece lands outside the target or off the grid. */
  predicate Strays(target: seq<bool>, shape: Bitmap, x: int, y: int)
    requires |target| == Cells && shape.Valid()
  {
    exists a, b | 0 <= a < shape.height && 0 <= b < shape.width :: shape.At(a, b) && !InTarget(target, y + a, x + b)
  }

  /** Whether piece cell (r - y, c - x) is occupied and comes before (i, j) in row-major order. */
  predicate Covered(shape: Bitmap, x: int, y: int, i: int, j: int, r: int, c: int)
    requires shape.Valid()
  {
    shape.At(r - y, c - x) && Before(r - y, c - x, i, j)
  }

  /** Sequences of cell length that agree on every (r, c) are equal. */
  lemma CellsExt<T>(s: seq<T>, t: seq<T>)
    requires |s| == Cells && |t| == Cells
    requires forall r, c | InGrid(r, c) :: s[Idx(r, c)] == t[Idx(r, c)]
    ensures s == t
  {
    forall k | 0 <= k < Cells
      ensures s[k] == t[k]
    {
      RowColRoundTrip(k);
    }
  }

  /** The occupancy, colours, current picture and picture colours of the picture field, as values. */
  datatype Marks = Marks(occ: seq<bool>, color: seq<string>, current: seq<bool>, paint: seq<string>) {
    predicate Sized() {
      |occ| == Cells && |color| == Cells && |current| == Cells && |paint| == Cells
    }

    function Grid(): Board.Grid
      requires Sized()
    {
      Board.Grid(occ, color)
    }
  }

  /**
   * One occupied piece cell at (r, c): nothing off the grid; on it the cell
   * is occupied in `color`, and a target cell is also set in the current
   * picture and painted.
   */
  function PutCell(s: Marks, target: seq<bool>, r: int, c: int, color: string): (t: Marks)
    requires s.Sized() && |target| == Cells
    ensures t.Sized()
  {
    if !InGrid(r, c) then s
    else
      var k := Idx(r, c);
      var t := s.(occ := s.occ[k := true], color := s.color[k := WriteColor(s.color[k], true, color)]);
      if target[k] then t.(current := t.current[k := true], paint := t.paint[k := color]) else t
  }

  /**
   * What `placeFigure` leaves: the grid as `Place` on the rectangle says, the
   * current picture marked, and the target cells under the piece painted.
   */
  ghost predicate Placed(s0: Marks, s: Marks, target: seq<bool>, shape: Bitmap, x: int, y: int, color: string)
    requires s0.Sized() && s.Sized() && |target| == Cells && shape.Valid()
  {
    s.Grid() == Place(s0.Grid(), false, shape, x, y, color)
    && s.current == Mark(target, s0.current, shape, x, y)
    && forall r, c | InGrid(r, c) ::
         s.paint[Idx(r, c)] == if shape.At(r - y, c - x) && target[Idx(r, c)] then color else s0.paint[Idx(r, c)]
  }

  /**
   * The loop state of `placeFigure` once the piece cells before (i, j) in
   * row-major order are placed; the flags say whether one of them landed in
   * the target and whether one strayed.
   */
  ghost predicate Progress(s0: Marks, s: Marks, target: seq<bool>, shape: Bitmap, x: int, y: int, color: string,
                           i: int, j: int, placed: bool, touched: bool)
    requires s0.Sized() && s.Sized() && |target| == Cells && shape.Valid()
  {
    GridUpTo(s0, s, shape, x, y, color, i, j)
    && PictureUpTo(s0, s, target, shape, x, y, color, i, j)
    && FlagsUpTo(target, shape, x, y, i, j, placed, touched)
  }

  ghost predicate GridUpTo(s0: Marks, s: Marks, shape: Bitmap, x: int, y: int, color: string, i: int, j: int)
    requires s0.Sized() && s.Sized() && shape.Valid()
  {
    (forall r, c | InGrid(r, c) ::
       s.occ[Idx(r, c)] == (s0.occ[Idx(r, c)] || Covered(shape, x, y, i, j, r, c)))
    && (forall r, c | InGrid(r, c) ::
          s.color[Idx(r, c)] == if Covered(shape, x, y, i, j, r, c)
                                then WriteColor(s0.color[Idx(r, c)], true, color) else s0.color[Idx(r, c)])
  }

  ghost predicate PictureUpTo(s0: Marks, s: Marks, target: seq<bool>, shape: Bitmap, x: int, y: int, color: string, i: int, j: int)
    requires s0.Sized() && s.Sized() && |target| == Cells && shape.Valid()
  {
    (forall r, c | InGrid(r, c) ::
       s.current[Idx(r, c)] == (s0.current[Idx(r, c)] || (Covered(shape, x, y, i, j, r, c) && target[Idx(r, c)])))
    && (forall r, c | InGrid(r, c) ::
          s.paint[Idx(r, c)] == if Covered(shape, x, y, i, j, r, c) && target[Idx(r, c)] then color else s0.paint[Idx(r, c)])
  }

  ghost predicate FlagsUpTo(target: seq<bool>, shape: Bitmap, x: int, y: int, i: int, j: int, placed: bool, touched: bool)
    requires |target| == Cells && shape.Valid()
  {
    (placed == exists a, b | 0 <= a < shape.height && 0 <= b < shape.width && Before(a, b, i, j) ::
                 shape.At(a, b) && InTarget(target, y + a, x + b))
    && (touched == exists a, b | 0 <= a < shape.height && 0 <= b < shape.width && Before(a, b, i, j) ::
                     shape.At(a, b) && !InTarget(target, y + a, x + b))
  }

  lemma ProgressStart(s0: Marks, target: seq<bool>, shape: Bitmap, x: int, y: int, color: string)
    requires s0.Sized() && |target| == Cells && shape.Valid()
    ensures Progress(s0, s0, target, shape, x, y, color, 0, 0, false, false)
  {
  }

  /** Covering cell (i, j) adds exactly that cell to the covered ones. */
  lemma CoveredStep(shape: Bitmap, x: int, y: int, i: int, j: int, r: int, c: int)
    requires shape.Valid()
    ensures Covered(shape, x, y, i, j + 1, r, c) == (Covered(shape, x, y, i, j, r, c) || (shape.At(i, j) && r == y + i && c == x + j))
  {
  }

  /** Distinct on-grid cells have distinct indices. */
  lemma IdxDistinct(r: int, c: int, r': int, c': int)
    requires InGrid(r, c) && InGrid(r', c') && (r != r' || c != c')
    ensures Idx(r, c) != Idx(r', c')
  {
    IdxRoundTrip(r, c);
    IdxRoundTrip(r', c');
  }

  lemma GridStep(s0: Marks, s: Marks, target: seq<bool>, shape: Bitmap, x: int, y: int, color: string, i: int, j: int)
    requires s0.Sized() && s.Sized() && |target| == Cells && shape.Valid()
    requires GridUpTo(s0, s, shape, x, y, color, i, j)
    requires shape.At(i, j)
    ensures GridUpTo(s0, PutCell(s, target, y + i, x + j, color), shape, x, y, color, i, j + 1)
  {
    var t := PutCell(s, target, y + i, x + j, color);
    forall r, c | InGrid(r, c)
      ensures t.occ[Idx(r, c)] == (s0.occ[Idx(r, c)] || Covered(shape, x, y, i, j + 1, r, c))
      ensures t.color[Idx(r, c)] == if Covered(shape, x, y, i, j + 1, r, c)
                                    then WriteColor(s0.color[Idx(r, c)], true, color) else s0.color[Idx(r, c)]
    {
      CoveredStep(shape, x, y, i, j, r, c);
      if InGrid(y + i, x + j) && (r != y + i || c != x + j) {
        IdxDistinct(r, c, y + i, x + j);
      }
    }
  }

  lemma PictureStep(s0: Marks, s: Marks, target: seq<bool>, shape: Bitmap, x: int, y: int, color: string, i: int, j: int)
    requires s0.Sized() && s.Sized() && |target| == Cells && shape.Valid()
    requires PictureUpTo(s0, s, target, shape, x, y, color, i, j)
    requires shape.At(i, j)
    ensures PictureUpTo(s0, PutCell(s, target, y + i, x + j, color), target, shape, x, y, color, i, j + 1)
  {
    var t := PutCell(s, target, y + i, x + j, color);
    forall r, c | InGrid(r, c)
      ensures t.current[Idx(r, c)] == (s0.current[Idx(r, c)] || (Covered(shape, x, y, i, j + 1, r, c) && target[Idx(r, c)]))
      ensures t.paint[Idx(r, c)] == if Covered(shape, x, y, i, j + 1, r, c) && target[Idx(r, c)] then color else s0.paint[Idx(r, c)]
    {
      CoveredStep(shape, x, y, i, j, r, c);
      if InGrid(y + i, x + j) && (r != y + i || c != x + j) {
        IdxDistinct(r, c, y + i, x + j);
      }
    }
  }

  lemma FlagsStep(target: seq<bool>, shape: Bitmap, x: int, y: int, i: int, j: int, placed: bool, touched: bool)
    requires |target| == Cells && shape.Valid() && 0 <= i < shape.height && 0 <= j < shape.width
    requires FlagsUpTo(target, shape, x, y, i, j, placed, touched)
    ensures shape.At(i, j) ==>
              FlagsUpTo(target, shape, x, y, i, j + 1, placed || InTarget(target, y + i, x + j), touched || !InTarget(target, y + i, x + j))
    ensures !shape.At(i, j) ==> FlagsUpTo(target, shape, x, y, i, j + 1, placed, touched)
  {
  }

  /** Handling piece cell (i, j) moves the loop state from (i, j) to (i, j + 1). */
  lemma ProgressStep(s0: Marks, s: Marks, t: Marks, target: seq<bool>, shape: Bitmap, x: int, y: int, color: string,
                     i: int, j: int, placed: bool, touched: bool, placed': bool, touched': bool)
    requires s0.Sized() && s.Sized() && t.Sized() && |target| == Cells && shape.Valid()
    requires 0 <= i < shape.height && 0 <= j < shape.width
    requires Progress(s0, s, target, shape, x, y, color, i, j, placed, touched)
    requires t == if shape.At(i, j) then PutCell(s, target, y + i, x + j, color) else s
    requires placed' == (placed || (shape.At(i, j) && InTarget(target, y + i, x + j)))
    requires touched' == (touched || (shape.At(i, j) && !InTarget(target, y + i, x + j)))
    ensures Progress(s0, t, target, shape, x, y, color, i, j + 1, placed', touched')
  {
    FlagsStep(target, shape, x, y, i, j, placed, touched);
    if shape.At(i, j) {
      GridStep(s0, s, target, shape, x, y, color, i, j);
      PictureStep(s0, s, target, shape, x, y, color, i, j);
    } else {
      forall r, c | InGrid(r, c)
        ensures Covered(shape, x, y, i, j + 1, r, c) == Covered(shape, x, y, i, j, r, c)
      {
        CoveredStep(shape, x, y, i, j, r, c);
      }
    }
  }

  /** The end of a row of the piece is the start of the next. */
  lemma ProgressNextRow(s0: Marks, s: Marks, target: seq<bool>, shape: Bitmap, x: int, y: int, color: string,
                        i: int, placed: bool, touched: bool)
    requires s0.Sized() && s.Sized() && |target| == Cells && shape.Valid()
    requires Progress(s0, s, target, shape, x, y, color, i, shape.width, placed, touched)
    ensures Progress(s0, s, target, shape, x, y, color, i + 1, 0, placed, touched)
  {
    forall r, c | InGrid(r, c)
      ensures Covered(shape, x, y, i, shape.width, r, c) == Covered(shape, x, y, i + 1, 0, r, c)
    {
    }
  }

  /** Once every row is handled, the loop state is the result `placeFigure` promises. */
  lemma ProgressDone(s0: Marks, s: Marks, target: seq<bool>, shape: Bitmap, x: int, y: int, color: string,
                     placed: bool, touched: bool)
    requires s0.Sized() && s.Sized() && |target| == Cells && shape.Valid()
    requires Progress(s0, s, target, shape, x, y, color, shape.height, 0, placed, touched)
    ensures Placed(s0, s, target, shape, x, y, color)
    ensures placed == Reaches(target, shape, x, y) && touched == Strays(target, shape, x, y)
  {
    var g := Place(s0.Grid(), false, shape, x, y, color);
    forall r, c | InGrid(r, c)
      ensures s.occ[Idx(r, c)] == g.occ[Idx(r, c)] && s.color[Idx(r, c)] == g.color[Idx(r, c)]
      ensures s.current[Idx(r, c)] == Mark(target, s0.current, shape, x, y)[Idx(r, c)]
    {
      IdxRoundTrip(r, c);
    }
    GridExt(s.Grid(), g);
    CellsExt(s.current, Mark(target, s0.current, shape, x, y));
  }

  /** The two `setch`-written vectors after writing one on-grid cell are the old vectors updated at that cell. */
  lemma SetchAsUpdate(s0: Marks, occ: seq<bool>, color: seq<string>, r: int, c: int, paint: string)
    requires s0.Sized() && |occ| == Cells && |color| == Cells && InGrid(r, c)
    requires occ[Idx(r, c)] && color[Idx(r, c)] == WriteColor(s0.color[Idx(r, c)], true, paint)
    requires forall r', c' | InGrid(r', c') && (r' != r || c' != c) ::
               occ[Idx(r', c')] == s0.occ[Idx(r', c')] && color[Idx(r', c')] == s0.color[Idx(r', c')]
    ensures occ == s0.occ[Idx(r, c) := true]
    ensures color == s0.color[Idx(r, c) := WriteColor(s0.color[Idx(r, c)], true, paint)]
  {
    IdxRoundTrip(r, c);
    forall r', c' | InGrid(r', c') && (r' != r || c' != c)
      ensures Idx(r', c') != Idx(r, c)
    {
      IdxRoundTrip(r', c');
    }
    CellsExt(occ, s0.occ[Idx(r, c) := true]);
    CellsExt(color, s0.color[Idx(r, c) := WriteColor(s0.color[Idx(r, c)], true, paint)]);
  }

  class PictureField {
    /** The occupancy grid, a rectangular field. */
    const field: Field
    const targetPicture: array<bool>
    const currentPicture: array<bool>
    const pictureColors: array<string>
    var currentPictureType: int
    var gameOver: bool

    ghost predicate Valid()
      reads this, field
    {
      field.Valid() && !field.bucket
      && targetPicture.Length == Cells && currentPicture.Length == Cells && pictureColors.Length == Cells
      && targetPicture != currentPicture
      && field.matrix != targetPicture && field.matrix != currentPicture && field.colors != pictureColors
    }

    /**
     * The picture-mode field: a fresh rectangular field with its frame, empty
     * masks, and the target of `pictureType`.
     */
    constructor (pictureType: int)
      ensures Valid() && field.Snapshot() == InitialGrid(false)
      ensures targetPicture[..] == TargetOf(pictureType)
      ensures currentPicture[..] == NoCells && pictureColors[..] == NoColors
      ensures currentPictureType == pictureType && !gameOver
    {
      field := new Field();
      targetPicture := new bool[Cells](_ => false);
      currentPicture := new bool[Cells](_ => false);
      pictureColors := new string[Cells](_ => Blank);
      currentPictureType := pictureType;
      gameOver := false;
      new;
      RepaintFrame();
      assert pictureColors[..] == NoColors;
      LoadPicture(pictureType);
    }

    /** The constructor's own wall loop, which rewrites the frame the field already has. */
    method RepaintFrame()
      requires Valid() && field.Snapshot() == InitialGrid(false)
      modifies field.matrix, field.colors
      ensures field.Snapshot() == InitialGrid(false)
    {
      ghost var g0 := InitialGrid(false);
      var i := 0;
      while i < Width
        invariant 0 <= i <= Width && Valid()
        invariant forall r, c | InGrid(r, c) :: field.matrix[Idx(r, c)] == g0.occ[Idx(r, c)]
        invariant forall r, c | InGrid(r, c) :: field.colors[Idx(r, c)] == g0.color[Idx(r, c)]
      {
        FreshRectangle(Height - 1, i);
        FreshRectangle(i, 0);
        FreshRectangle(i, Width - 1);
        field.Setch(Height - 1, i, true, WallColor);
        field.Setch(i, 0, true, WallColor);
        field.Setch(i, Width - 1, true, WallColor);
        i := i + 1;
      }
      GridExt(field.Snapshot(), g0);
    }

    /** `loadPicture`: both masks are cleared, then the target of the type is drawn. */
    method LoadPicture(pictureType: int)
      requires Valid()
      modifies this, targetPicture, currentPicture
      ensures Valid()
      ensures targetPicture[..] == TargetOf(pictureType) && currentPicture[..] == NoCells
      ensures currentPictureType == pictureType && gameOver == old(gameOver)
    {
      currentPictureType := pictureType;
      var i := 0;
      while i < Cells
        invariant 0 <= i <= Cells
        invariant forall k | 0 <= k < i :: !targetPicture[k] && !currentPicture[k]
        modifies targetPicture, currentPicture
      {
        targetPicture[i] := false;
        currentPicture[i] := false;
        i := i + 1;
      }
      assert currentPicture[..] == NoCells;
      if pictureType == PictureTriangle {
        DrawTriangle();
      } else if PictureDiamond <= pictureType <= PictureStar {
        // the diamond, house, arrow, butterfly and star draw nothing
        CellsExt(targetPicture[..], TargetOf(pictureType));
      } else {
        DrawSquare();
        CellsExt(targetPicture[..], TargetOf(pictureType));
      }
    }

    /** `drawSquare`. */
    method DrawSquare()
      requires Valid()
      modifies targetPicture
      ensures forall r, c | InGrid(r, c) :: targetPicture[Idx(r, c)] == SquareCell(r, c)
    {
      var i := 0;
      while i < Cells
        invariant 0 <= i <= Cells
        invariant forall k | 0 <= k < i :: !targetPicture[k]
      {
        targetPicture[i] := false;
        i := i + 1;
      }
      var row := 11;
      while row < 21
        invariant 11 <= row <= 21
        invariant forall r, c | InGrid(r, c) :: targetPicture[Idx(r, c)] == (SquareCell(r, c) && r < row)
      {
        var col := 6;
        while col < 16
          invariant 6 <= col <= 16
          invariant forall r, c | InGrid(r, c) ::
                      targetPicture[Idx(r, c)] == (SquareCell(r, c) && Before(r, c, row, col))
        {
          if IsValidPosition(row, col) {
            targetPicture[row * Width + col] := true;
          }
          col := col + 1;
        }
        row := row + 1;
      }
    }

    /** `drawTriangle`. */
    method DrawTriangle()
      requires Valid()
      modifies targetPicture
      ensures forall r, c | InGrid(r, c) :: targetPicture[Idx(r, c)] == TriangleCell(r, c)
    {
      var i := 0;
      while i < Cells
        invariant 0 <= i <= Cells
        invariant forall k | 0 <= k < i :: !targetPicture[k]
      {
        targetPicture[i] := false;
        i := i + 1;
      }
      var row := 0;
      while row < 16
        invariant 0 <= row <= 16
        invariant forall r, c | InGrid(r, c) :: targetPicture[Idx(r, c)] == (TriangleCell(r, c) && r - 5 < row)
      {
        var rowWidth := (row * 19) / 16;
        if rowWidth < 1 {
          rowWidth := 1;
        }
        var colStart := 1 + (19 - rowWidth) / 2;
        var colEnd := colStart + rowWidth;
        var col := colStart;
        while col < colEnd
          invariant colStart <= col <= colEnd
          invariant forall r, c | InGrid(r, c) ::
                      targetPicture[Idx(r, c)] == (TriangleCell(r, c) && Before(r - 5, c, row, col))
        {
          var fieldRow := 5 + row;
          if fieldRow >= 0 && fieldRow < Height && col >= 0 && col < Width {
            targetPicture[fieldRow * Width + col] := true;
          }
          col := col + 1;
        }
        row := row + 1;
      }
    }

    /** `isValidPosition` of the picture field: the whole 22 x 22 grid, as on the rectangle. */
    function IsValidPosition(row: int, col: int): (b: bool)
      ensures b <==> InGrid(row, col)
      ensures b == ValidAt(false, row, col)
    {
      row >= 0 && row < Height && col >= 0 && col < Width
    }

    /** `isInTargetArea`: the target mask at an on-grid cell, false off the grid. */
    function IsInTargetArea(row: int, col: int): (b: bool)
      requires Valid()
      reads this, field, targetPicture
      ensures !InGrid(row, col) ==> !b
      ensures InGrid(row, col) ==> b == targetPicture[Idx(row, col)]
    {
      if row >= 0 && row < Height && col >= 0 && col < Width then targetPicture[row * Width + col] else false
    }

    /** `isPictureComplete`: scans for a target cell not yet set. */
    method IsPictureComplete() returns (complete: bool)
      requires Valid()
      ensures complete == Complete(targetPicture[..], currentPicture[..])
    {
      var i := 0;
      while i < Cells
        invariant 0 <= i <= Cells
        invariant forall k | 0 <= k < i :: targetPicture[k] ==> currentPicture[k]
      {
        if targetPicture[i] && !currentPicture[i] {
          return false;
        }
        i := i + 1;
      }
      return true;
    }

    /**
     * `placeFigure` of the picture field: every on-grid cell under the piece
     * becomes occupied; those in the target are also set in the current
     * picture with the piece's colour; a cell outside the target or off the
     * grid ends the game, and so does completing the picture.
     */
    method PlaceFigure(figure: Figure)
      requires Valid() && figure.Valid()
      modifies this, field.matrix, field.colors, currentPicture, pictureColors
      ensures Valid() && currentPictureType == old(currentPictureType)
      ensures Placed(old(StateOf()), StateOf(), targetPicture[..], figure.Shape(), figure.startx, figure.starty, figure.color)
      ensures gameOver == (old(gameOver)
                           || Strays(targetPicture[..], figure.Shape(), figure.startx, figure.starty)
                           || (Reaches(targetPicture[..], figure.Shape(), figure.startx, figure.starty)
                               && Complete(targetPicture[..], currentPicture[..])))
    {
      var placedInTarget, touchedBorder := PlaceCells(figure);
      if placedInTarget {
        var complete := IsPictureComplete();
        if complete {
          gameOver := true;
        }
      }
      if touchedBorder {
        gameOver := true;
      }
    }

    /** The four cell vectors `placeFigure` writes, as values. */
    ghost function StateOf(): (s: Marks)
      requires Valid()
      reads this, field, field.matrix, field.colors, currentPicture, pictureColors
      ensures s.Sized()
    {
      Marks(field.matrix[..], field.colors[..], currentPicture[..], pictureColors[..])
    }

    /** The cell loop of `placeFigure`, reporting whether a cell landed in the target and whether one strayed. */
    method PlaceCells(figure: Figure) returns (placedInTarget: bool, touchedBorder: bool)
      requires Valid() && figure.Valid()
      modifies field.matrix, field.colors, currentPicture, pictureColors
      ensures Valid()
      ensures Placed(old(StateOf()), StateOf(), targetPicture[..], figure.Shape(), figure.startx, figure.starty, figure.color)
      ensures placedInTarget == Reaches(targetPicture[..], figure.Shape(), figure.startx, figure.starty)
      ensures touchedBorder == Strays(targetPicture[..], figure.Shape(), figure.startx, figure.starty)
    {
      ghost var s0 := StateOf();
      ghost var target := targetPicture[..];
      ghost var shape := figure.Shape();
      var x := figure.startx;
      var y := figure.starty;
      var color := figure.color;
      placedInTarget, touchedBorder := false, false;
      ProgressStart(s0, target, shape, x, y, color);
      var i := 0;
      while i < figure.height
        invariant 0 <= i <= figure.height && Valid() && targetPicture[..] == target
        invariant Progress(s0, StateOf(), target, shape, x, y, color, i, 0, placedInTarget, touchedBorder)
      {
        var j := 0;
        while j < figure.width
          invariant 0 <= j <= figure.width && Valid() && targetPicture[..] == target
          invariant Progress(s0, StateOf(), target, shape, x, y, color, i, j, placedInTarget, touchedBorder)
        {
          placedInTarget, touchedBorder := PlaceCell(figure, i, j, placedInTarget, touchedBorder, s0);
          j := j + 1;
        }
        ProgressNextRow(s0, StateOf(), target, shape, x, y, color, i, placedInTarget, touchedBorder);
        i := i + 1;
      }
      ProgressDone(s0, StateOf(), target, shape, x, y, color, placedInTarget, touchedBorder);
    }

    /** Cell (i, j) of the piece in `placeFigure`: an occupied one is written and flagged. */
    method PlaceCell(figure: Figure, i: int, j: int, placedIn: bool, touchedIn: bool, ghost s0: Marks)
      returns (placedInTarget: bool, touchedBorder: bool)
      requires Valid() && figure.Valid() && 0 <= i < figure.height && 0 <= j < figure.width && s0.Sized()
      requires Progress(s0, StateOf(), targetPicture[..], figure.Shape(), figure.startx, figure.starty, figure.color,
                        i, j, placedIn, touchedIn)
      modifies field.matrix, field.colors, currentPicture, pictureColors
      ensures Valid()
      ensures Progress(s0, StateOf(), targetPicture[..], figure.Shape(), figure.startx, figure.starty, figure.color,
                       i, j + 1, placedInTarget, touchedBorder)
    {
      ghost var before := StateOf();
      placedInTarget, touchedBorder := placedIn, touchedIn;
      if figure.GetChar(i, j) {
        var inTarget := MarkCell(figure.starty + i, figure.startx + j, figure.color);
        if inTarget {
          placedInTarget := true;
        } else {
          touchedBorder := true;
        }
      }
      ProgressStep(s0, before, StateOf(), targetPicture[..], figure.Shape(), figure.startx, figure.starty, figure.color,
                   i, j, placedIn, touchedIn, placedInTarget, touchedBorder);
    }

    /**
     * One occupied cell of the piece in `placeFigure`: on the grid it is
     * occupied, and inside the target also set in the current picture with
     * the piece's colour. The result says whether the cell is in the target.
     */
    method MarkCell(fieldy: int, fieldx: int, color: string) returns (inTarget: bool)
      requires Valid()
      modifies field.matrix, field.colors, currentPicture, pictureColors
      ensures Valid()
      ensures inTarget == InTarget(targetPicture[..], fieldy, fieldx)
      ensures StateOf() == PutCell(old(StateOf()), targetPicture[..], fieldy, fieldx, color)
    {
      ghost var s0 := StateOf();
      if IsValidPosition(fieldy, fieldx) {
        IdxRoundTrip(fieldy, fieldx);
        var k := fieldy * Width + fieldx;
        if IsInTargetArea(fieldy, fieldx) {
          inTarget := true;
          currentPicture[k] := true;
          pictureColors[k] := color;
          field.Setch(fieldy, fieldx, true, color);
        } else {
          inTarget := false;
          field.Setch(fieldy, fieldx, true, color);
        }
        SetchAsUpdate(s0, field.matrix[..], field.colors[..], fieldy, fieldx, color);
      } else {
        inTarget := false;
      }
    }

    /** `resetGame`: the game resumes with an empty current picture; the target and the grid stay. */
    method ResetGame()
      requires Valid()
      modifies this, currentPicture, pictureColors
      ensures Valid() && !gameOver && currentPictureType == old(currentPictureType)
      ensures currentPicture[..] == NoCells && pictureColors[..] == NoColors
    {
      gameOver := false;
      var i := 0;
      while i < Cells
        invariant 0 <= i <= Cells
        invariant forall k | 0 <= k < i :: !currentPicture[k] && pictureColors[k] == Blank
        modifies currentPicture, pictureColors
      {
        currentPicture[i] := false;
        pictureColors[i] := Blank;
        i := i + 1;
      }
      assert currentPicture[..] == NoCells;
      assert pictureColors[..] == NoColors;
    }
  }

  // ---------------------------------------------------------------------
  // Properties of the targets and of placement

  /** Marking only sets cells, and only target cells: the current picture stays inside the target. */
  lemma MarkStaysInTarget(target: seq<bool>, current: seq<bool>, shape: Bitmap, x: int, y: int)
    requires |target| == Cells && |current| == Cells && shape.Valid()
    requires Within(current, target)
    ensures Within(Mark(target, current, shape, x, y), target)
    ensures forall k | 0 <= k < Cells :: current[k] ==> Mark(target, current, shape, x, y)[k]
  {
  }

  /** A finished picture stays finished, whatever is placed next. */
  lemma CompleteStaysComplete(target: seq<bool>, current: seq<bool>, shape: Bitmap, x: int, y: int)
    requires |target| == Cells && |current| == Cells && shape.Valid()
    requires Complete(target, current)
    ensures Complete(target, Mark(target, current, shape, x, y))
  {
  }

  /**
   * The empty pictures (diamond, house, arrow, butterfly, star) are complete
   * from the start, and any piece with an occupied cell strays from them.
   */
  lemma EmptyPictures(pictureType: int, current: seq<bool>, shape: Bitmap, x: int, y: int)
    requires PictureDiamond <= pictureType <= PictureStar
    requires |current| == Cells && shape.Valid() && HasCell(shape)
    ensures Complete(TargetOf(pictureType), current)
    ensures Strays(TargetOf(pictureType), shape, x, y)
    ensures !Reaches(TargetOf(pictureType), shape, x, y)
  {
    var a, b :| 0 <= a < shape.height && 0 <= b < shape.width && shape.At(a, b);
    if InGrid(y + a, x + b) {
      IdxRoundTrip(y + a, x + b);
    }
    assert !InTarget(TargetOf(pictureType), y + a, x + b);
    forall a', b' | 0 <= a' < shape.height && 0 <= b' < shape.width && shape.At(a', b')
      ensures !InTarget(TargetOf(pictureType), y + a', x + b')
    {
      if InGrid(y + a', x + b') {
        IdxRoundTrip(y + a', x + b');
      }
    }
  }

  /** An unknown picture type gets the square's target. */
  lemma UnknownTypeIsSquare(pictureType: int)
    requires pictureType < PictureSquare || pictureType > PictureTriangle
    ensures TargetOf(pictureType) == TargetOf(PictureSquare)
  {
  }

  /** The square's mask holds exactly rows 11..20 and columns 6..15. */
  lemma SquareTarget(r: int, c: int)
    requires InGrid(r, c)
    ensures TargetOf(PictureSquare)[Idx(r, c)] <==> 11 <= r <= 20 && 6 <= c <= 15
  {
    IdxRoundTrip(r, c);
  }

  /** Triangle row widths: 1 at the apex, at most 17, never narrowing towards the base. */
  lemma TriangleWidths(t: int, u: int)
    requires 0 <= t <= u < 16
    ensures TriWidth(0) == 1 && TriWidth(15) == 17
    ensures 1 <= TriWidth(t) <= 17
    ensures TriWidth(t) <= TriWidth(u)
  {
    assert t * 19 <= u * 19;
    assert (t * 19) / 16 <= (u * 19) / 16;
  }

  /** Each row of the triangle spans the row above it. */
  lemma TriangleRowsNest(t: int)
    requires 0 <= t < 15
    ensures TriStart(t + 1) <= TriStart(t)
    ensures TriStart(t) + TriWidth(t) <= TriStart(t + 1) + TriWidth(t + 1)
  {
    TriangleWidths(t, t + 1);
  }

  /**
   * Every picture lies strictly inside the frame: never on the floor or a
   * side wall of the field, so a fresh field has every target cell free.
   */
  lemma PicturesInsideFrame(pictureType: int, r: int, c: int)
    requires InPicture(pictureType, r, c)
    ensures 0 <= r < Height - 1 && 1 <= c < Width - 1
    ensures !Occupied(InitialGrid(false), r, c)
  {
    if pictureType == PictureTriangle {
      TriangleWidths(r - 5, r - 5);
    }
    FreshRectangle(r, c);
  }
}
