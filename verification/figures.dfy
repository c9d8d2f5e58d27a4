/**
 * Falling pieces: the seven kinds, the colour each kind is recognised by,
 * the constant rotation tables, and the `Figure` object whose `Rotate` and
 * `SetPosition` update its fields in place.
 */
module Figures {
  import opened Wrappers

  /** The seven tetromino kinds, in the order the controller spawns them. */
  datatype Kind = O | L | T | I | S | Z | J

  // The ANSI colour strings; the game identifies a piece's kind by them.
  const Magenta: string := "\U{1b}[35m"
  const Cyan: string := "\U{1b}[36m"
  const Yellow: string := "\U{1b}[33m"
  const Blue: string := "\U{1b}[34m"
  const Green: string := "\U{1b}[32m"
  const Red: string := "\U{1b}[31m"
  const White: string := "\U{1b}[37m"

  /** The colour each kind's constructor assigns. */
  function ColorOf(k: Kind): string {
    match k
    case O => Magenta
    case L => Cyan
    case T => Yellow
    case I => Blue
    case S => Green
    case Z => Red
    case J => White
  }

  /** Recognises a piece's kind from its colour string; any other string is no kind. */
  function KindOfColor(color: string): (r: Option<Kind>)
    ensures r.Some? ==> ColorOf(r.value) == color
    ensures forall k :: ColorOf(k) == color ==> r == Some(k)
  {
    if color == Magenta then Some(O)
    else if color == Cyan then Some(L)
    else if color == Yellow then Some(T)
    else if color == Blue then Some(I)
    else if color == Green then Some(S)
    else if color == Red then Some(Z)
    else if color == White then Some(J)
    else None
  }

  /** Distinct kinds carry distinct colours, so the colour determines the kind. */
  lemma ColorsDistinct(k1: Kind, k2: Kind)
    ensures ColorOf(k1) == ColorOf(k2) <==> k1 == k2
  {
    if ColorOf(k1) == ColorOf(k2) {
      assert KindOfColor(ColorOf(k1)) == Some(k2);
    }
  }

  lemma MulLe(a: int, b: int, w: int)
    requires 0 <= a <= b && 0 <= w
    ensures a * w <= b * w
    decreases b - a
  {
    if a < b {
      MulLe(a + 1, b, w);
      assert (a + 1) * w == a * w + w;
    }
  }

  /** Row-major index (i, j) of a `w`-wide box of height `h` lies inside the box. */
  lemma IndexInBox(i: int, j: int, w: int, h: int)
    requires 0 <= i < h && 0 <= j < w
    ensures 0 <= i * w + j < w * h
  {
    MulLe(i + 1, h, w);
    assert (i + 1) * w == i * w + w;
    MulLe(0, i, w);
    assert h * w == w * h;
  }

  /** A piece's shape: a row-major bitmap over its bounding box. */
  datatype Bitmap = Bitmap(cells: seq<bool>, width: int, height: int) {
    predicate Valid() {
      0 <= width && 0 <= height && |cells| == width * height
    }

    /** Whether cell (i, j) of the box is occupied; false for every index outside the box. */
    function At(i: int, j: int): (b: bool)
      requires Valid()
      ensures b ==> 0 <= i < height && 0 <= j < width
    {
      if 0 <= i < height && 0 <= j < width then
        IndexInBox(i, j, width, height);
        cells[i * width + j]
      else
        false
    }
  }

  function CountFrom(s: seq<bool>, from: nat): nat
    decreases |s| - from
  {
    if from >= |s| then 0 else (if s[from] then 1 else 0) + CountFrom(s, from + 1)
  }

  /** Number of occupied cells of a bitmap. */
  function CellCount(b: Bitmap): nat {
    CountFrom(b.cells, 0)
  }

  // Rotation tables: entry s is the 3x3 (4x4 for I) bitmap of rotation state s.
  const TStates: seq<seq<bool>> := [
    [false, true, false, true, true, true, false, false, false],
    [false, true, false, false, true, true, false, true, false],
    [false, false, false, true, true, true, false, true, false],
    [false, true, false, true, true, false, false, true, false]]
  const LStates: seq<seq<bool>> := [
    [true, false, false, true, false, false, true, true, false],
    [false, false, false, true, true, true, true, false, false],
    [false, true, true, false, false, true, false, false, true],
    [false, false, false, false, false, true, true, true, true]]
  const JStates: seq<seq<bool>> := [
    [false, false, true, false, false, true, false, true, true],
    [false, false, false, true, true, true, false, false, true],
    [true, true, false, true, false, false, true, false, false],
    [true, false, false, true, true, true, false, false, false]]
  const SStates: seq<seq<bool>> := [
    [false, true, true, true, true, false, false, false, false],
    [false, true, false, false, true, true, false, false, true],
    [false, false, false, false, true, true, true, true, false],
    [true, false, false, true, true, false, false, true, false]]
  const ZStates: seq<seq<bool>> := [
    [true, true, false, false, true, true, false, false, false],
    [false, false, true, false, true, true, false, true, false],
    [false, false, false, true, true, false, false, true, true],
    [false, true, false, true, true, false, true, false, false]]
  const IStates: seq<seq<bool>> := [
    [false, false, false, false, true, true, true, true, false, false, false, false, false, false, false, false],
    [false, false, true, false, false, false, true, false, false, false, true, false, false, false, true, false],
    [false, false, false, false, false, false, false, false, true, true, true, true, false, false, false, false],
    [false, true, false, false, false, true, false, false, false, true, false, false, false, true, false, false]]

  /** The table entry `rotate` installs for kind `k` in state `s` (the O piece has no table). */
  function StateBitmap(k: Kind, s: int): Bitmap
    requires k != O && 0 <= s < 4
  {
    match k
    case T => Bitmap(TStates[s], 3, 3)
    case L => Bitmap(LStates[s], 3, 3)
    case J => Bitmap(JStates[s], 3, 3)
    case S => Bitmap(SStates[s], 3, 3)
    case Z => Bitmap(ZStates[s], 3, 3)
    case I => Bitmap(IStates[s], 4, 4)
  }

  /** The shape each kind's constructor writes. */
  function InitialBitmap(k: Kind): Bitmap {
    match k
    case O => Bitmap([true, true, true, true], 2, 2)
    case L => Bitmap([true, false, false,
                      true, false, false,
                      true, true, false], 3, 3)
    case T => Bitmap([false, true, false,
                      true, true, true,
                      false, false, false], 3, 3)
    case I => Bitmap([false, false, false, false,
                      true, true, true, true,
                      false, false, false, false,
                      false, false, false, false], 4, 4)
    case S => Bitmap([false, true, true,
                      true, true, false,
                      false, false, false], 3, 3)
    case Z => Bitmap([true, true, false,
                      false, true, true,
                      false, false, false], 3, 3)
    case J => Bitmap([false, false, true,
                      false, false, true,
                      false, true, true], 3, 3)
  }

  /** The shape of a default-constructed figure: a 2x2 box with no occupied cell. */
  const EmptyBitmap: Bitmap := Bitmap([false, false, false, false], 2, 2)

  /** Every constructor shape is a valid bitmap with exactly four occupied cells. */
  lemma InitialShapesHaveFourCells(k: Kind)
    ensures InitialBitmap(k).Valid() && CellCount(InitialBitmap(k)) == 4
  {
    match k {
      case O => case L => case T => case S => case Z => case J =>
      case I => IStatesHaveFourCells(0);
    }
  }

  /** Every rotation table entry is a valid bitmap with exactly four occupied cells. */
  lemma TableEntriesHaveFourCells(k: Kind, s: int)
    requires k != O && 0 <= s < 4
    ensures StateBitmap(k, s).Valid() && CellCount(StateBitmap(k, s)) == 4
  {
    match k {
      case L => case T => case S => case Z => case J =>
      case I => IStatesHaveFourCells(s);
    }
  }

  lemma IStatesHaveFourCells(s: int)
    requires 0 <= s < 4
    ensures CountFrom(IStates[s], 0) == 4
  {
    if s == 0 {
      assert CountFrom(IStates[0], 8) == 0;
    } else if s == 1 {
      assert CountFrom(IStates[1], 8) == 2;
    } else if s == 2 {
      assert CountFrom(IStates[2], 8) == 4;
    } else {
      assert CountFrom(IStates[3], 8) == 2;
    }
  }

  /** Each rotating kind's constructor shape is its table entry for state 0. */
  lemma InitialIsStateZero(k: Kind)
    requires k != O
    ensures InitialBitmap(k) == StateBitmap(k, 0)
  {
  }

  /** Whether some cell of the bitmap is occupied. */
  predicate HasCell(b: Bitmap)
    requires b.Valid()
  {
    exists i, j | 0 <= i < b.height && 0 <= j < b.width :: b.At(i, j)
  }

  lemma {:induction false} CountedCellExists(s: seq<bool>, from: nat)
    requires CountFrom(s, from) > 0
    ensures exists k :: from <= k < |s| && s[k]
    decreases |s| - from
  {
    if !s[from] {
      CountedCellExists(s, from + 1);
    }
  }

  /** A bitmap whose cell count is positive has an occupied cell at some row and column. */
  lemma CountedCellIsPlaced(b: Bitmap)
    requires b.Valid() && CellCount(b) > 0
    ensures HasCell(b)
  {
    CountedCellExists(b.cells, 0);
    var k :| 0 <= k < |b.cells| && b.cells[k];
    var w, h := b.width, b.height;
    assert w > 0;
    var i, j := k / w, k % w;
    assert k == i * w + j;
    assert b.At(i, j);
  }

  /** Every constructor shape, and every table entry, has an occupied cell. */
  lemma ShapesHaveCells(k: Kind, s: int)
    requires 0 <= s < 4
    ensures InitialBitmap(k).Valid() && HasCell(InitialBitmap(k))
    ensures k != O ==> StateBitmap(k, s).Valid() && HasCell(StateBitmap(k, s))
  {
    InitialShapesHaveFourCells(k);
    CountedCellIsPlaced(InitialBitmap(k));
    if k != O {
      TableEntriesHaveFourCells(k, s);
      CountedCellIsPlaced(StateBitmap(k, s));
    }
  }

  /** The value of a figure: shape, colour, top-left position and rotation state. */
  datatype FigureValue = FigureValue(shape: Bitmap, color: string, x: int, y: int, state: int) {
    predicate Valid() {
      shape.Valid() && 0 <= state < 4
    }
  }

  /** A freshly constructed figure of kind `k`, at the spawn position (10, 1). */
  function Spawned(k: Kind): FigureValue {
    FigureValue(InitialBitmap(k), ColorOf(k), 10, 1, 0)
  }

  /** A default-constructed figure: empty 2x2 shape, no colour, state 0, at (10, 1). */
  const DefaultFigure: FigureValue := FigureValue(EmptyBitmap, "", 10, 1, 0)

  /**
   * One call of `rotate`: the state advances modulo 4 and, for a known rotating
   * kind, the shape becomes the table entry of the new state; the O piece keeps
   * its shape and returns to state 0; an unrecognised colour only advances the state.
   */
  function Rotated(f: FigureValue): (g: FigureValue)
    requires f.Valid()
    ensures g.Valid()
    ensures g.color == f.color && g.x == f.x && g.y == f.y
    ensures g.state == (if f.color == Magenta then 0 else (f.state + 1) % 4)
    ensures KindOfColor(f.color) == None || f.color == Magenta ==> g.shape == f.shape
    ensures KindOfColor(f.color).Some? && f.color != Magenta ==>
              g.shape == StateBitmap(KindOfColor(f.color).value, g.state)
  {
    var s := (f.state + 1) % 4;
    match KindOfColor(f.color)
    case Some(O) => f.(state := 0)
    case Some(k) => TableEntriesHaveFourCells(k, s); f.(shape := StateBitmap(k, s), state := s)
    case None => f.(state := s)
  }

  /** Rotation never empties a shape that has an occupied cell. */
  lemma RotatedKeepsCell(f: FigureValue)
    requires f.Valid() && HasCell(f.shape)
    ensures HasCell(Rotated(f).shape)
  {
    match KindOfColor(f.color)
    case Some(k) =>
      if k != O {
        ShapesHaveCells(k, (f.state + 1) % 4);
      }
    case None =>
  }

  /** `n` consecutive calls of `rotate`. */
  function RotatedTimes(f: FigureValue, n: nat): (g: FigureValue)
    requires f.Valid()
    ensures g.Valid()
    ensures g.color == f.color && g.x == f.x && g.y == f.y
  {
    if n == 0 then f else Rotated(RotatedTimes(f, n - 1))
  }

  /**
   * Rotating a fresh figure of a rotating kind `n` times leaves it holding the
   * table entry for state n mod 4; an O piece is left exactly as constructed.
   */
  lemma RotatedSpawn(k: Kind, x: int, y: int, n: nat)
    ensures Spawned(k).(x := x, y := y).Valid()
    ensures RotatedTimes(Spawned(k).(x := x, y := y), n) ==
              if k == O then Spawned(O).(x := x, y := y)
              else FigureValue(StateBitmap(k, n % 4), ColorOf(k), x, y, n % 4)
  {
    if k == O {
      RotatedSpawnO(x, y, n);
    } else {
      RotatedSpawnTurning(k, x, y, n);
    }
  }

  /** An O piece is left exactly as constructed by any number of rotations. */
  lemma {:induction false} RotatedSpawnO(x: int, y: int, n: nat)
    ensures Spawned(O).(x := x, y := y).Valid()
    ensures RotatedTimes(Spawned(O).(x := x, y := y), n) == Spawned(O).(x := x, y := y)
  {
    InitialShapesHaveFourCells(O);
    if n > 0 {
      RotatedSpawnO(x, y, n - 1);
      assert KindOfColor(ColorOf(O)) == Some(O);
    }
  }

  /** A rotating kind rotated n times holds its table entry for state n mod 4. */
  lemma {:induction false} RotatedSpawnTurning(k: Kind, x: int, y: int, n: nat)
    requires k != O
    ensures Spawned(k).(x := x, y := y).Valid()
    ensures RotatedTimes(Spawned(k).(x := x, y := y), n) == FigureValue(StateBitmap(k, n % 4), ColorOf(k), x, y, n % 4)
  {
    InitialShapesHaveFourCells(k);
    if n == 0 {
      InitialIsStateZero(k);
    } else {
      RotatedSpawnTurning(k, x, y, n - 1);
      RotatedStep(k, x, y, (n - 1) % 4);
      NextState(n);
    }
  }

  /** Rotating a rotating kind in state s gives its table entry for the next state. */
  lemma RotatedStep(k: Kind, x: int, y: int, s: int)
    requires k != O && 0 <= s < 4
    ensures FigureValue(StateBitmap(k, s), ColorOf(k), x, y, s).Valid()
    ensures Rotated(FigureValue(StateBitmap(k, s), ColorOf(k), x, y, s)) ==
              FigureValue(StateBitmap(k, (s + 1) % 4), ColorOf(k), x, y, (s + 1) % 4)
  {
    TableEntriesHaveFourCells(k, s);
    var f := FigureValue(StateBitmap(k, s), ColorOf(k), x, y, s);
    ColorsDistinct(k, O);
    assert f.color != Magenta && KindOfColor(f.color) == Some(k);
    var g := Rotated(f);
    assert g.state == (s + 1) % 4 && g.shape == StateBitmap(k, (s + 1) % 4);
  }

  lemma NextState(n: nat)
    requires n > 0
    ensures ((n - 1) % 4 + 1) % 4 == n % 4
  {
  }

  /** Four consecutive rotations restore a freshly constructed figure exactly. */
  lemma FourRotationsRestore(k: Kind)
    ensures Spawned(k).Valid() && RotatedTimes(Spawned(k), 4) == Spawned(k)
  {
    RotatedSpawn(k, 10, 1, 4);
    if k != O { InitialIsStateZero(k); }
  }

  /** The piece object: shape, colour, position and rotation state, updated in place. */
  class Figure {
    var matrix: seq<bool>
    var color: string
    var width: int
    var height: int
    var startx: int
    var starty: int
    var rotationState: int

    function Value(): FigureValue
      reads this
    {
      FigureValue(Bitmap(matrix, width, height), color, startx, starty, rotationState)
    }

    ghost predicate Valid()
      reads this
    {
      Value().Valid()
    }

    function Shape(): Bitmap
      reads this
    {
      Bitmap(matrix, width, height)
    }

    /** A default figure: an empty 2x2 box, no colour, state 0, at (10, 1). */
    constructor ()
      ensures Valid() && Value() == DefaultFigure
    {
      matrix := [false, false, false, false];
      width, height := 2, 2;
      color := "";
      startx, starty := 10, 1;
      rotationState := 0;
    }

    /** The constructor of the subclass for kind `k`: its shape, its colour, state 0, at (10, 1). */
    constructor Of(k: Kind)
      ensures Valid() && Value() == Spawned(k)
    {
      match k {
      case O =>
        matrix := [true, true, true, true];
        width, height := 2, 2;
        color := Magenta;
      case L =>
        matrix := [true, false, false,
                   true, false, false,
                   true, true, false];
        width, height := 3, 3;
        color := Cyan;
      case T =>
        matrix := [false, true, false,
                   true, true, true,
                   false, false, false];
        width, height := 3, 3;
        color := Yellow;
      case I =>
        matrix := [false, false, false, false,
                   true, true, true, true,
                   false, false, false, false,
                   false, false, false, false];
        width, height := 4, 4;
        color := Blue;
      case S =>
        matrix := [false, true, true,
                   true, true, false,
                   false, false, false];
        width, height := 3, 3;
        color := Green;
      case Z =>
        matrix := [true, true, false,
                   false, true, true,
                   false, false, false];
        width, height := 3, 3;
        color := Red;
      case J =>
        matrix := [false, false, true,
                   false, false, true,
                   false, true, true];
        width, height := 3, 3;
        color := White;
      }
      startx, starty := 10, 1;
      rotationState := 0;
      InitialShapesHaveFourCells(k);
    }

    /** Cell (i, j) of the shape; false outside [0, height) x [0, width). */
    function GetChar(i: int, j: int): (b: bool)
      requires Valid()
      reads this
      ensures b ==> 0 <= i < height && 0 <= j < width
      ensures b == Shape().At(i, j)
    {
      if i >= 0 && i < height && j >= 0 && j < width then
        IndexInBox(i, j, width, height);
        matrix[i * width + j]
      else
        false
    }

    /** Moves the figure; nothing but the position changes. */
    method SetPosition(x: int, y: int)
      requires Valid()
      modifies this
      ensures Valid() && Value() == old(Value()).(x := x, y := y)
    {
      startx := x;
      starty := y;
    }

    /** Turns the figure to its next rotation state; see `Rotated`. */
    method Rotate()
      requires Valid()
      modifies this
      ensures Valid() && Value() == Rotated(old(Value()))
    {
      rotationState := (rotationState + 1) % 4;
      if color == Magenta {
        assert color == ColorOf(O);
        rotationState := 0;
        return;
      }
      if color == Yellow {
        assert color == ColorOf(T);
        matrix := TStates[rotationState];
        width, height := 3, 3;
      } else if color == Cyan {
        assert color == ColorOf(L);
        matrix := LStates[rotationState];
        width, height := 3, 3;
      } else if color == White {
        assert color == ColorOf(J);
        matrix := JStates[rotationState];
        width, height := 3, 3;
      } else if color == Green {
        assert color == ColorOf(S);
        matrix := SStates[rotationState];
        width, height := 3, 3;
      } else if color == Red {
        assert color == ColorOf(Z);
        matrix := ZStates[rotationState];
        width, height := 3, 3;
      } else if color == Blue {
        assert color == ColorOf(I);
        matrix := IStates[rotationState];
        width, height := 4, 4;
      } else {
        assert KindOfColor(color) == None;
      }
    }
  }
}
