/**
 * The movement, placement and scoring engine of the game controller: legal
 * moves and rotations, gravity, the hard drop, settling a piece (placement,
 * line clearing, scoring, levels, the next piece and the game-over test)
 * and the key dispatch of one input character. Drawing, sleeping and the
 * menus are not part of this model; the level is plain state here.
 */
module Game {
  import opened Wrappers
  import opened Figures
  import opened Board
  import opened Fields
  import opened GameSettings

  // ---------------------------------------------------------------------
  // Piece poses

  /** Kind `k` in rotation state `s` at (x, y), as its constructor and `rotate` leave it. */
  function PoseOf(k: Kind, x: int, y: int, s: int): (f: FigureValue)
    requires 0 <= s < 4
  {
    if k == O then Spawned(O).(x := x, y := y) else FigureValue(StateBitmap(k, s), ColorOf(k), x, y, s)
  }

  /** A figure some kind's constructor, moves and rotations can produce. */
  ghost predicate IsPose(f: FigureValue) {
    exists k: Kind, s | 0 <= s < 4 :: f == PoseOf(k, f.x, f.y, s)
  }

  /** Every pose is well formed and has an occupied cell. */
  lemma PoseHasCells(k: Kind, x: int, y: int, s: int)
    requires 0 <= s < 4
    ensures PoseOf(k, x, y, s).Valid() && HasCell(PoseOf(k, x, y, s).shape)
  {
    ShapesHaveCells(k, s);
  }

  /** A spawned piece is the pose of its kind in state 0 at (10, 1). */
  lemma SpawnIsPose(k: Kind)
    ensures Spawned(k) == PoseOf(k, 10, 1, 0)
  {
    if k != O {
      InitialIsStateZero(k);
    }
  }

  /** A rotation moves a pose to the next state of the same kind; the O piece stays as it is. */
  lemma PoseRotated(k: Kind, x: int, y: int, s: int)
    requires 0 <= s < 4
    ensures PoseOf(k, x, y, s).Valid()
    ensures Rotated(PoseOf(k, x, y, s)) == PoseOf(k, x, y, (s + 1) % 4)
  {
    PoseHasCells(k, x, y, s);
    var f := PoseOf(k, x, y, s);
    var g := Rotated(f);
    assert KindOfColor(ColorOf(k)) == Some(k);
    if k == O {
      assert g.shape == f.shape;
    } else {
      ColorsDistinct(k, O);
      assert g.state == (s + 1) % 4;
    }
  }

  lemma SpawnedIsPose(k: Kind)
    ensures IsPose(Spawned(k))
  {
    SpawnIsPose(k);
    assert Spawned(k) == PoseOf(k, Spawned(k).x, Spawned(k).y, 0);
  }

  lemma PoseHasCell(f: FigureValue)
    requires IsPose(f)
    ensures f.Valid() && HasCell(f.shape)
  {
    var k: Kind, s :| 0 <= s < 4 && f == PoseOf(k, f.x, f.y, s);
    PoseHasCells(k, f.x, f.y, s);
  }

  /** Moving, rotating and spawning all yield poses. */
  lemma PosesAreClosed(f: FigureValue, x: int, y: int, k: Kind)
    requires IsPose(f)
    ensures f.Valid() && IsPose(f.(x := x, y := y)) && IsPose(Rotated(f)) && IsPose(Spawned(k))
  {
    var k0: Kind, s :| 0 <= s < 4 && f == PoseOf(k0, f.x, f.y, s);
    PoseHasCells(k0, f.x, f.y, s);
    assert f.(x := x, y := y) == PoseOf(k0, x, y, s);
    PoseRotated(k0, f.x, f.y, s);
    SpawnIsPose(k);
  }

  // ---------------------------------------------------------------------
  // Legality of a position

  /** The cell is a valid position of the field and is free. */
  predicate Free(g: Grid, bucket: bool, r: int, c: int)
    requires g.WellFormed()
  {
    ValidAt(bucket, r, c) && !Occupied(g, r, c)
  }

  /** Every occupied cell of row `a` of `shape`, placed with its corner at (x, y), lands on a free valid cell. */
  predicate RowFits(g: Grid, bucket: bool, shape: Bitmap, x: int, y: int, a: int)
    requires g.WellFormed() && shape.Valid()
  {
    forall b | 0 <= b < shape.width && shape.At(a, b) :: Free(g, bucket, y + a, x + b)
  }

  /** Rows `a` onwards of `shape` fit, row by row. */
  predicate FitsFrom(g: Grid, bucket: bool, shape: Bitmap, x: int, y: int, a: nat)
    requires g.WellFormed() && shape.Valid()
    decreases shape.height - a
  {
    a >= shape.height || (RowFits(g, bucket, shape, x, y, a) && FitsFrom(g, bucket, shape, x, y, a + 1))
  }

  /** The whole of `shape`, with its corner at (x, y), fits: the test of `CanMove` and `CanRotate`. */
  predicate Fits(g: Grid, bucket: bool, shape: Bitmap, x: int, y: int)
    requires g.WellFormed() && shape.Valid()
  {
    FitsFrom(g, bucket, shape, x, y, 0)
  }

  /** Rows `a` onwards fit exactly when each of them fits. */
  lemma {:induction false} FitsFromRows(g: Grid, bucket: bool, shape: Bitmap, x: int, y: int, a: nat)
    requires g.WellFormed() && shape.Valid()
    ensures FitsFrom(g, bucket, shape, x, y, a) <==> forall r | a <= r < shape.height :: RowFits(g, bucket, shape, x, y, r)
    decreases shape.height - a
  {
    if a < shape.height {
      FitsFromRows(g, bucket, shape, x, y, a + 1);
    }
  }

  /** `Fits` holds exactly when every occupied cell of the shape lands on a free valid cell. */
  lemma FitsMeaning(g: Grid, bucket: bool, shape: Bitmap, x: int, y: int)
    requires g.WellFormed() && shape.Valid()
    ensures Fits(g, bucket, shape, x, y) <==>
              forall a, b | 0 <= a < shape.height && 0 <= b < shape.width && shape.At(a, b) :: Free(g, bucket, y + a, x + b)
  {
    FitsFromRows(g, bucket, shape, x, y, 0);
    if Fits(g, bucket, shape, x, y) {
      forall a, b | 0 <= a < shape.height && 0 <= b < shape.width && shape.At(a, b)
        ensures Free(g, bucket, y + a, x + b)
      {
        assert RowFits(g, bucket, shape, x, y, a);
      }
    }
  }

  /** A shape with an occupied cell fits only with its top row inside the grid. */
  lemma FitsInsideGrid(g: Grid, bucket: bool, shape: Bitmap, x: int, y: int)
    requires g.WellFormed() && shape.Valid() && HasCell(shape)
    requires Fits(g, bucket, shape, x, y)
    ensures y < Height
  {
    FitsMeaning(g, bucket, shape, x, y);
    var a, b :| 0 <= a < shape.height && 0 <= b < shape.width && shape.At(a, b);
    assert Free(g, bucket, y + a, x + b);
  }

  // ---------------------------------------------------------------------
  // The controller's state as a value

  /** The field a controller plays on: its contents and whether it is the bucket. */
  datatype FieldState = FieldState(grid: Grid, bucket: bool)

  /** Everything `GameController` keeps that the game logic reads or writes. */
  datatype Play = Play(field: Option<FieldState>, figure: FigureValue, count: int, score: int, lines: int,
                       level: int, running: bool, paused: bool) {
    /** What the step functions need: a well-formed piece and grid, and a piece with a block on a field. */
    predicate Sound() {
      figure.Valid() && count >= 1
      && (field.Some? ==> field.value.grid.WellFormed() && HasCell(figure.shape))
    }
  }

  /** `CanMove(dx, dy)`: false with no field; otherwise whether the piece fits when shifted. */
  predicate CanMoveIn(p: Play, dx: int, dy: int)
    requires p.Sound()
  {
    p.field.Some?
    && Fits(p.field.value.grid, p.field.value.bucket, p.figure.shape, p.figure.x + dx, p.figure.y + dy)
  }

  function Moved(p: Play, dx: int, dy: int): Play {
    p.(figure := p.figure.(x := p.figure.x + dx, y := p.figure.y + dy))
  }

  /** Testing a shift of a moved piece is testing the combined shift of the original. */
  lemma MovedCanMove(p: Play, dx: int, dy: int, ex: int, ey: int, fx: int, fy: int)
    requires p.Sound() && fx == dx + ex && fy == dy + ey
    ensures Moved(p, dx, dy).Sound()
    ensures CanMoveIn(Moved(p, dx, dy), ex, ey) == CanMoveIn(p, fx, fy)
  {
    var x1, y1 := p.figure.x + fx, p.figure.y + fy;
    assert Moved(p, dx, dy).figure.x + ex == x1;
    assert Moved(p, dx, dy).figure.y + ey == y1;
  }

  /** `CanMoveIn` spelled out for a given grid, shape and target corner. */
  lemma CanMoveInAt(p: Play, dx: int, dy: int, g: Grid, bucket: bool, shape: Bitmap, x: int, y: int)
    requires p.Sound() && p.field == Some(FieldState(g, bucket)) && p.figure.shape == shape
    requires x == p.figure.x + dx && y == p.figure.y + dy
    ensures g.WellFormed() && shape.Valid() && CanMoveIn(p, dx, dy) == Fits(g, bucket, shape, x, y)
  {
  }

  /** The figure `CanRotate` constructs for a piece of colour `color`. */
  function ProbeBase(color: string): (f: FigureValue)
    ensures f.Valid()
  {
    match KindOfColor(color)
    case Some(k) => InitialShapesHaveFourCells(k); Spawned(k)
    case None => DefaultFigure
  }

  /**
   * The scratch figure `CanRotate` tests: a fresh figure of the kind the
   * colour names (an all-empty one for an unknown colour), moved to the
   * piece's corner and rotated one more time than the piece's state; an I
   * piece is probed one column left in an even state and right in an odd one.
   */
  function RotationProbe(f: FigureValue): (probe: FigureValue)
    requires f.Valid()
    ensures probe.Valid()
  {
    RotatedSpawn(if KindOfColor(f.color).Some? then KindOfColor(f.color).value else O, f.x, f.y, 0);
    var turned := RotatedTimes(ProbeBase(f.color).(x := f.x, y := f.y), f.state + 1);
    if f.color == Blue then turned.(x := if f.state % 2 == 0 then f.x - 1 else f.x + 1) else turned
  }

  /** `CanRotate`: false with no field; otherwise whether the rotation probe fits. */
  predicate CanRotateIn(p: Play)
    requires p.Sound()
  {
    p.field.Some?
    && var probe := RotationProbe(p.figure);
       Fits(p.field.value.grid, p.field.value.bucket, probe.shape, probe.x, probe.y)
  }

  /**
   * For a piece in a pose the probe is the piece's next rotation in place,
   * except for the I piece, whose probe stands one column aside: left in an
   * even state, right in an odd one.
   */
  lemma ProbeIsNextRotation(k: Kind, x: int, y: int, s: int)
    requires 0 <= s < 4
    ensures PoseOf(k, x, y, s).Valid()
    ensures RotationProbe(PoseOf(k, x, y, s)) ==
              if k == I then Rotated(PoseOf(k, x, y, s)).(x := if s % 2 == 0 then x - 1 else x + 1)
              else Rotated(PoseOf(k, x, y, s))
  {
    var f := PoseOf(k, x, y, s);
    PoseRotated(k, x, y, s);
    assert KindOfColor(f.color) == Some(k);
    assert ProbeBase(f.color) == Spawned(k);
    ColorsDistinct(k, I);
    if k == O {
      assert f.state == 0;
      RotatedSpawnO(x, y, 1);
    } else {
      assert f.state == s;
      RotatedSpawnTurning(k, x, y, s + 1);
    }
  }

  // ---------------------------------------------------------------------
  // The step functions

  /** `AutoMoveDown`: gravity moves the piece one row down when it can. */
  function AutoMoveDownSpec(p: Play): Play
    requires p.Sound()
  {
    if CanMoveIn(p, 0, 1) then Moved(p, 0, 1) else p
  }

  /** A piece can only fall to a row inside the grid. */
  lemma FallStaysInGrid(p: Play, i: int)
    requires p.Sound() && CanMoveIn(p, 0, i)
    ensures p.figure.y + i < Height
  {
    FitsInsideGrid(p.field.value.grid, p.field.value.bucket, p.figure.shape, p.figure.x + 0, p.figure.y + i);
  }

  /**
   * The depth search of `DropFigure` from depth `d`: the first depth whose
   * next row down does not fit. Every depth on the way fits.
   */
  function DropDepth(p: Play, d: nat): (r: nat)
    requires p.Sound() && p.field.Some?
    ensures r >= d
    ensures !CanMoveIn(p, 0, r + 1)
    ensures forall i | d < i <= r :: CanMoveIn(p, 0, i)
    decreases Height - p.figure.y - d
  {
    if CanMoveIn(p, 0, d + 1) then
      FallStaysInGrid(p, d + 1);
      DropDepth(p, d + 1)
    else
      d
  }

  /** The points `NewPosition` awards for clearing `n` lines at once, before the level factor. */
  function LinePoints(n: int): int {
    match n
    case 1 => 100
    case 2 => 300
    case 3 => 500
    case 4 => 800
    case _ => 0
  }

  /** The kind `NewPosition` spawns for counter value `count`. */
  function SpawnKind(count: int): Kind
    requires count >= 0
  {
    var t := count % 7;
    if t == 0 then O else if t == 1 then L else if t == 2 then T else if t == 3 then I
    else if t == 4 then S else if t == 5 then Z else J
  }

  /** `addPoints`. */
  function AddPointsSpec(p: Play, points: int): Play {
    p.(score := p.score + points)
  }

  /** `updateLevel`: one level up once the cleared lines reach ten per level. */
  function UpdateLevelSpec(p: Play): Play {
    if p.lines >= 10 * p.level then p.(level := p.level + 1) else p
  }

  /**
   * The locking half of `NewPosition`: the piece is written into the field,
   * full lines are cleared and scored at the current level, and the level is
   * updated. No full line is left, and the piece and counters are untouched.
   */
  function Lock(p: Play): (q: Play)
    requires p.Sound() && p.field.Some?
    ensures q.field.Some? && q.field.value.bucket == p.field.value.bucket && q.field.value.grid.WellFormed()
    ensures NoFullRowBetween(q.field.value.grid, q.field.value.bucket, 1, Height - 1)
    ensures q.figure == p.figure && q.count == p.count && q.running == p.running && q.paused == p.paused
    ensures q.lines >= p.lines && q.level >= p.level && (p.level >= 0 ==> q.score >= p.score)
  {
    var fs := p.field.value;
    var placed := Place(fs.grid, fs.bucket, p.figure.shape, p.figure.x, p.figure.y, p.figure.color);
    var cleared := ClearLines(placed, fs.bucket);
    ClearLinesLeavesNoFullRow(placed, fs.bucket);
    Scored(p.(field := Some(FieldState(cleared.grid, fs.bucket))), cleared.lines)
  }

  /**
   * The scoring of `n` cleared lines: when there are any, they are added to
   * the total, their points at the current level are awarded, and then the
   * level is updated.
   */
  function Scored(p: Play, n: nat): (q: Play)
    ensures q == p.(lines := q.lines, score := q.score, level := q.level)
    ensures q.lines == p.lines + n
    ensures q.score == p.score + LinePoints(n) * p.level
    ensures q.level == if n > 0 && q.lines >= 10 * p.level then p.level + 1 else p.level
  {
    if n > 0 then UpdateLevelSpec(AddPointsSpec(p.(lines := p.lines + n), LinePoints(n) * p.level)) else p
  }

  /**
   * The spawning half of `NewPosition`: the next kind of the cycle appears at
   * (10, 1) and the counter advances; the game ends exactly when the new
   * piece does not fit, and nothing else changes.
   */
  function Respawn(p: Play): (q: Play)
    requires p.Sound() && p.field.Some?
    ensures q.Sound() && q.figure == Spawned(SpawnKind(p.count)) && q.count == p.count + 1
    ensures q == p.(figure := q.figure, count := q.count, running := q.running)
    ensures q.running <==> p.running && CanMoveIn(q, 0, 0)
  {
    var next := SpawnKind(p.count);
    ShapesHaveCells(next, 0);
    var spawned := p.(figure := Spawned(next), count := p.count + 1);
    if CanMoveIn(spawned, 0, 0) then spawned else spawned.(running := false)
  }

  /** The spawning step from `q`, the state with the next piece in place and the counter advanced. */
  lemma RespawnOf(p: Play, q: Play)
    requires p.Sound() && p.field.Some? && q == p.(figure := Spawned(SpawnKind(p.count)), count := p.count + 1)
    ensures q.Sound() && Respawn(p) == if CanMoveIn(q, 0, 0) then q else q.(running := false)
  {
    ShapesHaveCells(SpawnKind(p.count), 0);
  }

  /** `NewPosition`: nothing while the piece can still fall; otherwise lock it and spawn the next one. */
  function Settle(p: Play): (q: Play)
    requires p.Sound()
    ensures q.Sound()
  {
    if p.field.None? || CanMoveIn(p, 0, 1) then p else Respawn(Lock(p))
  }

  /**
   * The descent of `DropFigure`: the piece moved down as far as it fits,
   * every row on the way fitting, with the level's drop points for each row
   * it fell; nothing else changes.
   */
  function Lowered(p: Play): (q: Play)
    requires p.Sound() && p.field.Some?
    ensures q.Sound() && !CanMoveIn(q, 0, 1)
    ensures q == p.(figure := p.figure.(y := q.figure.y), score := q.score)
    ensures q.figure.y >= p.figure.y
    ensures forall i | 0 < i <= q.figure.y - p.figure.y :: CanMoveIn(p, 0, i)
    ensures q.score == p.score + DropPointsForLevel(p.level) * (q.figure.y - p.figure.y)
  {
    var d := DropDepth(p, 0);
    var moved := Moved(p, 0, d);
    MovedCanMove(p, 0, d, 0, 1, 0, d + 1);
    var q := AddPointsSpec(moved, DropPointsForLevel(p.level) * d);
    assert CanMoveIn(q, 0, 1) == CanMoveIn(moved, 0, 1);
    q
  }

  /** The descent by the depth found moves the piece down by that depth and adds the points for it. */
  lemma LoweredBy(p: Play, d: int)
    requires p.Sound() && p.field.Some? && d == DropDepth(p, 0)
    ensures Lowered(p) == p.(figure := p.figure.(y := p.figure.y + d), score := p.score + DropPointsForLevel(p.level) * d)
  {
  }

  /** `DropFigure`: the descent, then `NewPosition`. */
  function Drop(p: Play): (q: Play)
    requires p.Sound()
    ensures q.Sound()
  {
    if p.field.None? then p else Settle(Lowered(p))
  }

  /** The LEFT and RIGHT keys: the piece moves one column when it fits there. */
  function Shifted(p: Play, dx: int): (q: Play)
    requires p.Sound()
    ensures q.Sound()
  {
    if CanMoveIn(p, dx, 0) then Moved(p, dx, 0) else p
  }

  /** The DOWN key: the piece moves one row down when it fits there, earning 40 points per level. */
  function SoftDropped(p: Play): (q: Play)
    requires p.Sound()
    ensures q.Sound()
  {
    if CanMoveIn(p, 0, 1) then AddPointsSpec(Moved(p, 0, 1), 40 * p.level) else p
  }

  /** The ROTATE key: the piece rotates when the rotation probe fits. */
  function Turned(p: Play): (q: Play)
    requires p.Sound()
    ensures q.Sound()
  {
    if CanRotateIn(p) then RotatedKeepsCell(p.figure); p.(figure := Rotated(p.figure)) else p
  }

  /** The answer of the main menu `GameMenu` shows: leave, or start on a rectangle or a bucket. */
  datatype MenuChoice = Quit | Start(bucket: bool)

  /**
   * 'n' in the pause menu: the game is unpaused and its field deleted, and
   * `GameMenu` resets score, lines and level to 0, 0 and 1. Starting puts a
   * fresh field of the chosen shape and an O piece in play; leaving stops
   * the game with no field. The counter is kept.
   */
  function Restarted(p: Play, choice: MenuChoice): (q: Play)
    requires p.Sound()
    ensures q.Sound()
  {
    var reset := p.(paused := false, score := 0, lines := 0, level := 1);
    match choice
    case Quit => reset.(field := None, running := false)
    case Start(bucket) =>
      SpawnedIsPose(O);
      PoseHasCell(Spawned(O));
      reset.(field := Some(FieldState(InitialGrid(bucket), bucket)), figure := Spawned(O))
  }

  /**
   * `Input` for one character. Paused, 'r' resumes, 'q' quits and 'n' goes
   * back to the main menu, whose answer is `choice`; running, the character
   * is compared with the bindings in the order LEFT, RIGHT, DOWN, DROP,
   * ROTATE, PAUSE, QUIT and the first match acts.
   */
  function InputSpec(p: Play, c: char, controls: map<string, char>, choice: MenuChoice): (q: Play)
    requires p.Sound()
    ensures q.Sound()
  {
    if p.paused then
      if c == 'r' then p.(paused := false)
      else if c == 'q' then p.(running := false)
      else if c == 'n' then Restarted(p, choice)
      else p
    else if c == ControlFor(controls, "LEFT") then
      Shifted(p, -1)
    else if c == ControlFor(controls, "RIGHT") then
      Shifted(p, 1)
    else if c == ControlFor(controls, "DOWN") then
      SoftDropped(p)
    else if c == ControlFor(controls, "DROP") then
      Drop(p)
    else if c == ControlFor(controls, "ROTATE") then
      Turned(p)
    else if c == ControlFor(controls, "PAUSE") then
      p.(paused := true)
    else if c == ControlFor(controls, "QUIT") then
      p.(running := false)
    else
      p
  }

  // ---------------------------------------------------------------------
  // Properties of the step functions

  /** The line score table, multiplied by the level when awarded. */
  lemma LinePointsTable(n: int)
    ensures LinePoints(1) == 100 && LinePoints(2) == 300 && LinePoints(3) == 500 && LinePoints(4) == 800
    ensures !(1 <= n <= 4) ==> LinePoints(n) == 0
    ensures LinePoints(n) >= 0
  {
  }

  /** Pieces come in the fixed cycle O, L, T, I, S, Z, J, repeating every seven. */
  lemma SpawnCycle(count: nat)
    ensures SpawnKind(count + 7) == SpawnKind(count)
    ensures SpawnKind(7 * count) == O && SpawnKind(7 * count + 1) == L && SpawnKind(7 * count + 2) == T
    ensures SpawnKind(7 * count + 3) == I && SpawnKind(7 * count + 4) == S && SpawnKind(7 * count + 5) == Z
    ensures SpawnKind(7 * count + 6) == J
  {
    var q, r := count / 7, count % 7;
    SpawnKindAt(q, r);
    SpawnKindAt(q + 1, r);
    assert count + 7 == 7 * (q + 1) + r;
    SpawnKindAt(count, 0);
    SpawnKindAt(count, 1);
    SpawnKindAt(count, 2);
    SpawnKindAt(count, 3);
    SpawnKindAt(count, 4);
    SpawnKindAt(count, 5);
    SpawnKindAt(count, 6);
  }

  lemma SpawnKindAt(n: nat, i: int)
    requires 0 <= i < 7
    ensures SpawnKind(7 * n + i) == SpawnKind(i)
  {
    assert (7 * n + i) % 7 == i;
  }

  /** `updateLevel` raises the level by exactly one when the lines reach ten per level, and otherwise keeps it. */
  lemma LevelRisesByOne(p: Play)
    ensures p.lines >= 10 * p.level ==> UpdateLevelSpec(p).level == p.level + 1
    ensures p.lines < 10 * p.level ==> UpdateLevelSpec(p) == p
  {
  }

  lemma NonnegProduct(a: int, b: int)
    requires a >= 0 && b >= 0
    ensures a * b >= 0
  {
  }

  /** `NewPosition` changes nothing while the piece can still fall. */
  lemma SettleWhileFalling(p: Play)
    requires p.Sound() && CanMoveIn(p, 0, 1)
    ensures Settle(p) == p
  {
  }

  /**
   * When the piece cannot fall, `NewPosition` writes it into the field and
   * clears the full lines (leaving none), counts them, takes the next kind of
   * the cycle, and ends the game exactly when that piece does not fit.
   */
  lemma SettleLands(p: Play)
    requires p.Sound() && p.field.Some? && !CanMoveIn(p, 0, 1)
    ensures var q := Settle(p);
            var fs := p.field.value;
            var cleared := ClearLines(Place(fs.grid, fs.bucket, p.figure.shape, p.figure.x, p.figure.y, p.figure.color), fs.bucket);
            && q.field == Some(FieldState(cleared.grid, fs.bucket))
            && NoFullRowBetween(q.field.value.grid, fs.bucket, 1, Height - 1)
            && q.lines == p.lines + cleared.lines
            && q.count == p.count + 1 && q.figure == Spawned(SpawnKind(p.count))
            && (q.running <==> p.running && CanMoveIn(q, 0, 0))
            && q.paused == p.paused
  {
  }

  /** A hard drop always ends with the piece locked: the next piece has spawned. */
  lemma DropAlwaysLands(p: Play)
    requires p.Sound() && p.field.Some?
    ensures Drop(p).count == p.count + 1
    ensures Drop(p).figure == Spawned(SpawnKind(p.count))
  {
    assert Drop(p) == Respawn(Lock(Lowered(p)));
  }

  /**
   * What no step undoes: the piece stays a pose, and the counter, the
   * cleared lines and the level never go down, nor the score at a level of
   * at least 0.
   */
  ghost predicate Advances(p: Play, q: Play) {
    IsPose(q.figure) && q.count >= p.count && q.lines >= p.lines && q.level >= p.level
    && (p.level >= 0 ==> q.score >= p.score)
  }

  /** `NewPosition` advances. */
  lemma SettleAdvances(p: Play)
    requires p.Sound() && IsPose(p.figure)
    ensures Advances(p, Settle(p))
  {
    PosesAreClosed(p.figure, p.figure.x, p.figure.y, SpawnKind(p.count));
  }

  lemma AdvancesTrans(p: Play, q: Play, r: Play)
    requires Advances(p, q) && Advances(q, r)
    ensures Advances(p, r)
  {
  }

  /**
   * Moving a piece down by a nonnegative distance, earning a per-row rate
   * that is nonnegative at a nonnegative level, advances.
   */
  lemma DescentAdvances(p: Play, q: Play, rate: int)
    requires IsPose(p.figure) && q.figure.y >= p.figure.y && (p.level >= 0 ==> rate >= 0)
    requires q == p.(figure := p.figure.(y := q.figure.y), score := q.score)
    requires q.score == p.score + rate * (q.figure.y - p.figure.y)
    ensures Advances(p, q)
  {
    PosesAreClosed(p.figure, p.figure.x, q.figure.y, O);
    assert q.figure == p.figure.(x := p.figure.x, y := q.figure.y);
    if p.level >= 0 {
      NonnegProduct(rate, q.figure.y - p.figure.y);
    }
  }

  /** A hard drop advances. */
  lemma DropAdvances(p: Play)
    requires p.Sound() && IsPose(p.figure)
    ensures Advances(p, Drop(p))
  {
    if p.field.Some? {
      var q := Lowered(p);
      DescentAdvances(p, q, DropPointsForLevel(p.level));
      SettleAdvances(q);
      AdvancesTrans(p, q, Settle(q));
    }
  }

  /** Shifting advances. */
  lemma MovesAdvance(p: Play, dx: int)
    requires p.Sound() && IsPose(p.figure)
    ensures Advances(p, Shifted(p, dx))
  {
    PosesAreClosed(p.figure, p.figure.x + dx, p.figure.y, O);
  }

  /** Turning advances. */
  lemma TurnAdvances(p: Play)
    requires p.Sound() && IsPose(p.figure)
    ensures Advances(p, Turned(p))
  {
    PosesAreClosed(p.figure, p.figure.x, p.figure.y, O);
  }

  /** The soft drop advances. */
  lemma SoftDropAdvances(p: Play)
    requires p.Sound() && IsPose(p.figure)
    ensures Advances(p, SoftDropped(p))
  {
    var q := SoftDropped(p);
    if CanMoveIn(p, 0, 1) {
      assert q == p.(figure := p.figure.(y := p.figure.y + 1), score := p.score + 40 * p.level);
      DescentAdvances(p, q, 40 * p.level);
    }
  }

  /** Every input character advances, except the new game the pause menu's 'n' starts. */
  lemma InputAdvances(p: Play, c: char, controls: map<string, char>, choice: MenuChoice)
    requires p.Sound() && IsPose(p.figure) && !(p.paused && c == 'n')
    ensures Advances(p, InputSpec(p, c, controls, choice))
  {
    var q := InputSpec(p, c, controls, choice);
    if p.paused {
      assert q == p.(paused := q.paused, running := q.running);
    } else if c == ControlFor(controls, "LEFT") {
      MovesAdvance(p, -1);
    } else if c == ControlFor(controls, "RIGHT") {
      MovesAdvance(p, 1);
    } else if c == ControlFor(controls, "DOWN") {
      SoftDropAdvances(p);
    } else if c == ControlFor(controls, "DROP") {
      DropAdvances(p);
    } else if c == ControlFor(controls, "ROTATE") {
      TurnAdvances(p);
    } else {
      assert q == p.(paused := q.paused, running := q.running);
    }
  }

  /** The O piece of a new game fits the fresh field of either shape at the spawn position (10, 1). */
  lemma NewGameFits(bucket: bool)
    ensures Fits(InitialGrid(bucket), bucket, Spawned(O).shape, Spawned(O).x, Spawned(O).y)
  {
    SpawnCellsFree(bucket);
    FitsMeaning(InitialGrid(bucket), bucket, Spawned(O).shape, 10, 1);
  }

  /** The cells the O piece covers at (10, 1), rows 1..2 and columns 10..11, are free on a fresh field. */
  lemma SpawnCellsFree(bucket: bool)
    ensures forall r, c | 1 <= r <= 2 && 10 <= c <= 11 :: Free(InitialGrid(bucket), bucket, r, c)
  {
    forall r, c | 1 <= r <= 2 && 10 <= c <= 11
      ensures Free(InitialGrid(bucket), bucket, r, c)
    {
      SpawnCellInBucket(r, c);
      InitialGridAt(bucket, r, c);
    }
  }

  /** Rows 1 and 2 of the bucket span columns 8..13 and 7..13, so they hold columns 10 and 11. */
  lemma SpawnCellInBucket(r: int, c: int)
    requires 1 <= r <= 2 && 10 <= c <= 11
    ensures InGrid(r, c) && InRange(true, r, c)
  {
    assert BucketRowWidth(r) == 6 + r - 1;
  }

  /**
   * 'n' in the pause menu starts over: unpaused, nothing scored, level 1,
   * the counter kept. Leaving ends the game with no field; starting puts an
   * O piece in play that fits the fresh field of the chosen shape.
   */
  lemma PausedRestart(p: Play, controls: map<string, char>, choice: MenuChoice)
    requires p.Sound() && p.paused
    ensures var q := InputSpec(p, 'n', controls, choice);
      !q.paused && q.score == 0 && q.lines == 0 && q.level == 1 && q.count == p.count
      && (choice.Quit? ==> q.field.None? && !q.running)
      && (choice.Start? ==> q.running == p.running && q.field == Some(FieldState(InitialGrid(choice.bucket), choice.bucket))
                            && IsPose(q.figure) && CanMoveIn(q, 0, 0))
  {
    if choice.Start? {
      SpawnedIsPose(O);
      NewGameFits(choice.bucket);
    }
  }

  /** A piece that fits where it is still fits after a shift, a soft drop or gravity. */
  lemma MovesKeepFit(p: Play, dx: int)
    requires p.Sound() && CanMoveIn(p, 0, 0)
    ensures CanMoveIn(Shifted(p, dx), 0, 0)
    ensures CanMoveIn(SoftDropped(p), 0, 0)
    ensures CanMoveIn(AutoMoveDownSpec(p), 0, 0)
  {
    MovedCanMove(p, dx, 0, 0, 0, dx, 0);
    MovedCanMove(p, 0, 1, 0, 0, 0, 1);
    var down := SoftDropped(p);
    if CanMoveIn(p, 0, 1) {
      assert CanMoveIn(down, 0, 0) == CanMoveIn(Moved(p, 0, 1), 0, 0);
    }
  }

  /**
   * A piece of any kind but I that fits where it is still fits after a turn:
   * its rotation probe is exactly its next rotation in place. (The I piece's
   * probe stands one column aside, so its turn is not covered.)
   */
  lemma TurnKeepsFit(p: Play, k: Kind, s: int)
    requires p.Sound() && 0 <= s < 4 && k != I && p.figure == PoseOf(k, p.figure.x, p.figure.y, s)
    requires CanMoveIn(p, 0, 0)
    ensures CanMoveIn(Turned(p), 0, 0)
  {
    var f := p.figure;
    ProbeIsNextRotation(k, f.x, f.y, s);
    var r := Rotated(f);
    assert r.x + 0 == r.x && r.y + 0 == r.y;
  }

  // ---------------------------------------------------------------------
  // The controller object

  class GameController {
    var field: Field?
    var figure: Figure
    var gameRunning: bool
    var count: int
    var score: int
    var linesClearedTotal: int
    var gamePaused: bool
    var level: int

    /** The arrays of the field, if there is one. */
    ghost function Grids(): set<object>
      reads this
    {
      if field == null then {} else {field.matrix, field.colors}
    }

    ghost predicate Valid()
      reads this, figure, field
    {
      figure.Valid() && count >= 1
      && (field != null ==> field.Valid() && IsPose(figure.Value()))
    }

    /** The controller's state as a value. */
    ghost function State(): (p: Play)
      requires Valid()
      reads this, figure, field, Grids()
      ensures p.Sound()
    {
      if field != null then PoseHasCell(figure.Value()); Snapshotted() else Snapshotted()
    }

    ghost function Snapshotted(): Play
      requires Valid()
      reads this, figure, field, Grids()
    {
      Play(if field == null then None else Some(FieldState(field.Snapshot(), field.bucket)),
           figure.Value(), count, score, linesClearedTotal, level, gameRunning, gamePaused)
    }

    /**
     * The constructor: no field yet, a default figure at (10, 1), counter 1,
     * running, not paused, nothing scored; the level is the one the settings hold.
     */
    constructor (level: int)
      ensures Valid() && State() == Play(None, DefaultFigure, 1, 0, 0, level, true, false)
    {
      field := null;
      figure := new Figure();
      gameRunning := true;
      count := 1;
      gamePaused := false;
      score := 0;
      linesClearedTotal := 0;
      this.level := level;
      new;
      figure.SetPosition(10, 1);
    }

    /**
     * The effect of starting a game from the menu and the run loop: score,
     * lines and level are reset, a rectangular field or a bucket is created,
     * and an O piece is put in play.
     */
    method StartGame(bucket: bool)
      requires Valid()
      modifies this
      ensures Valid() && field != null && fresh(field) && fresh(figure)
      ensures State() == Play(Some(FieldState(InitialGrid(bucket), bucket)), Spawned(O), old(count), 0, 0, 1,
                              old(gameRunning), old(gamePaused))
    {
      score := 0;
      linesClearedTotal := 0;
      level := 1;
      if bucket {
        field := new Field.Bucket();
      } else {
        field := new Field();
      }
      figure := new Figure.Of(O);
      SpawnIsPose(O);
      assert figure.Value() == PoseOf(O, 10, 1, 0);
    }

    /** Whether `f`'s occupied cells, with its corner at (x, y), all land on free valid cells. */
    method FigureFits(f: Figure, x: int, y: int) returns (fits: bool)
      requires field != null && field.Valid() && f.Valid()
      ensures fits == Fits(field.Snapshot(), field.bucket, f.Shape(), x, y)
    {
      ghost var g := field.Snapshot();
      ghost var shape := f.Shape();
      var i := 0;
      while i < f.height
        invariant 0 <= i <= f.height
        invariant Fits(g, field.bucket, shape, x, y) == FitsFrom(g, field.bucket, shape, x, y, i)
      {
        var j := 0;
        while j < f.width
          invariant 0 <= j <= f.width
          invariant forall b | 0 <= b < j && shape.At(i, b) :: Free(g, field.bucket, y + i, x + b)
        {
          if f.GetChar(i, j) {
            if !field.IsValidPosition(y + i, x + j) {
              assert !RowFits(g, field.bucket, shape, x, y, i);
              return false;
            }
            if field.Getch(y + i, x + j) {
              assert !RowFits(g, field.bucket, shape, x, y, i);
              return false;
            }
          }
          j := j + 1;
        }
        assert RowFits(g, field.bucket, shape, x, y, i);
        i := i + 1;
      }
      return true;
    }

    /** `CanMove`: false with no field; otherwise whether the shifted piece fits. */
    method CanMove(dx: int, dy: int) returns (b: bool)
      requires Valid()
      ensures b == CanMoveIn(State(), dx, dy)
    {
      if field == null {
        return false;
      }
      ghost var p := State();
      ghost var g := field.Snapshot();
      ghost var shape := figure.Shape();
      var x, y := figure.startx + dx, figure.starty + dy;
      assert p.field == Some(FieldState(g, field.bucket)) && p.figure == figure.Value();
      CanMoveInAt(p, dx, dy, g, field.bucket, shape, x, y);
      b := FigureFits(figure, x, y);
      assert field.Snapshot() == g;
      assert figure.Shape() == shape;
      assert b == Fits(g, field.bucket, shape, x, y);
      assert b == CanMoveIn(p, dx, dy);
      assert State() == p;
    }

    /** `CanRotate`: builds the scratch figure and tests whether it fits; the piece itself is untouched. */
    method CanRotate() returns (b: bool)
      requires Valid()
      ensures b == CanRotateIn(State())
    {
      if field == null {
        return false;
      }
      ghost var p := State();
      var test := RotationTestFigure(figure);
      assert p.field.value == FieldState(field.Snapshot(), field.bucket) && p.figure == figure.Value();
      b := FigureFits(test, test.startx, test.starty);
      assert State() == p;
    }

    /** `AutoMoveDown`. */
    method AutoMoveDown()
      requires Valid()
      modifies figure
      ensures Valid() && State() == AutoMoveDownSpec(old(State()))
    {
      var fits := CanMove(0, 1);
      if fits {
        PosesAreClosed(figure.Value(), figure.startx, figure.starty + 1, O);
        figure.SetPosition(figure.startx, figure.starty + 1);
      }
    }

    /** `addPoints`. */
    method AddPoints(points: int)
      requires Valid()
      modifies this
      ensures Valid() && field == old(field) && figure == old(figure) && State() == AddPointsSpec(old(State()), points)
    {
      score := score + points;
    }

    /** `updateLevel`. */
    method UpdateLevel()
      requires Valid()
      modifies this
      ensures Valid() && field == old(field) && figure == old(figure) && State() == UpdateLevelSpec(old(State()))
    {
      var requiredLines := level * 10;
      if linesClearedTotal >= requiredLines {
        level := level + 1;
      }
    }

    /** `NewPosition`. */
    method NewPosition()
      requires Valid()
      modifies this, Grids()
      ensures Valid() && field == old(field) && State() == Settle(old(State()))
    {
      if field == null {
        return;
      }
      var falling := CanMove(0, 1);
      if falling {
        return;
      }
      LockFigure();
      SpawnNext();
    }

    /** The locking half of `NewPosition`: place, clear, score, update the level. */
    method LockFigure()
      requires Valid() && field != null
      modifies this, Grids()
      ensures Valid() && field == old(field) && figure == old(figure) && State() == Lock(old(State()))
    {
      ghost var p := State();
      ghost var placed := Place(p.field.value.grid, field.bucket, p.figure.shape, p.figure.x, p.figure.y, p.figure.color);
      field.PlaceFigure(figure);
      assert field.Snapshot() == placed;
      var linesCleared := field.ClearFullLines();
      ghost var cleared := ClearLines(placed, field.bucket);
      assert field.Snapshot() == cleared.grid && linesCleared == cleared.lines;
      assert Valid();
      assert State() == p.(field := Some(FieldState(cleared.grid, field.bucket)));
      AwardLines(linesCleared);
    }

    /** The scoring branch of `NewPosition` for `linesCleared` removed lines. */
    method AwardLines(linesCleared: int)
      requires Valid() && linesCleared >= 0
      modifies this
      ensures Valid() && field == old(field) && figure == old(figure) && State() == Scored(old(State()), linesCleared)
    {
      ghost var p := State();
      if linesCleared > 0 {
        linesClearedTotal := linesClearedTotal + linesCleared;
        assert State() == p.(lines := p.lines + linesCleared);
        var points := 0;
        if linesCleared == 1 {
          points := 100;
        } else if linesCleared == 2 {
          points := 300;
        } else if linesCleared == 3 {
          points := 500;
        } else if linesCleared == 4 {
          points := 800;
        }
        assert points == LinePoints(linesCleared);
        points := points * level;
        ghost var q := State();
        assert Scored(p, linesCleared) == UpdateLevelSpec(AddPointsSpec(q, points));
        AddPoints(points);
        UpdateLevel();
      }
    }

    /** The spawning half of `NewPosition`: the next kind of the cycle, at (10, 1), and the game-over test. */
    method SpawnNext()
      requires Valid() && field != null
      modifies this
      ensures Valid() && field == old(field) && State() == Respawn(old(State()))
    {
      ghost var p := State();
      var kind := SpawnKind(count);
      figure := new Figure.Of(kind);
      count := count + 1;
      figure.SetPosition(10, 1);
      SpawnedIsPose(kind);
      ghost var q := p.(figure := Spawned(kind), count := p.count + 1);
      RespawnOf(p, q);
      assert State() == q;
      var fits := CanMove(0, 0);
      if !fits {
        gameRunning := false;
      }
    }

    /** `DropFigure`. */
    method DropFigure()
      requires Valid()
      modifies this, figure, Grids()
      ensures Valid() && field == old(field) && State() == Drop(old(State()))
    {
      if field == null {
        return;
      }
      ghost var p := State();
      var dropDepth := DropDistance();
      LoweredBy(p, dropDepth);
      Lower(dropDepth);
      assert State() == Lowered(p);
      NewPosition();
      assert Drop(p) == Settle(Lowered(p));
    }

    /** The descent of `DropFigure` by `dropDepth` rows: move the piece and award the drop points. */
    method Lower(dropDepth: int)
      requires Valid() && field != null && dropDepth >= 0
      modifies this, figure
      ensures Valid() && field == old(field)
      ensures State() == old(State()).(figure := old(State()).figure.(y := old(State()).figure.y + dropDepth),
                                       score := old(State()).score + DropPointsForLevel(old(level)) * dropDepth)
    {
      ghost var p := State();
      if dropDepth > 0 {
        var x, y := figure.startx, figure.starty + dropDepth;
        var points := DropPointsForLevel(level) * dropDepth;
        PosesAreClosed(figure.Value(), x, y, O);
        figure.SetPosition(x, y);
        assert State() == p.(figure := p.figure.(y := y));
        AddPoints(points);
      } else {
        assert DropPointsForLevel(p.level) * dropDepth == 0;
      }
    }

    /** The depth search of `DropFigure`: how many rows the piece can fall. */
    method DropDistance() returns (dropDepth: int)
      requires Valid() && field != null
      ensures dropDepth == DropDepth(State(), 0)
    {
      ghost var p := State();
      dropDepth := 0;
      var more := CanMove(0, dropDepth + 1);
      while more
        invariant dropDepth >= 0
        invariant more == CanMoveIn(p, 0, dropDepth + 1)
        invariant DropDepth(p, dropDepth) == DropDepth(p, 0)
        decreases Height - p.figure.y - dropDepth
      {
        FallStaysInGrid(p, dropDepth + 1);
        dropDepth := dropDepth + 1;
        more := CanMove(0, dropDepth + 1);
      }
    }

    /** The LEFT and RIGHT branches of `Input`. */
    method Shift(dx: int)
      requires Valid()
      modifies figure
      ensures Valid() && State() == Shifted(old(State()), dx)
    {
      var ok := CanMove(dx, 0);
      if ok {
        PosesAreClosed(figure.Value(), figure.startx + dx, figure.starty, O);
        figure.SetPosition(figure.startx + dx, figure.starty);
      }
    }

    /** The DOWN branch of `Input`. */
    method SoftDrop()
      requires Valid()
      modifies this, figure
      ensures Valid() && field == old(field) && State() == SoftDropped(old(State()))
    {
      var ok := CanMove(0, 1);
      if ok {
        PosesAreClosed(figure.Value(), figure.startx, figure.starty + 1, O);
        figure.SetPosition(figure.startx, figure.starty + 1);
        AddPoints(40 * level);
      }
    }

    /** The ROTATE branch of `Input`. */
    method Turn()
      requires Valid()
      modifies figure
      ensures Valid() && State() == Turned(old(State()))
    {
      var ok := CanRotate();
      if ok {
        PosesAreClosed(figure.Value(), figure.startx, figure.starty, O);
        figure.Rotate();
      }
    }

    /** The pause menu's 'n': the field is deleted and the main menu's answer `choice` acted on. */
    method Restart(choice: MenuChoice)
      requires Valid()
      modifies this
      ensures Valid() && State() == Restarted(old(State()), choice)
      ensures choice.Start? ==> fresh(field)
    {
      gamePaused := false;
      field := null;
      match choice {
        case Quit =>
          score := 0;
          linesClearedTotal := 0;
          level := 1;
          gameRunning := false;
        case Start(bucket) =>
          StartGame(bucket);
      }
    }

    /**
     * `Input` for the character `c`, read against the key bindings
     * `controls`; `choice` is the answer the main menu gets when the pause
     * menu's 'n' opens it.
     */
    method Input(c: char, controls: map<string, char>, choice: MenuChoice)
      requires Valid()
      modifies this, figure, Grids()
      ensures Valid() && State() == InputSpec(old(State()), c, controls, choice)
      ensures !(old(gamePaused) && c == 'n') ==> field == old(field)
      ensures old(gamePaused) && c == 'n' && choice.Start? ==> fresh(field)
    {
      if gamePaused {
        if c == 'r' {
          gamePaused := false;
        } else if c == 'q' {
          gameRunning := false;
        } else if c == 'n' {
          Restart(choice);
        }
        return;
      }
      if c == ControlFor(controls, "LEFT") {
        Shift(-1);
      } else if c == ControlFor(controls, "RIGHT") {
        Shift(1);
      } else if c == ControlFor(controls, "DOWN") {
        SoftDrop();
      } else if c == ControlFor(controls, "DROP") {
        DropFigure();
      } else if c == ControlFor(controls, "ROTATE") {
        Turn();
      } else if c == ControlFor(controls, "PAUSE") {
        gamePaused := true;
      } else if c == ControlFor(controls, "QUIT") {
        gameRunning := false;
      }
    }
  }

  /** The colour chain of `CanRotate`: a fresh figure of the kind the colour names, or a default one. */
  method FigureOfColor(color: string) returns (test: Figure)
    ensures fresh(test) && test.Valid() && test.Value() == ProbeBase(color)
  {
    if color == Magenta {
      test := new Figure.Of(O);
    } else if color == Cyan {
      test := new Figure.Of(L);
    } else if color == Yellow {
      test := new Figure.Of(T);
    } else if color == Blue {
      test := new Figure.Of(I);
    } else if color == Green {
      test := new Figure.Of(S);
    } else if color == Red {
      test := new Figure.Of(Z);
    } else if color == White {
      test := new Figure.Of(J);
    } else {
      test := new Figure();
    }
  }

  /**
   * The scratch figure of `CanRotate`: the figure of the piece's colour,
   * moved to the piece's corner, rotated one time more than the piece's
   * state, and for an I piece shifted one column.
   */
  method RotationTestFigure(figure: Figure) returns (test: Figure)
    requires figure.Valid()
    ensures fresh(test) && test.Valid() && test.Value() == RotationProbe(figure.Value())
  {
    var oldX, oldY, oldColor := figure.startx, figure.starty, figure.color;
    test := FigureOfColor(oldColor);
    test.SetPosition(oldX, oldY);
    ghost var base := test.Value();
    var i := 0;
    while i < figure.rotationState
      invariant 0 <= i <= figure.rotationState
      invariant test.Valid() && test.Value() == RotatedTimes(base, i)
    {
      test.Rotate();
      i := i + 1;
    }
    test.Rotate();
    if oldColor == Blue {
      if figure.rotationState % 2 == 0 {
        test.SetPosition(oldX - 1, oldY);
      } else {
        test.SetPosition(oldX + 1, oldY);
      }
    }
  }
}
