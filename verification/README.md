# Terminal Tetris: the game engine in Dafny

This project models the game-logic core of a terminal falling-block game
written in C++. The board, the pieces, the movement and scoring engine, the
picture-building mode, the settings rules and the high-score table are
modelled with every terminal side effect stripped away. The modelled parts:

- **Board** (`board.dfy`, module `Board`). The 22 x 22 grid as a value: a
  row-major occupancy vector and a colour vector. Also the bucket's per-row
  column ranges (`6 + 16*r/21` columns, centred), placing a figure, and
  line clearing as a function (`ClearLines`) with its properties.
- **Fields** (`field.dfy`, module `Fields`). The `Field` / `BucketField`
  object over two 484-entry arrays. It is one class whose `bucket` tag
  selects the bucket's overrides of `getRowWidth`, `isValidPosition`,
  `placeFigure` and `clearFullLines`. Every method is proved to change the
  arrays exactly as the value functions of `Board` say.
- **Figures** (`figures.dfy`, module `Figures`). The seven piece kinds and
  their ANSI colours, and the constant rotation tables. The `Figure` class
  has `rotate`, `setPosition` and `getchar`, its value `FigureValue`, and
  the rotation state machine.
- **Game** (`game.dfy`, module `Game`). The `GameController` as a class
  whose state is the value `Play`. The model covers:
  - `CanMove`, `CanRotate` (with its scratch figure), `AutoMoveDown`,
    `DropFigure`, `NewPosition`, `addPoints` and `updateLevel`;
  - the key dispatch of `Input`;
  - the effect of starting a game.

  Each method is proved equal to a step function on `Play`. The lemmas
  state what the steps promise: legality, drop depth, scoring tables, the
  spawn cycle and the game-over test.
- **Pictures** (`picture.dfy`, module `Pictures`). The picture-mode field:
  its target and current masks, the square and triangle generators, and
  placement that fills the target or ends the game.
- **GameSettings** (`settings.dfy`). Key bindings, reserved keys, the
  level, speed and drop-point arithmetic, and the line rule of the
  settings loader over a sequence of lines. `std::stoi` is modelled
  concretely as `Stoi`: leading white space, an optional sign, at least one
  digit, trailing characters ignored, and a value outside the 32-bit range
  rejected. A failure becomes `None` instead of an exception.
- **Scores** (`scores.dfy`). The high-score table: sorted insertion, the
  ten-entry save and the top-k slice. The clock's date is a parameter.

The level lives in the settings singleton in the source. Here it is plain
state of the controller. The key bindings `Input` compares against are a
parameter.

Two behaviours of the code are worth knowing when reading the model:

- `CanRotate` tests the rotated I piece one column left when its rotation
  state is even and one column right when it is odd
  (src/GameController.cpp:375-381). `Input` then turns the piece in place
  without moving it (src/GameController.cpp:121-125). `RotationProbe` and
  `ProbeIsNextRotation` state this, and `TurnKeepsFit` holds for every kind
  except I.
- `clearFullLines` can remove 21 lines on an arbitrary grid, when row 0's
  range is full as well. `ClearLinesCount` proves at most 21 in general,
  and at most 20 when row 0's range holds no block.
- The pause menu's 'n' deletes the field and opens the main menu
  (src/GameController.cpp:74-86). The menu resets score, lines and level;
  its answer, a new game on either board or leaving, is a parameter of
  `Input` here (`MenuChoice`).

## Model

| member | source | states |
|---|---|---|
| Figures.KindOfColor | src/Figure.cpp:42-102 | A recognised colour is the colour of the kind returned, and every kind's own colour is recognised as that kind; any other string is no kind |
| Figures.ColorsDistinct | src/Figure.cpp:114-181 | Two kinds have the same constructor colour exactly when they are the same kind |
| Figures.Bitmap.At | src/Figure.cpp:14-19 | A cell reads occupied only inside [0, height) x [0, width) |
| Figures.InitialShapesHaveFourCells | src/Figure.cpp:114-181 | Every constructor shape is a well-formed bitmap with exactly four occupied cells |
| Figures.TableEntriesHaveFourCells | src/Figure.cpp:48-112 | Every rotation table entry is a well-formed bitmap with exactly four occupied cells |
| Figures.IStatesHaveFourCells | src/Figure.cpp:103-109 | Each of the four I-piece table entries has exactly four occupied cells |
| Figures.InitialIsStateZero | src/Figure.cpp:114-181 | Each rotating kind's constructor shape equals its table entry for state 0 |
| Figures.CountedCellIsPlaced | src/Figure.cpp:14-19 | A bitmap with a positive cell count has an occupied cell at some (row, column) inside the box |
| Figures.ShapesHaveCells | src/Figure.cpp:48-181 | Every constructor shape and every table entry has an occupied cell |
| Figures.Rotated | src/Figure.cpp:33-113 | Colour and position are kept. The state becomes (s+1) mod 4, or 0 for the magenta O. An O or an unknown colour keeps its shape; a rotating kind takes its table entry for the new state |
| Figures.RotatedKeepsCell | src/Figure.cpp:33-113 | Rotation never empties a shape that has an occupied cell |
| Figures.RotatedTimes | src/Figure.cpp:33-113 | Any number of rotations keeps the figure well formed, with its colour and position |
| Figures.RotatedSpawnO | src/Figure.cpp:42-45 | Any number of rotations leaves an O piece exactly as constructed |
| Figures.RotatedSpawnTurning | src/Figure.cpp:47-112 | A constructed rotating piece rotated n times holds its table entry for state n mod 4, in that state |
| Figures.RotatedSpawn | src/Figure.cpp:33-181 | A constructed rotating piece rotated n times holds its table entry for state n mod 4, in that state; an O piece stays exactly as constructed |
| Figures.RotatedStep | src/Figure.cpp:47-112 | Rotating a rotating kind's table entry for state s gives its entry for state (s+1) mod 4 |
| Figures.FourRotationsRestore | src/Figure.cpp:33-181 | Four rotations restore a freshly constructed piece exactly, state 0 included |
| Figures.Figure.constructor | src/Figure.cpp:12 | A default figure is a 2x2 all-empty box with no colour, state 0, at (10, 1) |
| Figures.Figure.Of | src/Figure.cpp:114-181 | Each subclass constructor yields its kind's shape and colour, state 0, at (10, 1) |
| Figures.Figure.GetChar | src/Figure.cpp:14-19 | The cell of the shape at (i, j); false for every index outside the box |
| Figures.Figure.SetPosition | src/Figure.cpp:24-27 | Only the position changes |
| Figures.Figure.Rotate | src/Figure.cpp:33-113 | The figure becomes `Rotated` of its old value |
| Board.Occupied | src/Field.cpp:167-172 | Every coordinate off the grid reads as occupied |
| Board.WriteColor | src/Field.cpp:174-183 | The colour `setch` leaves; `WriteColorRules` states its rules |
| Board.WriteColorRules | src/Field.cpp:174-183 | A non-empty colour overwrites. An empty colour blanks a freed cell and leaves an occupied one alone |
| Board.BucketRowWidth | src/Field.cpp:35-37 | The bucket's width of row r, `6 + 16r/21`; `BucketWidths` states its range and growth |
| Board.ValidAt | src/Field.cpp:66-76 | `isValidPosition`: inside the grid and, on the bucket, inside the row's range |
| Board.BucketWidths | src/Field.cpp:30-38 | Bucket widths run from 6 at row 0 to 22 at row 21 and grow by at most one per row; each range lies inside the grid |
| Board.RangesNest | src/Field.cpp:43-46 | Each row's range is a non-empty interval of the grid containing the range of the row above |
| Board.BucketBottomIsFull | src/Field.cpp:43-46 | The bucket's bottom row spans all 22 columns; every other row stops before column 21 |
| Board.Place | src/Field.cpp:78-94 | `placeFigure` on a grid value of either board: the result is well formed; `PlaceMeaning` states cell by cell what changes |
| Board.PlaceMeaning | src/Field.cpp:151-164 | After placement, a valid cell under an occupied figure cell is occupied and, when the figure has a colour, carries it; every other cell is unchanged |
| Board.RowFull | src/Field.cpp:101-112 | `isLineFull`: every column of the row's range is occupied |
| Board.ShiftDown | src/Field.cpp:117-143 | Removing one line: the result is well formed; `SingleClear` states cell by cell what it holds |
| Board.SingleClear | src/Field.cpp:202-211 | Removing line `row`: rows 1..row take the row above within the overlap of ranges and are emptied elsewhere; row 0's range is emptied; lower rows and out-of-range cells are unchanged |
| Board.ShiftMovesBlocks | src/Field.cpp:117-143 | After a line is removed, row m+1 holds a block exactly when row m did, for m above the removed line |
| Board.ShiftCarriesBlock | src/Field.cpp:126-135 | A block in row m's range moves into row m+1's range |
| Board.ShiftFillsFromAbove | src/Field.cpp:126-135 | An occupied in-range cell of row m+1 after the shift was an occupied in-range cell of row m |
| Board.ShiftCopiesCell | src/Field.cpp:126-135 | A column in both rows' ranges moves down one row |
| Board.ShiftBlockHasSource | src/Field.cpp:117-136 | A block in row m+1 after the shift comes from a block in row m |
| Board.ShiftEmptiesTop | src/Field.cpp:138-143 | Removing a line leaves row 0's range empty |
| Board.ShiftCountsBelow | src/Field.cpp:117-143 | The number of block-holding rows among 0..m+1 after a shift equals that among 0..m before |
| Board.ShiftRemovesBlockRow | src/Field.cpp:114-145 | Removing a full line decreases the number of block-holding rows among 0..row by exactly one, which is why re-examining the same row terminates |
| Board.BlockRows | src/Field.cpp:100 | At most k of the first k rows hold a block |
| Board.ShiftKeepsFullness | src/Field.cpp:114-145 | Lines below the removed one stay full or not full as they were |
| Board.ClearFrom | src/Field.cpp:97-150 | The scan from a row with n lines counted: a full row is removed and examined again, otherwise the scan moves up, stopping above row 1; the grid stays well formed |
| Board.ClearLines | src/Field.cpp:187-217 | `clearFullLines`: the scan from row 20 with nothing counted; `ClearLinesLeavesNoFullRow`, `ClearLinesKeepsWalls` and `ClearLinesCount` state its properties |
| Board.ClearFromNoFullRow | src/Field.cpp:187-217 | The scan from any row, with no full row below it, leaves no full line in rows 1..20 |
| Board.ClearLinesLeavesNoFullRow | src/Field.cpp:187-217 | After `clearFullLines` no line in rows 1..20 is full, on either board |
| Board.ClearFromKeepsOutside | src/Field.cpp:97-150 | The scan never changes a cell outside its row's range, nor the bottom row |
| Board.ClearLinesKeepsWalls | src/Field.cpp:187-217 | `clearFullLines` keeps columns 0 and 21 and row 21 of the rectangle, and everything outside the bucket's ranges |
| Board.ClearFromCount | src/Field.cpp:97-150 | The scan counts at most the number of block-holding rows still above it |
| Board.ClearLinesCount | src/Field.cpp:187-217 | The number of lines removed is at most the number of block-holding rows, so at most 21, and at most 20 when row 0 is empty |
| Board.BlockRowsSkipsEmptyTop | src/Field.cpp:100 | With row 0 empty, at most k-1 of the first k rows hold a block |
| Board.ClearFromNothingFull | src/Field.cpp:187-217 | A grid with no full line is left exactly as it was, with no line counted |
| Fields.InitialGrid | src/Field.cpp:5-57 | The grid a fresh field of either shape holds, well formed; `InitialGridAt` states it cell by cell |
| Fields.InitialGridAt | src/Field.cpp:5-57 | A fresh cell is occupied exactly on the floor and outside its row's range; the wall colour stays only where the rectangle's frame was not rewritten |
| Fields.FreshFieldWalls | src/Field.cpp:5-57 | A fresh field of either shape has a full floor and every cell outside a row's range occupied |
| Fields.FreshRowEmpty | src/Field.cpp:5-57 | A fresh field holds no block in any line above the floor, and none of rows 1..20 is full |
| Fields.FreshFieldEmpty | src/Field.cpp:5-57 | On a fresh field, clearing lines removes none and changes nothing |
| Fields.FreshRectangle | src/Field.cpp:5-11 | The fresh rectangle is occupied exactly on row 21 and columns 0 and 21, coloured " "; everything else is free and blank |
| Fields.FreshBucket | src/Field.cpp:24-57 | A fresh bucket cell is a wall exactly on the floor or outside its row's centred range; only side-column walls keep the frame colour |
| Fields.Field.constructor | src/Field.cpp:5-11 | A new rectangular field holds `InitialGrid(false)` |
| Fields.Field.Bucket | src/Field.cpp:24-28 | A new bucket holds `InitialGrid(true)` |
| Fields.Field.BuildFrame | src/Field.cpp:6-10 | On a blank grid the wall loop makes exactly row 21 and columns 0 and 21 occupied in " " |
| Fields.Field.InitializeBucketShape | src/Field.cpp:30-57 | Records each row's width, marks every cell outside its row's range as a wall and fills the floor row |
| Fields.Field.GetRowWidth | src/Field.cpp:59-64 | The bucket's width of an on-grid row; 22 off the rows and on the rectangle (include/Field.h:86); always 6..22 |
| Fields.Field.IsValidPosition | src/Field.cpp:66-76 | Valid exactly when inside the grid and, on the bucket, inside the row's centred range |
| Fields.Field.Getch | src/Field.cpp:167-172 | The cell's occupancy; true off the grid |
| Fields.Field.GetColor | src/Field.cpp:17-22 | The cell's colour; white off the grid |
| Fields.Field.Setch | src/Field.cpp:174-183 | Off the grid nothing changes. On it, only that cell changes: occupancy becomes `value` and the colour follows `WriteColor` |
| Fields.Field.PlaceFigure | src/Field.cpp:78-94 | The grid becomes `Place` of the old grid: every valid cell under an occupied figure cell is written, nothing else |
| Fields.Field.PlaceRow | src/Field.cpp:155-163 | Placing row i of the figure extends the placed prefix from (i, 0) to (i+1, 0) |
| Fields.Field.RowPlaced | src/Field.cpp:155-163 | Having placed all of row i is having placed everything before row i+1 |
| Fields.Field.PlaceCell | src/Field.cpp:84-91 | Figure cell (i, j) is written exactly when occupied and landing on a valid cell |
| Fields.Field.IsLineFull | src/Field.cpp:101-112 | The scan with early exit reports exactly whether every column of the row's range is occupied |
| Fields.Field.CopyRowDown | src/Field.cpp:117-135 | Row m takes row m-1 where the ranges overlap and is emptied elsewhere in its range; nothing else changes |
| Fields.Field.CopyColumns | src/Field.cpp:126-135 | The column loop of one row: in-overlap cells take the cell above, the rest of the range is emptied |
| Fields.Field.ClearTopRow | src/Field.cpp:138-143 | Row 0's range is emptied; nothing else changes |
| Fields.Field.MoveRowsDown | src/Field.cpp:117-136 | Rows `row` down to 1 each take the old row above within their range; other cells keep their old values |
| Fields.Field.ShiftDownFrom | src/Field.cpp:115-143 | The arrays become `ShiftDown` of the old grid |
| Fields.Field.ClearFullLines | src/Field.cpp:97-150 | The arrays become `ClearLines(old grid).grid` and the result is its count; on the rectangle this is src/Field.cpp:187-217 |
| Pictures.ProgressDone | src/PictureField.cpp:158-179 | After the cell loop the grid is `Place` on the rectangle, the current picture is `Mark`, and the flags say whether a cell reached the target and whether one strayed |
| Pictures.TargetOf | src/PictureField.cpp:32-65 | The target mask of a picture type, one entry per cell; `SquareTarget`, `UnknownTypeIsSquare` and `EmptyPictures` describe it |
| Pictures.InTarget | src/PictureField.cpp:215-220 | `isInTargetArea` on a mask: false off the grid |
| Pictures.Complete | src/PictureField.cpp:222-228 | `isPictureComplete`: every target cell is set in the current picture |
| Pictures.Mark | src/PictureField.cpp:164-173 | The current picture after a piece sets the target cells it covers, one entry per cell; `MarkStaysInTarget` states that it only adds target cells |
| Pictures.PictureField.constructor | src/PictureField.cpp:17-31 | A fresh rectangular field with its frame, empty current picture and colours, the target of the type, not over |
| Pictures.PictureField.RepaintFrame | src/PictureField.cpp:24-28 | The constructor's wall loop leaves the already-framed grid unchanged |
| Pictures.PictureField.LoadPicture | src/PictureField.cpp:32-65 | Both masks are cleared, then the target is the type's picture (the square for an unknown type); `gameOver` is kept |
| Pictures.PictureField.DrawSquare | src/PictureField.cpp:67-84 | The target is exactly rows 11..20 x columns 6..15 |
| Pictures.PictureField.DrawTriangle | src/PictureField.cpp:106-135 | The target is exactly the triangle: row 5+t spans `max(1, 19t/16)` columns centred on columns 1..19 |
| Pictures.PictureField.IsValidPosition | src/PictureField.cpp:211-213 | Exactly the 22 x 22 grid test |
| Pictures.PictureField.IsInTargetArea | src/PictureField.cpp:215-220 | The target mask on the grid; false off it |
| Pictures.PictureField.IsPictureComplete | src/PictureField.cpp:222-228 | True exactly when every target cell is set in the current picture |
| Pictures.PictureField.PlaceFigure | src/PictureField.cpp:152-201 | Placement as `Placed` says. `gameOver` becomes true exactly when it was, or a cell strayed, or a cell reached the target and the picture is complete |
| Pictures.PictureField.PlaceCells | src/PictureField.cpp:158-179 | The cell loop leaves `Placed` and reports `Reaches` and `Strays` |
| Pictures.PictureField.PlaceCell | src/PictureField.cpp:160-177 | One figure cell moves the loop state from (i, j) to (i, j+1) |
| Pictures.PictureField.MarkCell | src/PictureField.cpp:164-175 | An on-grid cell becomes occupied in the piece's colour; a target cell is also set and painted; the result says whether it is in the target |
| Pictures.PictureField.ResetGame | src/PictureField.cpp:203-209 | `gameOver` is cleared, the current picture and its colours are emptied, the target and the grid stay |
| Pictures.MarkStaysInTarget | src/PictureField.cpp:164-173 | Placement only adds cells, and only target cells, so the current picture stays inside the target |
| Pictures.CompleteStaysComplete | src/PictureField.cpp:222-228 | A complete picture stays complete after any placement |
| Pictures.EmptyPictures | src/PictureField.cpp:86-104 | The diamond, house, arrow, butterfly and star pictures are complete from the start, and any piece with a cell strays from them |
| Pictures.UnknownTypeIsSquare | src/PictureField.cpp:62-63 | An unknown picture type gets the square's target |
| Pictures.SquareTarget | src/PictureField.cpp:67-84 | The square's mask holds exactly rows 11..20 and columns 6..15 |
| Pictures.TriangleWidths | src/PictureField.cpp:118-121 | Triangle widths run from 1 at the apex to 17 at the base and never narrow |
| Pictures.TriangleRowsNest | src/PictureField.cpp:118-127 | Each triangle row spans the row above it |
| Pictures.PicturesInsideFrame | src/PictureField.cpp:67-135 | Every picture cell lies above the floor and between the side walls, so it is free on a fresh field |
| GameSettings.IsValidKey | src/Settings.cpp:62-64 | `isValidKey`: a printable ASCII character, space included |
| GameSettings.DropPointsForLevel | src/Settings.cpp:161-163 | Points per row of a hard drop; `DropPointsRules` states them |
| GameSettings.SpeedForLevel | src/Settings.cpp:165-170 | The gravity delay for a level; `SpeedRules` states its values and monotonicity |
| GameSettings.ToLower | src/Settings.cpp:104 | Upper-case ASCII letters map to their lower case; every other character is unchanged |
| GameSettings.ControlFor | src/Settings.cpp:84-90 | The bound key, or the character 0 for an unknown action |
| GameSettings.LevelIn | src/Settings.cpp:135-138 | The LEVEL setting, 1 when absent |
| GameSettings.SpeedRules | src/Settings.cpp:165-170 | The delay is 200000 at level 1, never below 50000, non-increasing in the level, 200000 - 15000(l-1) up to level 10 and 50000 from level 11 |
| GameSettings.DropPointsRules | src/Settings.cpp:161-163 | Drop points grow by 50 per level and are positive exactly at positive levels |
| GameSettings.RebindKeepsDistinct | src/Settings.cpp:70-82 | Binding a key no other action holds keeps bindings pairwise distinct |
| GameSettings.DefaultsDistinct | src/Settings.cpp:29-36 | The default bindings cover the seven actions with pairwise distinct keys |
| GameSettings.SkipSpaces | src/Settings.cpp:222 | The first non-space index at or after i |
| GameSettings.DigitsEnd | src/Settings.cpp:222 | The first non-digit index at or after i |
| GameSettings.Stoi | src/Settings.cpp:220-224 | A parsed value is always in the 32-bit range |
| GameSettings.DecimalText | src/Settings.cpp:181-183 | Written numbers are non-empty strings of digits |
| GameSettings.DecimalRoundTrip | src/Settings.cpp:181-183 | The value of a number's decimal text is the number |
| GameSettings.StoiReadsWrittenNumber | src/Settings.cpp:220-224 | Every 32-bit number written as the settings file stores it is read back unchanged |
| GameSettings.DigitsRunToEnd | src/Settings.cpp:222 | A run of digits to the end of the string ends at its length |
| GameSettings.FirstEquals | src/Settings.cpp:205 | The first '=' at or after i, or the length when there is none |
| GameSettings.SplitPair | src/Settings.cpp:204-205 | A pair splits the line at its first '=' with a non-empty value; no pair when there is no '=' or the line ends with it |
| GameSettings.LoadLine | src/Settings.cpp:196-226 | The loader's handling of one line; `LoadLineRules` states its rules |
| GameSettings.LoadLines | src/Settings.cpp:195-228 | The loader over lines in file order; `LoadKeepsDistinct` states that it keeps keys distinct |
| GameSettings.LoadLineRules | src/Settings.cpp:196-219 | Empty and '#' lines change nothing; a bracketed line only sets the section; in CONTROLS a one-character value is taken exactly when no other action holds it |
| GameSettings.EqualsSplit | src/Settings.cpp:204-205 | `key=value`, with no '=' in the key, splits back into that key and value |
| GameSettings.LoadKeepsDistinct | src/Settings.cpp:195-228 | Loading any lines never makes two actions share a key |
| GameSettings.Settings.constructor | src/Settings.cpp:19-23 | Reserved keys, then the defaults, then the file's lines when there is a file |
| GameSettings.Settings.InitReservedKeys | src/Settings.cpp:25-27 | The reserved keys are exactly 1 2 3 4 s h r n v q; nothing else changes |
| GameSettings.Settings.LoadDefaultControls | src/Settings.cpp:29-42 | The defaults are written over the current maps |
| GameSettings.Settings.GetLinesForNextLevel | src/Settings.cpp:140-143 | Ten lines per level |
| GameSettings.Settings.SetControl | src/Settings.cpp:92-117 | Succeeds exactly when the action exists and the lower-cased key is unreserved, held by no other action and printable. On success only that binding changes; on failure nothing does |
| GameSettings.Settings.IsKeyReserved | src/Settings.cpp:66-68 | `isKeyReserved`: the key is one of the reserved keys |
| GameSettings.Settings.IsKeyAvailableForAction | src/Settings.cpp:70-82 | `isKeyAvailableForAction`: not reserved, held by no other action, printable; `SetControlKeepsDistinct` states what it guards |
| GameSettings.Settings.KeyAvailable | src/Settings.cpp:70-82 | Whether the key is available for the action |
| GameSettings.Settings.KeyHeldByOther | src/Settings.cpp:75-79 | Whether another action holds the key |
| GameSettings.Settings.SetLevel | src/Settings.cpp:145-149 | Stores the level and the matching gravity delay; nothing else changes |
| GameSettings.Settings.ResetToDefaults | src/Settings.cpp:232-236 | Both maps become exactly the defaults |
| GameSettings.Settings.LoadSettings | src/Settings.cpp:189-230 | With a file the maps become `LoadLines` of the lines; without one nothing changes |
| GameSettings.Settings.LoadOneLine | src/Settings.cpp:196-226 | One line moves the loader state as `LoadLine` says |
| GameSettings.SpeedFollowsLevel | src/Settings.cpp:145-149 | The defaults and every state `setLevel` leaves have the delay matched to the level, and the level is the one set |
| GameSettings.SetControlKeepsDistinct | src/Settings.cpp:104-116 | A successful `setControl` keeps the bindings pairwise distinct |
| Scores.InsertDesc | src/Score.cpp:58-61 | Insertion adds exactly the new entry: one longer, the same multiset plus it |
| Scores.InsertKeepsSorted | src/Score.cpp:58-61 | Inserting into a table sorted by descending score keeps it sorted |
| Scores.GameScore.constructor | src/Score.cpp:11-26 | Without a file the table is empty; with one it is a sorted permutation of the stored entries |
| Scores.GameScore.SortByScore | src/Score.cpp:22-25 | The table becomes a sorted permutation of itself |
| Scores.GameScore.AddScore | src/Score.cpp:43-64 | The table grows by exactly the new entry, stays a sorted permutation, and the first min(10, size) entries are written |
| Scores.GameScore.SaveScores | src/Score.cpp:29-41 | Exactly the first min(10, size) entries are written, at most ten |
| Scores.GameScore.GetTopScores | src/Score.cpp:66-69 | A prefix of the table of length min(count, size) |
| Scores.TopScoresAreHighest | src/Score.cpp:66-69 | In a sorted table the returned top entries score at least as much as every later entry |
| Game.PoseHasCells | src/Figure.cpp:33-181 | Every pose of every kind is well formed and has an occupied cell |
| Game.SpawnIsPose | src/GameController.cpp:465-476 | A spawned piece is its kind's pose in state 0 at (10, 1) |
| Game.PoseRotated | src/Figure.cpp:33-113 | Rotating a pose gives the same kind's pose for the next state, state 0 for O |
| Game.PosesAreClosed | src/GameController.cpp:22-125 | Moving, rotating and spawning all yield poses |
| Game.FitsFromRows | src/GameController.cpp:413-428 | The row-by-row test holds exactly when every remaining row fits |
| Game.FitsMeaning | src/GameController.cpp:413-428 | `Fits` holds exactly when every occupied cell lands on a valid, free cell |
| Game.FitsInsideGrid | src/GameController.cpp:413-428 | A shape with a cell fits only with its top row inside the grid |
| Game.MovedCanMove | src/GameController.cpp:407-430 | Testing a shift of a moved piece is testing the combined shift |
| Game.CanMoveInAt | src/GameController.cpp:407-430 | `CanMove` on a field is `Fits` of the grid, shape and shifted corner |
| Game.ProbeBase | src/GameController.cpp:362-369 | The scratch figure for a colour is always well formed |
| Game.RotationProbe | src/GameController.cpp:357-384 | The rotation probe is always well formed |
| Game.ProbeIsNextRotation | src/GameController.cpp:357-384 | For a piece in a pose the probe is its next rotation in place, except I, which is one column left in an even state and right in an odd one |
| Game.FallStaysInGrid | src/GameController.cpp:22-26 | A piece can only fall to a row inside the grid |
| Game.DropDepth | src/GameController.cpp:36-38 | The depth found is the first whose next row does not fit, and every depth on the way fits |
| Game.Lock | src/GameController.cpp:437-462 | Locking writes the piece and clears lines, leaving no full line; piece, counter and flags are kept; lines and level never drop, nor the score at a level of at least 0 |
| Game.Scored | src/GameController.cpp:441-462 | n lines add n to the total and `LinePoints(n)` times the level to the score, and raise the level by one exactly when n > 0 and the total reaches ten per level |
| Game.Respawn | src/GameController.cpp:464-488 | The next kind of the cycle at (10, 1), the counter one higher, and the game ends exactly when the new piece does not fit; nothing else changes |
| Game.RespawnOf | src/GameController.cpp:464-488 | The spawn step from the state with the new piece in place |
| Game.Settle | src/GameController.cpp:432-490 | `NewPosition`: no change without a field or while the piece can still fall one row; otherwise `Lock` then `Respawn`. The state stays sound |
| Game.Lowered | src/GameController.cpp:36-51 | The piece falls as far as it fits, every row on the way fitting, earning the level's drop points per row; nothing else changes |
| Game.LoweredBy | src/GameController.cpp:39-51 | Descending by the depth found moves the piece by that depth and adds its points |
| Game.Drop | src/GameController.cpp:28-54 | `DropFigure`: no change without a field; otherwise the descent `Lowered`, then `Settle`. The state stays sound |
| Game.Shifted | src/GameController.cpp:101-110 | LEFT and RIGHT: the piece moves one column exactly when `CanMoveIn(p, dx, 0)`, otherwise nothing changes. The state stays sound |
| Game.SoftDropped | src/GameController.cpp:111-117 | DOWN: exactly when `CanMoveIn(p, 0, 1)`, the piece moves one row down and the score grows by 40 times the level; otherwise nothing changes. The state stays sound |
| Game.Turned | src/GameController.cpp:121-125 | ROTATE: the piece is rotated in place exactly when the probe fits (`CanRotateIn`); otherwise nothing changes. The state stays sound |
| Game.Restarted | src/GameController.cpp:74-86 | The pause menu's 'n': unpaused, score 0, lines 0, level 1 (src/GameController.cpp:557-560); starting gives a fresh field of the chosen shape and an O piece, leaving gives no field and stops the game. The state stays sound |
| Game.InputSpec | src/GameController.cpp:57-133 | The dispatch: paused, 'r' unpauses, 'q' stops, 'n' is `Restarted` and every other key changes nothing; running, the first of LEFT, RIGHT, DOWN, DROP, ROTATE, PAUSE, QUIT whose binding matches acts (`Shifted`, `SoftDropped`, `Drop`, `Turned`, pause, stop), and an unbound key changes nothing. The state stays sound |
| Game.CanMoveIn | src/GameController.cpp:407-430 | `CanMove`: false without a field, otherwise whether the piece fits shifted by (dx, dy); its meaning is stated by `CanMoveInAt` and `FitsMeaning` |
| Game.CanRotateIn | src/GameController.cpp:357-405 | `CanRotate`: false without a field, otherwise whether the rotation probe fits; the probe is described by `ProbeIsNextRotation` |
| Game.AutoMoveDownSpec | src/GameController.cpp:22-26 | Gravity: one row down exactly when the piece fits there; `MovesKeepFit` states that the piece still fits |
| Game.LinePoints | src/GameController.cpp:444-450 | Points for n lines at once, before the level factor; `LinePointsTable` states the table |
| Game.SpawnKind | src/GameController.cpp:465-474 | The kind spawned for a counter value; `SpawnCycle` and `SpawnKindAt` state the cycle |
| Game.AddPointsSpec | src/GameController.cpp:492-494 | `addPoints`: the score grows by the points, nothing else changes |
| Game.UpdateLevelSpec | src/GameController.cpp:496-510 | `updateLevel`: one level up exactly when the lines reach ten per level; `LevelRisesByOne` states it |
| Game.LinePointsTable | src/GameController.cpp:444-450 | 1, 2, 3, 4 lines score 100, 300, 500, 800; any other count scores 0 |
| Game.SpawnCycle | src/GameController.cpp:465-474 | Pieces come in the cycle O, L, T, I, S, Z, J, repeating every seven |
| Game.SpawnKindAt | src/GameController.cpp:465 | The kind depends only on the counter modulo 7 |
| Game.LevelRisesByOne | src/GameController.cpp:496-510 | `updateLevel` raises the level by one exactly when lines reach ten per level, and otherwise changes nothing |
| Game.SettleWhileFalling | src/GameController.cpp:435-436 | `NewPosition` changes nothing while the piece can still fall |
| Game.SettleLands | src/GameController.cpp:437-488 | When the piece cannot fall, it is written into the field, full lines are cleared and counted, the next kind spawns, and the game ends exactly when it does not fit |
| Game.DropAlwaysLands | src/GameController.cpp:28-54 | A hard drop always locks the piece: the next one has spawned |
| Game.SettleAdvances | src/GameController.cpp:432-490 | After `NewPosition` the piece is still a pose, and the counter, lines, level and (at level at least 0) score have not gone down |
| Game.AdvancesTrans | src/GameController.cpp:57-133 | Advancing is transitive |
| Game.DescentAdvances | src/GameController.cpp:39-51 | Moving down by a nonnegative distance at a nonnegative rate advances |
| Game.DropAdvances | src/GameController.cpp:28-54 | A hard drop advances |
| Game.MovesAdvance | src/GameController.cpp:101-110 | Shifting advances |
| Game.TurnAdvances | src/GameController.cpp:121-125 | Turning advances |
| Game.SoftDropAdvances | src/GameController.cpp:111-117 | The soft drop advances |
| Game.InputAdvances | src/GameController.cpp:57-133 | Every input character advances, except the pause menu's 'n' |
| Game.NewGameFits | src/GameController.cpp:80-82 | The O piece a new game starts with fits at (10, 1) on a fresh field of either shape |
| Game.SpawnCellsFree | src/Field.cpp:5-57 | Rows 1..2, columns 10..11 are valid and free on a fresh field of either shape |
| Game.SpawnCellInBucket | src/Field.cpp:35-46 | Columns 10 and 11 lie in the bucket's ranges of rows 1 and 2 |
| Game.PausedRestart | src/GameController.cpp:74-86 | After the pause menu's 'n' the game is unpaused with score 0, lines 0, level 1 and the counter kept; leaving ends the game with no field, and starting gives the chosen fresh field with an O piece in a pose that fits |
| Game.MovesKeepFit | src/GameController.cpp:22-26 | A fitting piece still fits after a shift, a soft drop or gravity |
| Game.TurnKeepsFit | src/GameController.cpp:121-125 | A fitting piece of any kind but I still fits after a turn |
| Game.GameController.constructor | src/GameController.cpp:9-14 | No field, a default figure at (10, 1), counter 1, running, not paused, nothing scored |
| Game.GameController.StartGame | src/GameController.cpp:557-663 | Score and lines reset, level 1, a fresh rectangle or bucket, and an O piece in play |
| Game.GameController.FigureFits | src/GameController.cpp:413-429 | The scan reports exactly whether the shape fits at the corner |
| Game.GameController.CanMove | src/GameController.cpp:407-430 | False with no field; otherwise whether the shifted piece fits. Figure and field are untouched |
| Game.GameController.CanRotate | src/GameController.cpp:357-405 | False with no field; otherwise whether the rotation probe fits. The piece is untouched |
| Game.GameController.AutoMoveDown | src/GameController.cpp:22-26 | The state becomes `AutoMoveDownSpec`: one row down exactly when it fits |
| Game.GameController.AddPoints | src/GameController.cpp:492-494 | The score grows by the points; nothing else changes |
| Game.GameController.UpdateLevel | src/GameController.cpp:496-510 | The state becomes `UpdateLevelSpec` of the old one |
| Game.GameController.NewPosition | src/GameController.cpp:432-490 | The state becomes `Settle` of the old one |
| Game.GameController.LockFigure | src/GameController.cpp:437-462 | The state becomes `Lock` of the old one |
| Game.GameController.AwardLines | src/GameController.cpp:441-462 | The state becomes `Scored` of the old one |
| Game.GameController.SpawnNext | src/GameController.cpp:464-488 | The state becomes `Respawn` of the old one |
| Game.GameController.DropFigure | src/GameController.cpp:28-54 | The state becomes `Drop` of the old one |
| Game.GameController.Lower | src/GameController.cpp:39-51 | The piece moves down by the depth, with the level's drop points per row; nothing else changes |
| Game.GameController.DropDistance | src/GameController.cpp:36-38 | The loop's depth is `DropDepth` |
| Game.GameController.Shift | src/GameController.cpp:101-110 | The state becomes `Shifted` of the old one |
| Game.GameController.SoftDrop | src/GameController.cpp:111-117 | The state becomes `SoftDropped` of the old one |
| Game.GameController.Turn | src/GameController.cpp:121-125 | The state becomes `Turned` of the old one |
| Game.GameController.Restart | src/GameController.cpp:74-86 | The state becomes `Restarted` of the old one for the menu's answer; starting creates a fresh field |
| Game.GameController.Input | src/GameController.cpp:57-133 | The state becomes `InputSpec` of the old one for the character, bindings and menu answer; the field object is kept except after the pause menu's 'n' |
| Game.FigureOfColor | src/GameController.cpp:362-369 | A fresh figure whose value is `ProbeBase` of the colour |
| Game.RotationTestFigure | src/GameController.cpp:370-382 | A fresh figure whose value is the rotation probe of the piece |

## Left out

- Terminal I/O is not modelled: drawing, cursor movement, colours on screen, the resize handler, raw keyboard mode and reading keys. The key `Input` reads is a parameter.
- The menus (`GameMenu`, the pause and settings menus) and the `run` loop are not modelled. `StartGame` and `Restart` model only their effect on the controller's state: resets, the chosen field and the first O piece.
- Game.GameController.Input: the main menu that the paused 'n' key opens is modelled only by its answer, the parameter `choice`; its score-table and settings entries are not modelled. The paused 's' key opens the settings menu, which is not modelled, so it changes no controller state here. The paused 'v' key only draws, so it is a no-op.
- `usleep` and the gravity delay's use as a sleep time are not modelled. The delay value itself is modelled as `SpeedForLevel`.
- `scoreSystem.addScore` on game over inside `NewPosition` is not modelled as part of the controller. `GameScore.AddScore` models it on its own.
- File I/O is not modelled: `saveSettings`, opening the settings and score files, and the `localtime` date. The settings file is its sequence of lines, the score file its stored entries, and the date a parameter.
- The `Settings` singleton (`getInstance` / `destroyInstance`) is not modelled. The level is plain controller state.
- `getPictureName` returns display strings only and is not modelled. Neither is the printing and sleeping inside `PictureField::placeFigure`.
- The 32-bit integer width of score, lines, level and counter is not modelled: they are unbounded. Only `Stoi` enforces the 32-bit range, as `std::stoi` does.
- Scores.GameScore.GetTopScores requires `count >= 0`. A negative count would make the source build a vector from a reversed range, which is undefined behaviour.
- Scores.GameScore.SortByScore: `std::sort` is not stable and leaves the order of equal scores unspecified. The model sorts by insertion and proves only "sorted by score, a permutation", which is all `std::sort` guarantees.
- The rotation probe of the I piece is modelled as written: one column aside, while the turn itself stays in place. Game.TurnKeepsFit therefore excludes the I piece.
- Game.GameController.FigureFits: `CanMove` and `CanRotate` run the same cell loop. It is one method here; `CanRotate`'s loop stops at the first failing cell, and `CanMove` returns at it, both with the same result.
- Game.InputAdvances excludes the pause menu's 'n': a new game resets score, lines and level, so it does not advance. `PausedRestart` states that case instead.
- Board.ClearLinesCount bounds the lines one call removes by 21, and by 20 only when row 0's range holds no block. That row 0 never holds a block during play is argued, not proved: no controller invariant states it.
- Game.Lowered adds the drop points even when the depth is 0. The source skips the block when the depth is 0, which leaves the same state, since 0 points are added.
- Game.Drop and the other step functions require a piece with an occupied cell whenever there is a field (`Play.Sound`). With an all-empty figure the source's drop loop never stops. Every piece the game puts on a field has four cells.
- The header methods with no body (`showProgress`, `getPictureBounds`, `setSequenceMode` and others) have nothing to model.
