# Tetris sprite core, in Dafny

A model of the piece logic in `main.c` of a small raylib Tetris. It covers:

- the seven tetromino kinds and four rotations;
- the 7×4 table of 16-bit shape masks;
- the bit test that reads a mask as a 4×4 occupancy box (bit
  `0x8000 >> (row * 4 + col)` marks box cell `(col, row)`);
- the cells the sprite drawing outlines, at the box corner `(t.x, t.y)` plus
  the offset;
- `newTetromino`;
- the four unit moves;
- the key table and the per-frame input handler that runs it in order.

Modules:

- `Shapes`
  - The kinds, rotations and table.
  - The bit test.
  - `Scan`, the drawing-order reading of a mask.
  - The masks drawn out as pictures (`Picture`, the drawing order) and as
    sets (`Shape`).
  - Lemmas tying the pictures to the table bits:
    - four cells per mask;
    - membership iff the tested bit is set;
    - periodicity of S, Z, I and O.
  - `Shape` is written out as sets rather than derived from the pictures, so
    that facts about a piece's cells do not expand the sequences;
    `ShapeIsPicture` proves the two agree.
- `Pieces`
  - The `Tetromino` record.
  - `NewTetromino`.
  - The cells a piece fills (`Cells`).
  - The moves: inverse pairs, commuting, and rigid translation of the
    filled cells.
- `Sprite`
  - The two nested loops of the sprite drawing, as methods that return the
    outlined cells in drawing order.
  - Proofs that these are exactly the piece's cells, four of them.
- `Rotations`
  - Each kind's next rotation in the table is its current shape turned a
    quarter turn clockwise, then shifted right by a per-entry amount
    (`TurnShift`). main.c never checks this.
- `Input`
  - The key table, with the function pointers as an enumeration
    (`Callback`) and a null pointer as `None`.
  - The input handler, with the keyboard state as a parameter (`HeldKeys`).
  - Its net effect: `x` gains right minus left, and `y` gains down minus up.

## Model

| member | source | states |
|---|---|---|
| `Shapes.TypeIndex` | main.c:17-19 | each kind's ordinal is one of the seven table rows |
| `Shapes.RotationIndex` | main.c:21-23 | each rotation's ordinal is one of the four table columns |
| `Shapes.MaskIsTableEntry` | main.c:32-40 | the mask of (kind, rotation) is the table entry at their ordinals |
| `Shapes.MaskFitsSixteenBits` | main.c:32-40 | no mask has a bit set at or above bit 16, so the 16 tested bits are the whole mask |
| `Shapes.FourBitsSet` | main.c:32-40 | each of the 28 masks has exactly four of its sixteen box bits set |
| `Shapes.ShapeSize` | main.c:32-40 | each shape fills exactly four box cells |
| `Shapes.RotationPeriodicity` | main.c:34-39 | O's mask is the same in all rotations; S, Z and I repeat after a half turn |
| `Shapes.ShapePeriodicity` | main.c:34-39 | so O's cells are the same in every rotation, and those of S, Z and I are the same after a half turn |
| `Shapes.QuarterTurn` | main.c:21-23 | the next rotation in the enumeration's cyclic order |
| `Shapes.HalfTurn` | main.c:21-23 | the rotation two quarter turns on, in the enumeration's cyclic order |
| `Shapes.MarksIffBit` | main.c:100 | for every mask, the test for box cell (col, row) is true exactly when bit 15 - (row * 4 + col) is set |
| `Shapes.OccupiedIffBit` | main.c:100 | a piece's box cell is filled exactly when that bit of its table mask is set |
| `Shapes.ScanIsPicture` | main.c:97-100 | reading each table mask row by row, left to right, visits exactly its picture's offsets in that order |
| `Shapes.ScanLength` | main.c:97-100 | reading any table mask visits four box cells |
| `Shapes.ScanMembers` | main.c:97-100 | for every mask, the reading holds exactly the in-box offsets whose bit test succeeds |
| `Shapes.ScanDistinct` | main.c:97-98 | the reading never visits an offset twice |
| `Shapes.ShapeIsPicture` | main.c:32-40 | the set form of each shape has the same offsets as its picture |
| `Shapes.ShapeMembers` | main.c:97-100 | an offset is in a shape exactly when it is in the 4×4 box and the bit test succeeds for it |
| `Shapes.ShapeBits` | main.c:100 | an offset is in a shape exactly when it is in the box and its bit of the mask is set |
| `Shapes.MarkedBits` | main.c:100 | the set bits among a mask's low sixteen are exactly the bits of the box offsets it marks |
| `Shapes.BitIndexCardinality` | main.c:100 | distinct box offsets test distinct bits |
| `Pieces.NewTetromino` | main.c:111-119 | the new piece has the given kind and position and the initial rotation |
| `Pieces.NewTetrominoCells` | main.c:111-119 | a new piece fills its initial-rotation shape placed at the given position |
| `Pieces.Cells` | main.c:97-105 | a piece fills exactly four grid cells |
| `Pieces.CellOccupancy` | main.c:100-103 | grid cell (x, y) is filled exactly when its offset from the box corner is in the box and the table marks it |
| `Pieces.CellIsMaskBit` | main.c:100-103 | grid cell (x, y) is filled exactly when it is in the box and bit 15 - (row * 4 + col) of the mask is set, with (col, row) = (x - t.x, y - t.y) |
| `Pieces.MoveLeft` | main.c:48 | x decreases by one; y, kind and rotation are unchanged |
| `Pieces.MoveRight` | main.c:49 | x increases by one; y, kind and rotation are unchanged |
| `Pieces.MoveUp` | main.c:50 | y decreases by one; x, kind and rotation are unchanged |
| `Pieces.MoveDown` | main.c:51 | y increases by one; x, kind and rotation are unchanged |
| `Pieces.MovesAreInverse` | main.c:48-51 | left undoes right and up undoes down, in either order |
| `Pieces.MovesCommute` | main.c:48-51 | a horizontal and a vertical move give the same piece in either order |
| `Pieces.MovesTranslateCells` | main.c:48-51 | each move shifts the filled cells rigidly by its unit vector |
| `Pieces.ShiftMovesCells` | main.c:101-103 | moving the box corner by (dx, dy) moves every filled cell by (dx, dy) |
| `Pieces.TranslateTwice` | main.c:101-103 | shifting twice is shifting by the sum |
| `Pieces.PlacedShape` | main.c:101-103 | a shape placed at (x, y) and then shifted by (dx, dy) is the shape placed at (x + dx, y + dy) |
| `Pieces.MovedCells` | main.c:101-103 | a piece whose box corner is moved by (dx, dy), keeping kind and rotation, fills the original cells moved by (dx, dy) |
| `Pieces.SameShapeCells` | main.c:101-103 | two pieces of the same kind and rotation fill the same cells, shifted by the difference of their box corners |
| `Rotations.TurnedMembers` | main.c:32-40 | a cell is in a turned and shifted set exactly when turning it back gives a cell of the original |
| `Rotations.RotationsAreQuarterTurns` | main.c:32-40 | for all 28 entries, the table's next rotation of a kind is its current shape turned clockwise and shifted right by `TurnShift` |
| `Sprite.SpriteCells` | main.c:93-109 | the outlined cells, in drawing order, are the mask's reading placed at (t.x, t.y); there are four, and they are exactly the cells the piece fills |
| `Sprite.MarkedCells` | main.c:97-108 | the outer loop outlines, row by row, the cells the mask marks, at the box corner plus the offset |
| `Sprite.MarkedRow` | main.c:98-107 | the inner loop outlines, left to right, the cells of one box row the mask marks |
| `Sprite.PlacedScanIsCells` | main.c:100-103 | placing a mask's reading at the box corner gives exactly the piece's cells |
| `Sprite.PlaceMembers` | main.c:101-103 | a grid cell is outlined exactly when its offset from the box corner is in the reading |
| `Input.Invoke` | main.c:48-51 | calling a table callback shifts the piece by that move's unit step, keeping kind and rotation, and shifts its cells with it |
| `Input.FireAllShifts` | main.c:63-68 | running any list of entries shifts the piece by the summed steps of the entries that fire, and changes nothing else |
| `Input.KeyCommandsNet` | main.c:56-61 | with main.c's table, the summed steps are right minus left horizontally and down minus up vertically |
| `Input.HandleInputAndUpdateTetromino` | main.c:63-68 | one frame runs the table in order; x gains right minus left, y gains down minus up, kind and rotation are kept, and the cells shift rigidly |
| `Input.FrameEffect` | main.c:56-68 | one frame of the table changes x by right minus left and y by down minus up, keeps kind and rotation, and moves the cells with the box |
| `Input.InputInTableOrder` | main.c:56-68 | the frame applies left, then right, then up, then down, each only while its key is held: after each prefix of the table, the piece is the previous prefix's piece moved by that entry |
| `Input.NoKeysNoMove` | main.c:63-68 | with no key held the piece stays where it is |
| `Input.OpposedKeysCancel` | main.c:63-68 | holding left and right together leaves x unchanged, and holding up and down together leaves y unchanged |

## Left out

- Drawing: `DrawRectangleLines`, the red box outline (main.c:95) and the pixel scaling by `CELL_SIZE` (main.c:9) are not modelled. `Sprite.SpriteCells` returns the grid cells each outline is drawn at, before scaling.
- `drawLines`, `main` and the raylib window loop: graphics and timing only.
- `IsKeyDown`: a raylib call that reads the keyboard. The keyboard state is a parameter (`HeldKeys`), and raylib's key codes are the enumeration `Key`.
- The `Keys` enumeration (main.c:53-55) is declared but never used. Its role is taken by `Key`.
- Function pointers: the `KeyCallback` field is the enumeration `Callback`, and a null pointer is `None`. main.c's table has no null entries.
- `initGrid` (main.c:70-77) and the `Grid` record: its `blocks` array is allocated uninitialised and never read. `drawLines` reads only `width` and `height`, for drawing, which is left out.
- `updateGrid` (main.c:79-81): its body is empty and nothing calls it. Using its result would be undefined behaviour in C, since it returns no value.
- Collision, line clearing, locking and rotation commands: the C code has none.
- Integer width: positions are unbounded integers. Signed `int` overflow in the moves and in the cell arithmetic at main.c:102-103 is undefined behaviour in C and is not modelled.
