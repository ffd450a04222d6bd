/**
 The falling piece: a kind, a rotation and the grid position of the top-left
 corner of its 4x4 box, with the constructor and the four unit moves.

 Positions are unbounded integers.
 */
module Pieces {
  import opened Shapes

  /** A falling piece; (x, y) is the grid cell of the top-left corner of its box. */
  datatype Tetromino = Tetromino(kind: TetrominoType, rotation: Rotation, x: int, y: int)

  /** A new piece of kind `kind` with its box at (x, y), in the initial rotation. */
  function NewTetromino(kind: TetrominoType, x: int, y: int): (t: Tetromino)
    ensures t.kind == kind && t.rotation == R0
    ensures t.x == x && t.y == y
  {
    Tetromino(kind, R0, x, y)
  }

  /** Every cell of `cells` shifted by (dx, dy). */
  function Translate(cells: set<Cell>, dx: int, dy: int): (moved: set<Cell>)
    ensures |moved| == |cells|
  {
    TranslateCardinality(cells, dx, dy);
    set c | c in cells :: Shift(c, dx, dy)
  }

  /** A cell is in the shifted set exactly when shifting it back gives a cell of the original. */
  lemma TranslateMembers(cells: set<Cell>, dx: int, dy: int, p: Cell)
    ensures p in Translate(cells, dx, dy) <==> (p.0 - dx, p.1 - dy) in cells
  {
    if (p.0 - dx, p.1 - dy) in cells {
      assert p == Shift((p.0 - dx, p.1 - dy), dx, dy);
    }
  }

  /** Cell `c` shifted by (dx, dy). */
  function Shift(c: Cell, dx: int, dy: int): Cell {
    (c.0 + dx, c.1 + dy)
  }

  /** Shifting is injective, so it keeps the number of cells. */
  lemma {:induction false} TranslateCardinality(cells: set<Cell>, dx: int, dy: int)
    ensures |set c | c in cells :: Shift(c, dx, dy)| == |cells|
    decreases |cells|
  {
    if cells != {} {
      var p :| p in cells;
      var rest := cells - {p};
      TranslateCardinality(rest, dx, dy);
      var movedRest := set c | c in rest :: Shift(c, dx, dy);
      var moved := set c | c in cells :: Shift(c, dx, dy);
      assert moved == movedRest + {Shift(p, dx, dy)} by {
        assert cells == rest + {p};
      }
      assert Shift(p, dx, dy) !in movedRest by {
        forall c | c in rest ensures Shift(c, dx, dy) != Shift(p, dx, dy) {
          assert c != p;
        }
      }
    }
  }

  /** The grid cells a piece fills: its shape placed with its box corner at (x, y). */
  function Cells(t: Tetromino): (cs: set<Cell>)
    ensures |cs| == 4
  {
    ShapeSize(t.kind, t.rotation);
    Translate(Shape(t.kind, t.rotation), t.x, t.y)
  }

  /**
   Grid cell (x, y) is filled by `t` exactly when it lies in the piece's box at
   offset (x - t.x, y - t.y) and the shape table marks that offset.
   */
  lemma CellOccupancy(t: Tetromino, x: int, y: int)
    ensures (x, y) in Cells(t) <==>
      0 <= x - t.x < 4 && 0 <= y - t.y < 4 && IsCellOccupied(t.kind, t.rotation, x - t.x, y - t.y)
  {
    TranslateMembers(Shape(t.kind, t.rotation), t.x, t.y, (x, y));
    ShapeMembers(t.kind, t.rotation, (x - t.x, y - t.y));
  }

  /**
   Grid cell (x, y) is filled by `t` exactly when it lies in the piece's box
   and bit 15 - (row * 4 + col) of the piece's mask is set, where (col, row)
   is the cell's offset from the box corner.
   */
  lemma CellIsMaskBit(t: Tetromino, x: int, y: int)
    ensures (x, y) in Cells(t) <==>
      0 <= x - t.x < 4 && 0 <= y - t.y < 4 &&
      BitSet(Mask(t.kind, t.rotation), 15 - ((y - t.y) * 4 + (x - t.x)))
  {
    TranslateMembers(Shape(t.kind, t.rotation), t.x, t.y, (x, y));
    ShapeBits(t.kind, t.rotation, (x - t.x, y - t.y));
  }

  /** One cell to the left. */
  function MoveLeft(t: Tetromino): (r: Tetromino)
    ensures r.x == t.x - 1 && r.y == t.y
    ensures r.kind == t.kind && r.rotation == t.rotation
  {
    Tetromino(t.kind, t.rotation, t.x - 1, t.y)
  }

  /** One cell to the right. */
  function MoveRight(t: Tetromino): (r: Tetromino)
    ensures r.x == t.x + 1 && r.y == t.y
    ensures r.kind == t.kind && r.rotation == t.rotation
  {
    Tetromino(t.kind, t.rotation, t.x + 1, t.y)
  }

  /** One cell up (towards row 0). */
  function MoveUp(t: Tetromino): (r: Tetromino)
    ensures r.x == t.x && r.y == t.y - 1
    ensures r.kind == t.kind && r.rotation == t.rotation
  {
    Tetromino(t.kind, t.rotation, t.x, t.y - 1)
  }

  /** One cell down (away from row 0). */
  function MoveDown(t: Tetromino): (r: Tetromino)
    ensures r.x == t.x && r.y == t.y + 1
    ensures r.kind == t.kind && r.rotation == t.rotation
  {
    Tetromino(t.kind, t.rotation, t.x, t.y + 1)
  }

  // ---------------------------------------------------------------------------
  // Facts about pieces and moves

  /** A new piece fills its initial-rotation shape placed at (x, y). */
  lemma NewTetrominoCells(kind: TetrominoType, x: int, y: int)
    ensures Cells(NewTetromino(kind, x, y)) == Translate(Shape(kind, R0), x, y)
  {
  }

  /** Shifting by (a, b) and then by (c, d) is shifting by (a + c, b + d). */
  lemma TranslateTwice(cells: set<Cell>, a: int, b: int, c: int, d: int)
    ensures Translate(Translate(cells, a, b), c, d) == Translate(cells, a + c, b + d)
  {
    var once := Translate(cells, a, b);
    forall p ensures p in Translate(once, c, d) <==> p in Translate(cells, a + c, b + d) {
      var q := (p.0 - c, p.1 - d);
      TranslateMembers(once, c, d, p);
      TranslateMembers(cells, a, b, q);
      TranslateMembers(cells, a + c, b + d, p);
      assert (q.0 - a, q.1 - b) == (p.0 - (a + c), p.1 - (b + d));
    }
  }

  /** Shifting a piece's box by (dx, dy) shifts every cell it fills by (dx, dy) and nothing else. */
  lemma ShiftMovesCells(t: Tetromino, dx: int, dy: int)
    ensures Cells(t.(x := t.x + dx, y := t.y + dy)) == Translate(Cells(t), dx, dy)
  {
    MovedCells(t, t.(x := t.x + dx, y := t.y + dy), dx, dy);
  }

  /** Placing a shape at (x, y) and shifting it by (dx, dy) is placing it at (x + dx, y + dy). */
  lemma PlacedShape(k: TetrominoType, r: Rotation, x: int, y: int, dx: int, dy: int)
    ensures Cells(Tetromino(k, r, x + dx, y + dy)) == Translate(Cells(Tetromino(k, r, x, y)), dx, dy)
  {
    TranslateTwice(Shape(k, r), x, y, dx, dy);
  }

  /** A piece whose box corner is `t`'s moved by (dx, dy) fills `t`'s cells moved by (dx, dy). */
  lemma MovedCells(t: Tetromino, u: Tetromino, dx: int, dy: int)
    requires u == Tetromino(t.kind, t.rotation, t.x + dx, t.y + dy)
    ensures Cells(u) == Translate(Cells(t), dx, dy)
  {
    assert t == Tetromino(t.kind, t.rotation, t.x, t.y);
    PlacedShape(t.kind, t.rotation, t.x, t.y, dx, dy);
  }

  /** Two pieces of the same kind and rotation fill the same cells, shifted by the difference of their positions. */
  lemma SameShapeCells(t: Tetromino, u: Tetromino)
    requires u.kind == t.kind && u.rotation == t.rotation
    ensures Cells(u) == Translate(Cells(t), u.x - t.x, u.y - t.y)
  {
    assert u == Tetromino(t.kind, t.rotation, t.x + (u.x - t.x), t.y + (u.y - t.y));
    MovedCells(t, u, u.x - t.x, u.y - t.y);
  }

  /** Each move shifts the filled cells rigidly by its unit vector. */
  lemma MovesTranslateCells(t: Tetromino)
    ensures Cells(MoveLeft(t)) == Translate(Cells(t), -1, 0)
    ensures Cells(MoveRight(t)) == Translate(Cells(t), 1, 0)
    ensures Cells(MoveUp(t)) == Translate(Cells(t), 0, -1)
    ensures Cells(MoveDown(t)) == Translate(Cells(t), 0, 1)
  {
    MovedCells(t, MoveLeft(t), -1, 0);
    MovedCells(t, MoveRight(t), 1, 0);
    MovedCells(t, MoveUp(t), 0, -1);
    MovedCells(t, MoveDown(t), 0, 1);
  }

  /** Left undoes right and up undoes down, in either order. */
  lemma MovesAreInverse(t: Tetromino)
    ensures MoveLeft(MoveRight(t)) == t && MoveRight(MoveLeft(t)) == t
    ensures MoveUp(MoveDown(t)) == t && MoveDown(MoveUp(t)) == t
  {
  }

  /** A horizontal and a vertical move give the same piece in either order. */
  lemma MovesCommute(t: Tetromino)
    ensures MoveLeft(MoveUp(t)) == MoveUp(MoveLeft(t))
    ensures MoveLeft(MoveDown(t)) == MoveDown(MoveLeft(t))
    ensures MoveRight(MoveUp(t)) == MoveUp(MoveRight(t))
    ensures MoveRight(MoveDown(t)) == MoveDown(MoveRight(t))
  {
  }
}
