/**
 The rotation table's geometry: each kind's four masks are quarter turns of
 one another, up to a shift inside the box. Nothing in the program checks
 this; here it is proved for all 28 entries.
 */
module Rotations {
  import opened Shapes
  import opened Pieces

  /** Each offset of `cells` turned a quarter turn clockwise on the screen (rows grow downwards) about the box corner. */
  function QuarterTurnCells(cells: set<Cell>): set<Cell> {
    set c | c in cells :: (-c.1, c.0)
  }

  /** A cell is in the turned and shifted set exactly when turning it back gives a cell of the original. */
  lemma TurnedMembers(cells: set<Cell>, dx: int, p: Cell)
    ensures p in Translate(QuarterTurnCells(cells), dx, 0) <==> (p.1, dx - p.0) in cells
  {
    TranslateMembers(QuarterTurnCells(cells), dx, 0, p);
    if (p.1, dx - p.0) in cells {
      assert (p.0 - dx, p.1) == (-(dx - p.0), p.1);
    }
  }

  /**
   How far right each shape must move, after a quarter turn about its box
   corner, to land on the table's next rotation.
   */
  function TurnShift(k: TetrominoType, r: Rotation): int {
    match k
    case T => 2
    case O => 1
    case I => if r == R0 || r == R180 then 3 else 2
    case _ => if r == R0 || r == R180 then 2 else 1
  }

  /**
   The table's rotations are quarter turns of one another: each kind's next
   rotation is its current shape turned clockwise and moved right by
   `TurnShift`.
   */
  lemma RotationsAreQuarterTurns(k: TetrominoType, r: Rotation)
    ensures Shape(k, QuarterTurn(r)) == Translate(QuarterTurnCells(Shape(k, r)), TurnShift(k, r), 0)
  {
    TurnedShape(Shape(k, r), Shape(k, QuarterTurn(r)), TurnShift(k, r));
  }

  /** A set is the turned and shifted `cells` when its members are exactly the cells that turn back into `cells`. */
  lemma TurnedShape(cells: set<Cell>, turned: set<Cell>, dx: int)
    requires forall p :: p in turned <==> (p.1, dx - p.0) in cells
    ensures turned == Translate(QuarterTurnCells(cells), dx, 0)
  {
    forall p ensures p in turned <==> p in Translate(QuarterTurnCells(cells), dx, 0) {
      TurnedMembers(cells, dx, p);
    }
  }
}
