/**
 The cell loop of the sprite drawing: which grid cells get a cell outline, and
 in which order. The drawing calls themselves are not modelled; the loop is
 modelled down to the mask test and the absolute position of each cell.
 */
module Sprite {
  import opened Shapes
  import opened Pieces

  /** The offsets of `s`, in order, each shifted by (dx, dy). */
  function Place(s: seq<Cell>, dx: int, dy: int): (placed: seq<Cell>)
    ensures |placed| == |s|
    ensures forall i :: 0 <= i < |s| ==> placed[i] == Shift(s[i], dx, dy)
  {
    seq(|s|, i requires 0 <= i < |s| => Shift(s[i], dx, dy))
  }

  /** Placing a concatenation places each part. */
  lemma PlaceConcat(s: seq<Cell>, u: seq<Cell>, dx: int, dy: int)
    ensures Place(s + u, dx, dy) == Place(s, dx, dy) + Place(u, dx, dy)
  {
    var lhs, rhs := Place(s + u, dx, dy), Place(s, dx, dy) + Place(u, dx, dy);
    forall i | 0 <= i < |lhs| ensures lhs[i] == rhs[i] {
      if i >= |s| {
        assert (s + u)[i] == u[i - |s|];
      }
    }
  }

  /** A cell is placed exactly when shifting it back gives an offset of `s`. */
  lemma PlaceMembers(s: seq<Cell>, dx: int, dy: int, p: Cell)
    ensures p in Place(s, dx, dy) <==> (p.0 - dx, p.1 - dy) in s
  {
    var placed := Place(s, dx, dy);
    if (p.0 - dx, p.1 - dy) in s {
      var i :| 0 <= i < |s| && s[i] == (p.0 - dx, p.1 - dy);
      assert placed[i] == p;
    }
    if p in placed {
      var i :| 0 <= i < |placed| && placed[i] == p;
      assert s[i] == (p.0 - dx, p.1 - dy);
    }
  }

  /** Placing one box offset's pick gives its grid cell when the mask marks the offset, and nothing otherwise. */
  lemma PlacePick(m: bv32, col: nat, row: nat, dx: int, dy: int)
    requires col < 4 && row < 4
    ensures Place(Pick(m, col, row), dx, dy) == if Marks(m, col, row) then [(dx + col, dy + row)] else []
  {
    if Marks(m, col, row) {
      assert Pick(m, col, row) == [(col, row)];
    } else {
      assert Pick(m, col, row) == [];
    }
  }

  /** One step of the inner loop: the next column adds its cell when the mask marks it. */
  lemma ColumnStep(m: bv32, row: nat, n: nat, dx: int, dy: int)
    requires row < 4 && n < 4
    ensures Place(RowPrefix(m, row, n + 1), dx, dy) ==
      Place(RowPrefix(m, row, n), dx, dy) + (if Marks(m, n, row) then [(dx + n, dy + row)] else [])
  {
    PlaceConcat(RowPrefix(m, row, n), Pick(m, n, row), dx, dy);
    PlacePick(m, n, row, dx, dy);
  }

  /**
   The grid cells the sprite drawing outlines, in drawing order: for each box
   row, top to bottom, and each box column, left to right, the cell at the box
   corner plus that offset, when the piece's mask marks the offset.
   */
  method SpriteCells(t: Tetromino) returns (drawn: seq<Cell>)
    ensures drawn == Place(Scan(Mask(t.kind, t.rotation)), t.x, t.y)
    ensures |drawn| == 4
    ensures forall p :: p in drawn <==> p in Cells(t)
  {
    var mask := Tetrominoes[TypeIndex(t.kind)][RotationIndex(t.rotation)];
    MaskIsTableEntry(t.kind, t.rotation);
    drawn := MarkedCells(mask, t.x, t.y);
    ScanLength(t.kind, t.rotation);
    PlacedScanIsCells(t);
  }

  /** The outer loop over the box rows: the cells mask `m` marks, placed with the box corner at (x, y). */
  method MarkedCells(m: bv32, x: int, y: int) returns (drawn: seq<Cell>)
    ensures drawn == Place(Scan(m), x, y)
  {
    drawn := [];
    var offY := 0;
    while offY < 4
      invariant 0 <= offY <= 4
      invariant drawn == Place(RowsAbove(m, offY), x, y)
    {
      var row := MarkedRow(m, offY, x, y);
      PlaceConcat(RowsAbove(m, offY), RowCells(m, offY), x, y);
      drawn := drawn + row;
      offY := offY + 1;
    }
    RowsAboveIsScan(m);
  }

  /** The inner loop over the columns of box row `row`: the cells of that row mask `m` marks, left to right. */
  method MarkedRow(m: bv32, row: nat, x: int, y: int) returns (drawn: seq<Cell>)
    requires row < 4
    ensures drawn == Place(RowCells(m, row), x, y)
  {
    drawn := [];
    var offX := 0;
    while offX < 4
      invariant 0 <= offX <= 4
      invariant drawn == Place(RowPrefix(m, row, offX), x, y)
    {
      ColumnStep(m, row, offX, x, y);
      if Marks(m, offX, row) {
        drawn := drawn + [(x + offX, y + row)];
      }
      offX := offX + 1;
    }
    RowPrefixIsRow(m, row);
  }

  /** Placing the reading of a piece's mask at its box corner gives exactly the cells it fills. */
  lemma PlacedScanIsCells(t: Tetromino)
    ensures forall p :: p in Place(Scan(Mask(t.kind, t.rotation)), t.x, t.y) <==> p in Cells(t)
  {
    var m := Mask(t.kind, t.rotation);
    var shape := Shape(t.kind, t.rotation);
    ScanMembers(m);
    forall c ensures c in Scan(m) <==> c in shape {
      ShapeMembers(t.kind, t.rotation, c);
    }
    PlaceSameMembers(Scan(m), shape, t.x, t.y);
  }

  /** A sequence and a set with the same members are placed onto the same cells. */
  lemma PlaceSameMembers(s: seq<Cell>, cells: set<Cell>, dx: int, dy: int)
    requires forall c :: c in s <==> c in cells
    ensures forall p :: p in Place(s, dx, dy) <==> p in Translate(cells, dx, dy)
  {
    forall p ensures p in Place(s, dx, dy) <==> p in Translate(cells, dx, dy) {
      PlaceMembers(s, dx, dy, p);
      TranslateMembers(cells, dx, dy, p);
    }
  }
}
