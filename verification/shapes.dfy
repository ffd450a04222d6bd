/**
 The shape table of the seven tetrominoes and the bit test that reads each
 16-bit mask as a 4x4 occupancy pattern.

 A mask is read row-major from its most significant box bit: box cell
 (col, row) is bit 15 - (row * 4 + col), i.e. the bit selected by
 0x8000 >> (row * 4 + col).
 */
module Shapes {

  /** The seven kinds, in the order of main.c's enumeration. */
  datatype TetrominoType = T | S | Z | I | J | L | O

  /** The four orientations, in the order of main.c's enumeration. */
  datatype Rotation = R0 | R90 | R180 | R270

  /** A box offset (col, row) or an absolute grid cell (x, y). */
  type Cell = (int, int)

  /** The ordinal of a kind, used to index the shape table. */
  function TypeIndex(k: TetrominoType): (n: nat)
    ensures n < 7
  {
    match k
    case T => 0
    case S => 1
    case Z => 2
    case I => 3
    case J => 4
    case L => 5
    case O => 6
  }

  /** The ordinal of a rotation, used to index the shape table. */
  function RotationIndex(r: Rotation): (n: nat)
    ensures n < 4
  {
    match r
    case R0 => 0
    case R90 => 1
    case R180 => 2
    case R270 => 3
  }

  /** The shape table, one row of four masks per kind; an element is a C `unsigned int`. */
  const Tetrominoes: seq<seq<bv32>> := [
    [0x4640, 0x0E40, 0x4C40, 0x4E00], // T
    [0x8C40, 0x6C00, 0x8C40, 0x6C00], // S
    [0x4C80, 0xC600, 0x4C80, 0xC600], // Z
    [0x4444, 0x0F00, 0x4444, 0x0F00], // I
    [0x44C0, 0x8E00, 0xC880, 0xE200], // J
    [0x88C0, 0xE800, 0xC440, 0x2E00], // L
    [0xCC00, 0xCC00, 0xCC00, 0xCC00]  // O
  ]

  /** The mask of kind `k` in rotation `r`. */
  function Mask(k: TetrominoType, r: Rotation): bv32 {
    var masks := Tetrominoes[TypeIndex(k)];
    match r
    case R0 => masks[0]
    case R90 => masks[1]
    case R180 => masks[2]
    case R270 => masks[3]
  }

  /** The single bit main.c tests for box cell (col, row). */
  function CellBit(col: nat, row: nat): bv32
    requires col < 4 && row < 4
  {
    0x8000 >> (row * 4 + col)
  }

  /** main.c's test: whether mask `m` marks box cell (col, row). */
  predicate Marks(m: bv32, col: nat, row: nat)
    requires col < 4 && row < 4
  {
    m & CellBit(col, row) != 0
  }

  /** Whether box cell (col, row) of kind `k` in rotation `r` is filled. */
  predicate IsCellOccupied(k: TetrominoType, r: Rotation, col: nat, row: nat)
    requires col < 4 && row < 4
  {
    Marks(Mask(k, r), col, row)
  }

  /** Bit `i` of `m`, counted from the least significant bit. */
  predicate BitSet(m: bv32, i: nat)
    requires i < 32
  {
    m & (1 << i) != 0
  }

  // ---------------------------------------------------------------------------
  // Reading a mask in the drawing order

  /** Box cell (col, row), if `m` marks it, as a sequence of at most one offset. */
  function Pick(m: bv32, col: nat, row: nat): seq<Cell>
    requires col < 4 && row < 4
  {
    if Marks(m, col, row) then [(col, row)] else []
  }

  /** The marked offsets of one box row, left to right. */
  function RowCells(m: bv32, row: nat): seq<Cell>
    requires row < 4
  {
    Pick(m, 0, row) + Pick(m, 1, row) + Pick(m, 2, row) + Pick(m, 3, row)
  }

  /** The marked offsets of the box, row by row. */
  function Scan(m: bv32): seq<Cell> {
    RowCells(m, 0) + RowCells(m, 1) + RowCells(m, 2) + RowCells(m, 3)
  }

  /** The marked offsets among the first `n` columns of box row `row`. */
  function RowPrefix(m: bv32, row: nat, n: nat): seq<Cell>
    requires row < 4 && n <= 4
  {
    if n == 0 then [] else RowPrefix(m, row, n - 1) + Pick(m, n - 1, row)
  }

  /** The marked offsets of the first `n` box rows. */
  function RowsAbove(m: bv32, n: nat): seq<Cell>
    requires n <= 4
  {
    if n == 0 then [] else RowsAbove(m, n - 1) + RowCells(m, n - 1)
  }

  // ---------------------------------------------------------------------------
  // The masks drawn out

  /**
   The filled offsets (col, row) of kind `k` in rotation `r`, row by row and
   left to right within a row: the table's masks drawn out as pictures.
   */
  function Picture(k: TetrominoType, r: Rotation): seq<Cell> {
    match (k, r)
    case (T, R0) => [(1, 0), (1, 1), (2, 1), (1, 2)]
    case (T, R90) => [(0, 1), (1, 1), (2, 1), (1, 2)]
    case (T, R180) => [(1, 0), (0, 1), (1, 1), (1, 2)]
    case (T, R270) => [(1, 0), (0, 1), (1, 1), (2, 1)]
    case (S, R0) => [(0, 0), (0, 1), (1, 1), (1, 2)]
    case (S, R90) => [(1, 0), (2, 0), (0, 1), (1, 1)]
    case (S, R180) => [(0, 0), (0, 1), (1, 1), (1, 2)]
    case (S, R270) => [(1, 0), (2, 0), (0, 1), (1, 1)]
    case (Z, R0) => [(1, 0), (0, 1), (1, 1), (0, 2)]
    case (Z, R90) => [(0, 0), (1, 0), (1, 1), (2, 1)]
    case (Z, R180) => [(1, 0), (0, 1), (1, 1), (0, 2)]
    case (Z, R270) => [(0, 0), (1, 0), (1, 1), (2, 1)]
    case (I, R0) => [(1, 0), (1, 1), (1, 2), (1, 3)]
    case (I, R90) => [(0, 1), (1, 1), (2, 1), (3, 1)]
    case (I, R180) => [(1, 0), (1, 1), (1, 2), (1, 3)]
    case (I, R270) => [(0, 1), (1, 1), (2, 1), (3, 1)]
    case (J, R0) => [(1, 0), (1, 1), (0, 2), (1, 2)]
    case (J, R90) => [(0, 0), (0, 1), (1, 1), (2, 1)]
    case (J, R180) => [(0, 0), (1, 0), (0, 1), (0, 2)]
    case (J, R270) => [(0, 0), (1, 0), (2, 0), (2, 1)]
    case (L, R0) => [(0, 0), (0, 1), (0, 2), (1, 2)]
    case (L, R90) => [(0, 0), (1, 0), (2, 0), (0, 1)]
    case (L, R180) => [(0, 0), (1, 0), (1, 1), (1, 2)]
    case (L, R270) => [(2, 0), (0, 1), (1, 1), (2, 1)]
    case (O, R0) => [(0, 0), (1, 0), (0, 1), (1, 1)]
    case (O, R90) => [(0, 0), (1, 0), (0, 1), (1, 1)]
    case (O, R180) => [(0, 0), (1, 0), (0, 1), (1, 1)]
    case (O, R270) => [(0, 0), (1, 0), (0, 1), (1, 1)]
  }

  /**
   The 4x4 occupancy pattern of kind `k` in rotation `r`, as a set of box
   offsets. It is written out rather than derived from `Picture` so that facts
   about a piece's cells do not have to expand the sequences; `ShapeIsPicture`
   proves the two agree.
   */
  function Shape(k: TetrominoType, r: Rotation): set<Cell> {
    match (k, r)
    case (T, R0) => {(1, 0), (1, 1), (2, 1), (1, 2)}
    case (T, R90) => {(0, 1), (1, 1), (2, 1), (1, 2)}
    case (T, R180) => {(1, 0), (0, 1), (1, 1), (1, 2)}
    case (T, R270) => {(1, 0), (0, 1), (1, 1), (2, 1)}
    case (S, R0) => {(0, 0), (0, 1), (1, 1), (1, 2)}
    case (S, R90) => {(1, 0), (2, 0), (0, 1), (1, 1)}
    case (S, R180) => {(0, 0), (0, 1), (1, 1), (1, 2)}
    case (S, R270) => {(1, 0), (2, 0), (0, 1), (1, 1)}
    case (Z, R0) => {(1, 0), (0, 1), (1, 1), (0, 2)}
    case (Z, R90) => {(0, 0), (1, 0), (1, 1), (2, 1)}
    case (Z, R180) => {(1, 0), (0, 1), (1, 1), (0, 2)}
    case (Z, R270) => {(0, 0), (1, 0), (1, 1), (2, 1)}
    case (I, R0) => {(1, 0), (1, 1), (1, 2), (1, 3)}
    case (I, R90) => {(0, 1), (1, 1), (2, 1), (3, 1)}
    case (I, R180) => {(1, 0), (1, 1), (1, 2), (1, 3)}
    case (I, R270) => {(0, 1), (1, 1), (2, 1), (3, 1)}
    case (J, R0) => {(1, 0), (1, 1), (0, 2), (1, 2)}
    case (J, R90) => {(0, 0), (0, 1), (1, 1), (2, 1)}
    case (J, R180) => {(0, 0), (1, 0), (0, 1), (0, 2)}
    case (J, R270) => {(0, 0), (1, 0), (2, 0), (2, 1)}
    case (L, R0) => {(0, 0), (0, 1), (0, 2), (1, 2)}
    case (L, R90) => {(0, 0), (1, 0), (2, 0), (0, 1)}
    case (L, R180) => {(0, 0), (1, 0), (1, 1), (1, 2)}
    case (L, R270) => {(2, 0), (0, 1), (1, 1), (2, 1)}
    case (O, R0) => {(0, 0), (1, 0), (0, 1), (1, 1)}
    case (O, R90) => {(0, 0), (1, 0), (0, 1), (1, 1)}
    case (O, R180) => {(0, 0), (1, 0), (0, 1), (1, 1)}
    case (O, R270) => {(0, 0), (1, 0), (0, 1), (1, 1)}
  }

  /** Each shape holds the offsets of its picture. */
  lemma ShapeIsPicture(k: TetrominoType, r: Rotation)
    ensures Shape(k, r) == set c | c in Picture(k, r)
  {
    match k
    case T => ShapePictureT(r);
    case S => ShapePictureS(r);
    case Z => ShapePictureZ(r);
    case I => ShapePictureI(r);
    case J => ShapePictureJ(r);
    case L => ShapePictureL(r);
    case O => ShapePictureO(r);
  }

  lemma ShapePictureT(r: Rotation)
    ensures Shape(T, r) == set c | c in Picture(T, r)
  {
  }

  lemma ShapePictureS(r: Rotation)
    ensures Shape(S, r) == set c | c in Picture(S, r)
  {
  }

  lemma ShapePictureZ(r: Rotation)
    ensures Shape(Z, r) == set c | c in Picture(Z, r)
  {
  }

  lemma ShapePictureI(r: Rotation)
    ensures Shape(I, r) == set c | c in Picture(I, r)
  {
  }

  lemma ShapePictureJ(r: Rotation)
    ensures Shape(J, r) == set c | c in Picture(J, r)
  {
  }

  lemma ShapePictureL(r: Rotation)
    ensures Shape(L, r) == set c | c in Picture(L, r)
  {
  }

  lemma ShapePictureO(r: Rotation)
    ensures Shape(O, r) == set c | c in Picture(O, r)
  {
  }

  /** The pictures are the masks: reading a mask in drawing order visits exactly its picture. */
  lemma ScanIsPicture(k: TetrominoType, r: Rotation)
    ensures Scan(Mask(k, r)) == Picture(k, r)
  {
    match (k, r)
    case (T, R0) => ScanPictureTR0();
    case (T, R90) => ScanPictureTR90();
    case (T, R180) => ScanPictureTR180();
    case (T, R270) => ScanPictureTR270();
    case (S, R0) => ScanPictureSR0();
    case (S, R90) => ScanPictureSR90();
    case (S, R180) => ScanPictureSR180();
    case (S, R270) => ScanPictureSR270();
    case (Z, R0) => ScanPictureZR0();
    case (Z, R90) => ScanPictureZR90();
    case (Z, R180) => ScanPictureZR180();
    case (Z, R270) => ScanPictureZR270();
    case (I, R0) => ScanPictureIR0();
    case (I, R90) => ScanPictureIR90();
    case (I, R180) => ScanPictureIR180();
    case (I, R270) => ScanPictureIR270();
    case (J, R0) => ScanPictureJR0();
    case (J, R90) => ScanPictureJR90();
    case (J, R180) => ScanPictureJR180();
    case (J, R270) => ScanPictureJR270();
    case (L, R0) => ScanPictureLR0();
    case (L, R90) => ScanPictureLR90();
    case (L, R180) => ScanPictureLR180();
    case (L, R270) => ScanPictureLR270();
    case (O, R0) => ScanPictureOR0();
    case (O, R90) => ScanPictureOR90();
    case (O, R180) => ScanPictureOR180();
    case (O, R270) => ScanPictureOR270();
  }

  // One lemma per mask keeps each table computation small.
  lemma ScanPictureTR0()
    ensures Scan(Mask(T, R0)) == Picture(T, R0)
  {
  }

  lemma ScanPictureTR90()
    ensures Scan(Mask(T, R90)) == Picture(T, R90)
  {
  }

  lemma ScanPictureTR180()
    ensures Scan(Mask(T, R180)) == Picture(T, R180)
  {
  }

  lemma ScanPictureTR270()
    ensures Scan(Mask(T, R270)) == Picture(T, R270)
  {
  }

  lemma ScanPictureSR0()
    ensures Scan(Mask(S, R0)) == Picture(S, R0)
  {
  }

  lemma ScanPictureSR90()
    ensures Scan(Mask(S, R90)) == Picture(S, R90)
  {
  }

  lemma ScanPictureSR180()
    ensures Scan(Mask(S, R180)) == Picture(S, R180)
  {
  }

  lemma ScanPictureSR270()
    ensures Scan(Mask(S, R270)) == Picture(S, R270)
  {
  }

  lemma ScanPictureZR0()
    ensures Scan(Mask(Z, R0)) == Picture(Z, R0)
  {
  }

  lemma ScanPictureZR90()
    ensures Scan(Mask(Z, R90)) == Picture(Z, R90)
  {
  }

  lemma ScanPictureZR180()
    ensures Scan(Mask(Z, R180)) == Picture(Z, R180)
  {
  }

  lemma ScanPictureZR270()
    ensures Scan(Mask(Z, R270)) == Picture(Z, R270)
  {
  }

  lemma ScanPictureIR0()
    ensures Scan(Mask(I, R0)) == Picture(I, R0)
  {
  }

  lemma ScanPictureIR90()
    ensures Scan(Mask(I, R90)) == Picture(I, R90)
  {
  }

  lemma ScanPictureIR180()
    ensures Scan(Mask(I, R180)) == Picture(I, R180)
  {
  }

  lemma ScanPictureIR270()
    ensures Scan(Mask(I, R270)) == Picture(I, R270)
  {
  }

  lemma ScanPictureJR0()
    ensures Scan(Mask(J, R0)) == Picture(J, R0)
  {
  }

  lemma ScanPictureJR90()
    ensures Scan(Mask(J, R90)) == Picture(J, R90)
  {
  }

  lemma ScanPictureJR180()
    ensures Scan(Mask(J, R180)) == Picture(J, R180)
  {
  }

  lemma ScanPictureJR270()
    ensures Scan(Mask(J, R270)) == Picture(J, R270)
  {
  }

  lemma ScanPictureLR0()
    ensures Scan(Mask(L, R0)) == Picture(L, R0)
  {
  }

  lemma ScanPictureLR90()
    ensures Scan(Mask(L, R90)) == Picture(L, R90)
  {
  }

  lemma ScanPictureLR180()
    ensures Scan(Mask(L, R180)) == Picture(L, R180)
  {
  }

  lemma ScanPictureLR270()
    ensures Scan(Mask(L, R270)) == Picture(L, R270)
  {
  }

  lemma ScanPictureOR0()
    ensures Scan(Mask(O, R0)) == Picture(O, R0)
  {
  }

  lemma ScanPictureOR90()
    ensures Scan(Mask(O, R90)) == Picture(O, R90)
  {
  }

  lemma ScanPictureOR180()
    ensures Scan(Mask(O, R180)) == Picture(O, R180)
  {
  }

  lemma ScanPictureOR270()
    ensures Scan(Mask(O, R270)) == Picture(O, R270)
  {
  }

  /** An offset belongs to a shape exactly when it lies in the box and the mask marks it. */
  lemma ShapeMembers(k: TetrominoType, r: Rotation, c: Cell)
    ensures c in Shape(k, r) <==> 0 <= c.0 < 4 && 0 <= c.1 < 4 && IsCellOccupied(k, r, c.0, c.1)
  {
    ShapeIsPicture(k, r);
    ScanIsPicture(k, r);
    ScanMembers(Mask(k, r));
  }

  /** Every shape fills four box cells. */
  lemma ShapeSize(k: TetrominoType, r: Rotation)
    ensures |Shape(k, r)| == 4
  {
    ShapeIsPicture(k, r);
    ScanIsPicture(k, r);
    ScanDistinct(Mask(k, r));
    ScanLength(k, r);
    DistinctCardinality(Scan(Mask(k, r)));
  }

  // ---------------------------------------------------------------------------
  // Facts about the bit test

  /** Shifting 0x8000 right by 15 - j selects bit j, for every j below 16. */
  lemma ShiftedBitIsBit(j: nat)
    requires j < 16
    ensures 0x8000 >> (15 - j) == (1 as bv32) << j
  {
  }

  /** main.c's test for box cell (col, row) reads bit 15 - (row * 4 + col), for every mask. */
  lemma MarksIffBit(m: bv32, col: nat, row: nat)
    requires col < 4 && row < 4
    ensures Marks(m, col, row) <==> BitSet(m, 15 - (row * 4 + col))
  {
    var j := 15 - (row * 4 + col);
    ShiftedBitIsBit(j);
    assert CellBit(col, row) == (1 as bv32) << j;
  }

  /** Box cell (col, row) is filled exactly when bit 15 - (row * 4 + col) of its mask is set. */
  lemma OccupiedIffBit(k: TetrominoType, r: Rotation, col: nat, row: nat)
    requires col < 4 && row < 4
    ensures IsCellOccupied(k, r, col, row) <==> BitSet(Mask(k, r), 15 - (row * 4 + col))
  {
    MarksIffBit(Mask(k, r), col, row);
  }

  /** The bit main.c tests for a box offset, counted from the least significant bit. */
  function BitIndex(c: Cell): int {
    15 - (c.1 * 4 + c.0)
  }

  /** An offset inside the 4x4 box. */
  predicate InBox(c: Cell) {
    0 <= c.0 < 4 && 0 <= c.1 < 4
  }

  /** Distinct box offsets test distinct bits. */
  lemma BitIndexInjective(c: Cell, d: Cell)
    requires InBox(c) && InBox(d) && BitIndex(c) == BitIndex(d)
    ensures c == d
  {
  }

  /** So a set of box offsets tests as many bits as it has offsets. */
  lemma {:induction false} BitIndexCardinality(cells: set<Cell>)
    requires forall c :: c in cells ==> InBox(c)
    ensures |set c | c in cells :: BitIndex(c)| == |cells|
    decreases |cells|
  {
    if cells != {} {
      var p :| p in cells;
      var rest := cells - {p};
      BitIndexCardinality(rest);
      var restBits := set c | c in rest :: BitIndex(c);
      assert (set c | c in cells :: BitIndex(c)) == restBits + {BitIndex(p)} by {
        assert cells == rest + {p};
      }
      assert BitIndex(p) !in restBits by {
        forall c | c in rest ensures BitIndex(c) != BitIndex(p) {
          if BitIndex(c) == BitIndex(p) {
            BitIndexInjective(c, p);
          }
        }
      }
    }
  }

  /** Low bit `i` is the bit main.c tests for box offset ((15 - i) % 4, (15 - i) / 4). */
  lemma BitIsCell(m: bv32, i: int)
    requires 0 <= i < 16
    ensures InBox(((15 - i) % 4, (15 - i) / 4)) && BitIndex(((15 - i) % 4, (15 - i) / 4)) == i
    ensures BitSet(m, i) <==> Marks(m, (15 - i) % 4, (15 - i) / 4)
  {
    MarksIffBit(m, (15 - i) % 4, (15 - i) / 4);
  }

  /** The set bits among the low sixteen of a mask are exactly the bits of the box offsets it marks. */
  lemma MarkedBits(m: bv32, cells: set<Cell>)
    requires forall c :: c in cells <==> InBox(c) && Marks(m, c.0, c.1)
    ensures (set i: int | 0 <= i < 16 && BitSet(m, i)) == (set c | c in cells :: BitIndex(c))
  {
    SetBitsAreMarked(m, cells);
    MarkedAreSetBits(m, cells);
  }

  /** Every set low bit is the bit of a marked offset. */
  lemma SetBitsAreMarked(m: bv32, cells: set<Cell>)
    requires forall c :: c in cells <==> InBox(c) && Marks(m, c.0, c.1)
    ensures (set i: int | 0 <= i < 16 && BitSet(m, i)) <= (set c | c in cells :: BitIndex(c))
  {
    forall i | 0 <= i < 16 && BitSet(m, i) ensures i in set c | c in cells :: BitIndex(c) {
      var c := SetBitCell(m, cells, i);
    }
  }

  /** The bit of every marked offset is a set low bit. */
  lemma MarkedAreSetBits(m: bv32, cells: set<Cell>)
    requires forall c :: c in cells <==> InBox(c) && Marks(m, c.0, c.1)
    ensures (set c | c in cells :: BitIndex(c)) <= (set i: int | 0 <= i < 16 && BitSet(m, i))
  {
    forall c | c in cells ensures 0 <= BitIndex(c) < 16 && BitSet(m, BitIndex(c)) {
      MarkedCellBit(m, cells, c);
    }
  }

  /** A set low bit of a mask is the bit of a box offset the mask marks. */
  lemma SetBitCell(m: bv32, cells: set<Cell>, i: int) returns (c: Cell)
    requires forall c :: c in cells <==> InBox(c) && Marks(m, c.0, c.1)
    requires 0 <= i < 16 && BitSet(m, i)
    ensures c in cells && BitIndex(c) == i
  {
    BitIsCell(m, i);
    c := ((15 - i) % 4, (15 - i) / 4);
  }

  /** The bit of a marked box offset is set. */
  lemma MarkedCellBit(m: bv32, cells: set<Cell>, c: Cell)
    requires forall c :: c in cells <==> InBox(c) && Marks(m, c.0, c.1)
    requires c in cells
    ensures 0 <= BitIndex(c) < 16 && BitSet(m, BitIndex(c))
  {
    MarksIffBit(m, c.0, c.1);
  }

  /** Each of the 28 masks has exactly four of its sixteen low bits set, one per filled box cell. */
  lemma FourBitsSet(k: TetrominoType, r: Rotation)
    ensures |set i: int | 0 <= i < 16 && BitSet(Mask(k, r), i)| == 4
  {
    var shape := Shape(k, r);
    forall c ensures c in shape <==> InBox(c) && Marks(Mask(k, r), c.0, c.1) {
      ShapeMembers(k, r, c);
    }
    MarkedBits(Mask(k, r), shape);
    BitIndexCardinality(shape);
    ShapeSize(k, r);
  }

  /** An offset belongs to a shape exactly when it lies in the box and its bit of the mask is set. */
  lemma ShapeBits(k: TetrominoType, r: Rotation, c: Cell)
    ensures c in Shape(k, r) <==> InBox(c) && BitSet(Mask(k, r), BitIndex(c))
  {
    ShapeMembers(k, r, c);
    if InBox(c) {
      MarksIffBit(Mask(k, r), c.0, c.1);
    }
  }

  // ---------------------------------------------------------------------------
  // Facts about the table data

  /** `Mask` is the table entry at the kind's and the rotation's ordinals. */
  lemma MaskIsTableEntry(k: TetrominoType, r: Rotation)
    ensures Mask(k, r) == Tetrominoes[TypeIndex(k)][RotationIndex(r)]
  {
  }

  /** Every one of the 28 masks lies within the low 16 bits. */
  lemma MaskFitsSixteenBits(k: TetrominoType, r: Rotation)
    ensures Mask(k, r) & 0xFFFF_0000 == 0
    ensures forall i: nat :: 16 <= i < 32 ==> !BitSet(Mask(k, r), i)
  {
    var m := Mask(k, r);
    assert m & 0xFFFF_0000 == 0;
    forall i: nat | 16 <= i < 32 ensures !BitSet(m, i) {
      HighBitClear(m, i);
    }
  }

  /** A value whose high half is clear has no bit set at or above 16. */
  lemma HighBitClear(m: bv32, i: nat)
    requires m & 0xFFFF_0000 == 0 && 16 <= i < 32
    ensures !BitSet(m, i)
  {
    assert (1 as bv32) << i == ((1 as bv32) << i) & 0xFFFF_0000;
  }

  /** Reading any of the 28 masks visits exactly four box cells. */
  lemma ScanLength(k: TetrominoType, r: Rotation)
    ensures |Scan(Mask(k, r))| == 4
  {
    ScanIsPicture(k, r);
  }

  /** O's mask is the same in every rotation; those of S, Z and I repeat every half turn. */
  lemma RotationPeriodicity(r: Rotation)
    ensures Mask(O, r) == Mask(O, R0)
    ensures Mask(S, R0) == Mask(S, R180) && Mask(S, R90) == Mask(S, R270)
    ensures Mask(Z, R0) == Mask(Z, R180) && Mask(Z, R90) == Mask(Z, R270)
    ensures Mask(I, R0) == Mask(I, R180) && Mask(I, R90) == Mask(I, R270)
  {
  }

  /** So O looks the same in every rotation, and S, Z and I look the same after a half turn. */
  lemma ShapePeriodicity(r: Rotation)
    ensures Shape(O, r) == Shape(O, R0)
    ensures Shape(S, r) == Shape(S, HalfTurn(r))
    ensures Shape(Z, r) == Shape(Z, HalfTurn(r))
    ensures Shape(I, r) == Shape(I, HalfTurn(r))
  {
  }

  /** The rotation after `r` in the enumeration, wrapping from R270 back to R0. */
  function QuarterTurn(r: Rotation): (q: Rotation)
    ensures RotationIndex(q) == (RotationIndex(r) + 1) % 4
  {
    match r
    case R0 => R90
    case R90 => R180
    case R180 => R270
    case R270 => R0
  }

  /** The rotation two quarter turns after `r`. */
  function HalfTurn(r: Rotation): (h: Rotation)
    ensures RotationIndex(h) == (RotationIndex(r) + 2) % 4
    ensures h == QuarterTurn(QuarterTurn(r))
  {
    match r
    case R0 => R180
    case R90 => R270
    case R180 => R0
    case R270 => R90
  }

  // ---------------------------------------------------------------------------
  // Facts about reading a mask

  /** A sequence without repetitions. */
  ghost predicate NoRepeats<X>(s: seq<X>) {
    forall a, b :: 0 <= a < b < |s| ==> s[a] != s[b]
  }

  /** The offsets of one row are exactly the marked cells with that row coordinate. */
  lemma RowMembers(m: bv32, row: nat)
    requires row < 4
    ensures forall c :: c in RowCells(m, row) <==> c.1 == row && 0 <= c.0 < 4 && Marks(m, c.0, row)
  {
    var p0, p1, p2, p3 := Pick(m, 0, row), Pick(m, 1, row), Pick(m, 2, row), Pick(m, 3, row);
    assert RowCells(m, row) == p0 + p1 + p2 + p3;
    forall c ensures c in RowCells(m, row) <==> c.1 == row && 0 <= c.0 < 4 && Marks(m, c.0, row) {
      assert c in p0 + p1 + p2 + p3 <==> c in p0 || c in p1 || c in p2 || c in p3;
    }
  }

  /** The scan holds exactly the marked offsets of the box. */
  lemma ScanMembers(m: bv32)
    ensures forall c :: c in Scan(m) <==> 0 <= c.0 < 4 && 0 <= c.1 < 4 && Marks(m, c.0, c.1)
  {
    RowMembers(m, 0);
    RowMembers(m, 1);
    RowMembers(m, 2);
    RowMembers(m, 3);
    var r0, r1, r2, r3 := RowCells(m, 0), RowCells(m, 1), RowCells(m, 2), RowCells(m, 3);
    forall c ensures c in Scan(m) <==> 0 <= c.0 < 4 && 0 <= c.1 < 4 && Marks(m, c.0, c.1) {
      assert c in r0 + r1 + r2 + r3 <==> c in r0 || c in r1 || c in r2 || c in r3;
    }
  }

  /** Concatenating two repetition-free sequences with no common element gives a repetition-free sequence. */
  lemma NoRepeatsConcat<X>(s: seq<X>, t: seq<X>)
    requires NoRepeats(s) && NoRepeats(t)
    requires forall x :: x in s ==> x !in t
    ensures NoRepeats(s + t)
  {
    var u := s + t;
    forall a, b | 0 <= a < b < |u| ensures u[a] != u[b] {
      if b < |s| {
        assert u[a] == s[a] && u[b] == s[b];
      } else if a >= |s| {
        assert u[a] == t[a - |s|] && u[b] == t[b - |s|];
      } else {
        assert u[a] == s[a] && u[b] == t[b - |s|];
        assert u[a] in s && u[b] in t;
      }
    }
  }

  /** The offsets of one row never repeat: each column contributes at most one. */
  lemma RowDistinct(m: bv32, row: nat)
    requires row < 4
    ensures NoRepeats(RowCells(m, row))
  {
    var p0, p1, p2, p3 := Pick(m, 0, row), Pick(m, 1, row), Pick(m, 2, row), Pick(m, 3, row);
    NoRepeatsConcat(p0, p1);
    NoRepeatsConcat(p0 + p1, p2);
    NoRepeatsConcat(p0 + p1 + p2, p3);
  }

  /** The scan visits each offset at most once: rows have distinct row coordinates. */
  lemma ScanDistinct(m: bv32)
    ensures NoRepeats(Scan(m))
  {
    RowMembers(m, 0);
    RowMembers(m, 1);
    RowMembers(m, 2);
    RowMembers(m, 3);
    RowDistinct(m, 0);
    RowDistinct(m, 1);
    RowDistinct(m, 2);
    RowDistinct(m, 3);
    var r0, r1, r2, r3 := RowCells(m, 0), RowCells(m, 1), RowCells(m, 2), RowCells(m, 3);
    NoRepeatsConcat(r0, r1);
    NoRepeatsConcat(r0 + r1, r2);
    NoRepeatsConcat(r0 + r1 + r2, r3);
  }

  /** A sequence without repetitions has as many distinct elements as it is long. */
  lemma {:induction false} DistinctCardinality<X>(s: seq<X>)
    requires NoRepeats(s)
    ensures |set x | x in s| == |s|
  {
    if s != [] {
      var tail := s[1..];
      DistinctCardinality(tail);
      assert (set x | x in s) == (set x | x in tail) + {s[0]};
      assert s[0] !in tail by {
        forall j | 0 <= j < |tail| ensures tail[j] != s[0] {
          assert tail[j] == s[j + 1];
        }
      }
    }
  }

  /** A whole row's prefix is the row. */
  lemma RowPrefixIsRow(m: bv32, row: nat)
    requires row < 4
    ensures RowPrefix(m, row, 4) == RowCells(m, row)
  {
    var p0, p1, p2, p3 := Pick(m, 0, row), Pick(m, 1, row), Pick(m, 2, row), Pick(m, 3, row);
    assert RowPrefix(m, row, 1) == p0 by {
      assert [] + p0 == p0;
    }
    assert RowPrefix(m, row, 2) == p0 + p1;
    assert RowPrefix(m, row, 3) == p0 + p1 + p2;
  }

  /** All four rows are the scan. */
  lemma RowsAboveIsScan(m: bv32)
    ensures RowsAbove(m, 4) == Scan(m)
  {
    FirstTwoRows(m);
    var r0, r1, r2, r3 := RowCells(m, 0), RowCells(m, 1), RowCells(m, 2), RowCells(m, 3);
    assert RowsAbove(m, 3) == r0 + r1 + r2;
  }

  /** The first two rows, in order. */
  lemma FirstTwoRows(m: bv32)
    ensures RowsAbove(m, 2) == RowCells(m, 0) + RowCells(m, 1)
  {
    var r0 := RowCells(m, 0);
    assert RowsAbove(m, 1) == r0 by {
      assert [] + r0 == r0;
    }
  }
}
