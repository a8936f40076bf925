/**
 * The constants and decoding macros of the current build's header: how many
 * shapes and colors a piece can have, how a composite piece byte is taken
 * apart again, the size of the persistent game-state record, and the table
 * of shape masks.
 *
 * A shape mask is a 64-bit board: bit 63 is cell (row 0, column 0), and row
 * `r` occupies the byte that starts at bit `63 - 8 * r`, most significant bit
 * at column 0. Every shape is anchored at the top-left corner of the board.
 */
module Bg64Header {
  import opened Machine

  /** Valid shape ids are 1..ShapeOptions. */
  const ShapeOptions: nat := 10

  /** Valid color ids are 1..ColorOptions. */
  const ColorOptions: nat := 3

  /** `GET_SHAPE`: the high nibble of a composite piece byte. */
  function GetShape(b: Byte): (shape: U8)
    ensures shape < 16 && shape == b / 16
  {
    (b / 16) % 16
  }

  /** `GET_COLOR`: the low nibble of a composite piece byte. */
  function GetColor(b: Byte): (color: U8)
    ensures color < 16
  {
    b % 16
  }

  /** The decoders are the shift-and-mask expressions on 8-bit values. */
  lemma DecodersAreBitMasks(b: bv8)
    ensures ((b >> 4) & 0x0F) as int == GetShape(b as int)
    ensures (b & 0x0F) as int == GetColor(b as int)
  {
  }

  /** The decoders recover any shape and color of four bits that were packed. */
  lemma DecodeCompose(shape: U8, color: U8)
    requires shape < 16 && color < 16
    ensures GetShape(Compose(shape, color)) == shape
    ensures GetColor(Compose(shape, color)) == color
  {
  }

  /** Every byte is the packing of its own two nibbles. */
  lemma ComposeDecode(b: Byte)
    ensures Compose(GetShape(b), GetColor(b)) == b
  {
  }

  // ---------------------------------------------------------------------
  // Record layout. Each block is one 64-byte cache line.
  // ---------------------------------------------------------------------

  /** `game_grid`: occupancy word, 32 color bytes, padding. */
  const SizeOfGameGrid: nat := 8 + 32 + 24
  /** `player_session`: two scores, the drag position (two floats), drag
      slot, drag flag, three deck bytes, three active flags, padding. */
  const SizeOfPlayerSession: nat := 8 + 8 + 8 + 1 + 1 + 3 + 3 + 32
  /** `utility`: seed, checksum, magic, version, the three queue counters,
      screen id and nine four-byte palette colors. */
  const SizeOfUtility: nat := 8 + 8 + 4 + 4 + 1 + 1 + 1 + 1 + 9 * 4
  /** The queue storage: one byte per slot. */
  const SizeOfRingBuffer: nat := QueueCapacity
  /** `sizeof(GameState)`. */
  const SizeOfGameState: nat := SizeOfGameGrid + SizeOfPlayerSession + SizeOfUtility + SizeOfRingBuffer

  /** The record is four cache lines, so an aligned record ends aligned. */
  lemma GameStateIsFourCacheLines()
    ensures SizeOfGameGrid == 64 && SizeOfPlayerSession == 64 && SizeOfUtility == 64
    ensures SizeOfGameState == 256 && SizeOfGameState % 64 == 0
  {
  }

  // ---------------------------------------------------------------------
  // SHAPE_LIBRARY
  // ---------------------------------------------------------------------

  /** The sixteen-entry table; ids 11..15 are left at their zero default. */
  const ShapeLibrary: seq<bv64> := [
    0x0000000000000000,  //  0 void
    0x8000000000000000,  //  1 dot
    0xC000000000000000,  //  2 two in a row
    0xE000000000000000,  //  3 three in a row
    0x40E0000000000000,  //  4 T
    0x80E0000000000000,  //  5 small L
    0xC0C0000000000000,  //  6 2x2 square
    0x8080E00000000000,  //  7 large L
    0xE0E0E00000000000,  //  8 3x3 square
    0xF000000000000000,  //  9 four in a row
    0xC0C0C00000000000,  // 10 two wide, three tall
    0, 0, 0, 0, 0
  ]

  /** The drawing beside each table entry, one string per row, `X` for a
      filled cell; id 0 and ids 11..15 have no drawing. */
  const Drawings: seq<seq<string>> := [
    [],
    ["X"],
    ["XX"],
    ["XXX"],
    [".X.", "XXX"],
    ["X..", "XXX"],
    ["XX", "XX"],
    ["X..", "X..", "XXX"],
    ["XXX", "XXX", "XXX"],
    ["XXXX"],
    ["XX", "XX", "XX"],
    [], [], [], [], []
  ]

  /** Cell counts of the drawings, by id. */
  const CellCounts: seq<nat> := [0, 1, 2, 3, 4, 4, 4, 5, 9, 4, 6, 0, 0, 0, 0, 0]

  /** The cells of rows 0..3, columns 0..3: the footprint every shape fits in. */
  const Footprint: bv64 := 0xF0F0F0F000000000

  predicate InFootprint(mask: bv64)
  {
    mask & Footprint == mask
  }

  /** Row `r` of a board, column 0 in the most significant bit. */
  function Row(mask: bv64, r: nat): bv8
    requires r < 8
  {
    var shifted := match r
      case 0 => mask >> 56 case 1 => mask >> 48 case 2 => mask >> 40 case 3 => mask >> 32
      case 4 => mask >> 24 case 5 => mask >> 16 case 6 => mask >> 8 case _ => mask;
    (shifted & 0xFF) as bv8
  }

  /** Whether column `c` of a board row is filled. */
  predicate Filled(row: bv8, c: nat)
    requires c < 8
  {
    var bit: bv8 := match c
      case 0 => 0x80 case 1 => 0x40 case 2 => 0x20 case 3 => 0x10
      case 4 => 0x08 case 5 => 0x04 case 6 => 0x02 case _ => 0x01;
    row & bit != 0
  }

  /** A drawing fits on the board: at most eight rows of at most eight columns. */
  predicate WellDrawn(drawing: seq<string>)
  {
    |drawing| <= 8 && forall r :: 0 <= r < |drawing| ==> |drawing[r]| <= 8
  }

  /** A drawn row as a board row: column `c` is set when character `c` is `X`. */
  function RowOfDrawing(row: string): bv8
    requires |row| <= 8
  {
    if row == [] then 0 else (if row[0] == 'X' then 0x80 else 0) | (RowOfDrawing(row[1..]) >> 1)
  }

  /** Row `r` of a drawing as a board row; rows past the drawing are empty. */
  function DrawnRow(drawing: seq<string>, r: nat): bv8
    requires WellDrawn(drawing)
  {
    if r < |drawing| then RowOfDrawing(drawing[r]) else 0
  }

  /** Rows `r..7` of the board are the rows of the drawing. */
  predicate RowsMatchFrom(mask: bv64, drawing: seq<string>, r: nat)
    requires WellDrawn(drawing) && r <= 8
    decreases 8 - r
  {
    r == 8 || (Row(mask, r) == DrawnRow(drawing, r) && RowsMatchFrom(mask, drawing, r + 1))
  }

  /** The board is the drawing. */
  predicate Depicts(mask: bv64, drawing: seq<string>)
  {
    WellDrawn(drawing) && RowsMatchFrom(mask, drawing, 0)
  }

  /** Number of filled cells in columns `c..7` of a board row. */
  function RowCellsFrom(row: bv8, c: nat): nat
    requires c <= 8
    decreases 8 - c
  {
    if c == 8 then 0 else (if Filled(row, c) then 1 else 0) + RowCellsFrom(row, c + 1)
  }

  /** Number of filled cells in rows `r..7` of a board. */
  function CellsFrom(mask: bv64, r: nat): nat
    requires r <= 8
    decreases 8 - r
  {
    if r == 8 then 0 else RowCellsFrom(Row(mask, r), 0) + CellsFrom(mask, r + 1)
  }

  /** Number of filled cells of a board. */
  function CellCount(mask: bv64): nat
  {
    CellsFrom(mask, 0)
  }

  /** Number of `X` characters of a drawn row from column `c` on. */
  function XCountFrom(row: string, c: nat): nat
    decreases |row| - c
  {
    if c >= |row| then 0 else (if row[c] == 'X' then 1 else 0) + XCountFrom(row, c + 1)
  }

  /** Number of `X` characters of a drawing from row `r` on. */
  function DrawnCellsFrom(drawing: seq<string>, r: nat): nat
    decreases |drawing| - r
  {
    if r >= |drawing| then 0 else XCountFrom(drawing[r], 0) + DrawnCellsFrom(drawing, r + 1)
  }

  /** Prepending a column to a row moves every other column one place right. */
  lemma FilledAfterShift(x: bv8, top: bv8, c: nat)
    requires top == 0 || top == 0x80
    requires c < 8
    ensures Filled(top | (x >> 1), c) == if c == 0 then top == 0x80 else Filled(x, c - 1)
  {
    match c
    case 0 => case 1 => case 2 => case 3 => case 4 => case 5 => case 6 => case _ =>
  }

  /** An empty row has no filled column. */
  lemma EmptyRow(c: nat)
    requires c < 8
    ensures !Filled(0, c)
  {
    match c
    case 0 => case 1 => case 2 => case 3 => case 4 => case 5 => case 6 => case _ =>
  }

  /** Column `c` of a drawn row is filled exactly when character `c` is `X`. */
  lemma {:induction false} FilledOfDrawing(row: string, c: nat)
    requires |row| <= 8 && c < 8
    ensures Filled(RowOfDrawing(row), c) == (c < |row| && row[c] == 'X')
    decreases |row|
  {
    if row == [] {
      EmptyRow(c);
    } else {
      var top: bv8 := if row[0] == 'X' then 0x80 else 0;
      FilledAfterShift(RowOfDrawing(row[1..]), top, c);
      if c > 0 {
        FilledOfDrawing(row[1..], c - 1);
      }
    }
  }

  /** A drawn row has as many filled cells as `X` characters. */
  lemma {:induction false} RowCellsOfDrawing(row: string, c: nat)
    requires |row| <= 8 && c <= 8
    ensures RowCellsFrom(RowOfDrawing(row), c) == XCountFrom(row, c)
    decreases 8 - c
  {
    if c < 8 {
      FilledOfDrawing(row, c);
      RowCellsOfDrawing(row, c + 1);
    } else {
      assert XCountFrom(row, c) == 0;
    }
  }

  /** A board that is a drawing has as many filled cells as the drawing has `X`s. */
  lemma {:induction false} CellsOfDepiction(mask: bv64, drawing: seq<string>, r: nat)
    requires WellDrawn(drawing) && r <= 8
    requires RowsMatchFrom(mask, drawing, r)
    ensures CellsFrom(mask, r) == DrawnCellsFrom(drawing, r)
    decreases 8 - r
  {
    if r < 8 {
      if r < |drawing| {
        RowCellsOfDrawing(drawing[r], 0);
      } else {
        RowCellsOfDrawing([], 0);
      }
      CellsOfDepiction(mask, drawing, r + 1);
    }
  }

  /** Entry 0 is void, ids 1..ShapeOptions are shapes, the rest are zero, and
      every four-bit shape nibble indexes the table. */
  lemma ShapeLibraryLayout()
    ensures |ShapeLibrary| == 16 && ShapeLibrary[0] == 0
    ensures forall id :: 1 <= id <= ShapeOptions ==> ShapeLibrary[id] != 0
    ensures forall id :: ShapeOptions < id < |ShapeLibrary| ==> ShapeLibrary[id] == 0
    ensures forall b: Byte :: GetShape(b) < |ShapeLibrary|
  {
  }

  /** Every mask lies in the top-left 4x4 footprint. */
  lemma ShapesFitFootprint()
    ensures forall id :: 0 <= id < |ShapeLibrary| ==> InFootprint(ShapeLibrary[id])
  {
    assert InFootprint(0x0000000000000000);
    assert InFootprint(0x8000000000000000);
    assert InFootprint(0xC000000000000000);
    assert InFootprint(0xE000000000000000);
    assert InFootprint(0x40E0000000000000);
    assert InFootprint(0x80E0000000000000);
    assert InFootprint(0xC0C0000000000000);
    assert InFootprint(0x8080E00000000000);
    assert InFootprint(0xE0E0E00000000000);
    assert InFootprint(0xF000000000000000);
    assert InFootprint(0xC0C0C00000000000);
  }

  /** Masks 0..5 are their drawings. */
  lemma SmallShapesMatchDrawings()
    ensures forall id :: 0 <= id <= 5 ==> Depicts(ShapeLibrary[id], Drawings[id])
  {
    assert Depicts(0x0000000000000000, []);
    assert Depicts(0x8000000000000000, ["X"]);
    assert Depicts(0xC000000000000000, ["XX"]);
    assert Depicts(0xE000000000000000, ["XXX"]);
    assert Depicts(0x40E0000000000000, [".X.", "XXX"]);
    assert Depicts(0x80E0000000000000, ["X..", "XXX"]);
  }

  /** Masks 6..15 are their drawings. */
  lemma LargeShapesMatchDrawings()
    ensures forall id :: 6 <= id < |ShapeLibrary| ==> Depicts(ShapeLibrary[id], Drawings[id])
  {
    assert Depicts(0xC0C0000000000000, ["XX", "XX"]);
    assert Depicts(0x8080E00000000000, ["X..", "X..", "XXX"]);
    assert Depicts(0xE0E0E00000000000, ["XXX", "XXX", "XXX"]);
    assert Depicts(0xF000000000000000, ["XXXX"]);
    assert Depicts(0xC0C0C00000000000, ["XX", "XX", "XX"]);
    assert Depicts(0, []);
  }

  /** Every mask is the drawing shown beside it. */
  lemma ShapesMatchDrawings()
    ensures |Drawings| == |ShapeLibrary|
    ensures forall id :: 0 <= id < |ShapeLibrary| ==> Depicts(ShapeLibrary[id], Drawings[id])
  {
    SmallShapesMatchDrawings();
    LargeShapesMatchDrawings();
  }

  /** The drawings have 1, 2, 3, 4, 4, 4, 5, 9, 4 and 6 cells for ids 1..10. */
  lemma DrawingCellCounts()
    ensures |Drawings| == |CellCounts|
    ensures forall id :: 0 <= id < |Drawings| ==> DrawnCellsFrom(Drawings[id], 0) == CellCounts[id]
  {
    assert DrawnCellsFrom([], 0) == 0;
    assert DrawnCellsFrom(["X"], 0) == 1;
    assert DrawnCellsFrom(["XX"], 0) == 2;
    assert DrawnCellsFrom(["XXX"], 0) == 3;
    assert DrawnCellsFrom([".X.", "XXX"], 0) == 4;
    assert DrawnCellsFrom(["X..", "XXX"], 0) == 4;
    assert DrawnCellsFrom(["XX", "XX"], 0) == 4;
    assert DrawnCellsFrom(["X..", "X..", "XXX"], 0) == 5;
    assert DrawnCellsFrom(["XXX", "XXX", "XXX"], 0) == 9;
    assert DrawnCellsFrom(["XXXX"], 0) == 4;
    assert DrawnCellsFrom(["XX", "XX", "XX"], 0) == 6;
  }

  /** Every mask has the cell count of its drawing. */
  lemma ShapeCellCounts()
    ensures |CellCounts| == |ShapeLibrary|
    ensures forall id :: 0 <= id < |ShapeLibrary| ==> CellCount(ShapeLibrary[id]) == CellCounts[id]
  {
    ShapesMatchDrawings();
    DrawingCellCounts();
    forall id | 0 <= id < |ShapeLibrary|
      ensures CellCount(ShapeLibrary[id]) == CellCounts[id]
    {
      CellsOfDepiction(ShapeLibrary[id], Drawings[id], 0);
    }
  }

  /** Every shape id names a nonempty mask whose drawing has at least one cell. */
  lemma ShapeHasCells(id: nat)
    requires 1 <= id <= ShapeOptions
    ensures ShapeLibrary[id] != 0
    ensures CellCounts[id] >= 1
  {
    ShapeLibraryLayout();
  }
}
