/**
 The 7 x 6 Connect Four grid and its bit layout. Cell (col, row), with row 0 at
 the bottom, is bit `col + 7 * row`: each group of seven consecutive bits is one
 board row, and the 42 cells use bits 0 through 41 with no padding between rows.
 */
module Grid {
  import opened Bitboards

  predicate InGrid(col: int, row: int) {
    0 <= col < 7 && 0 <= row < 6
  }

  /** The bit `row` places above bit `col`: `(1 << col) << 7 * row`. */
  function Bit(col: nat, row: nat): nat {
    col + 7 * row
  }

  /** The bit that stands for cell (col, row). */
  function Index(col: int, row: int): (i: nat)
    requires InGrid(col, row)
    ensures i < 42
  {
    Bit(col, row)
  }

  /** A cell's column and row are recovered from its bit by `% 7` and `/ 7`. */
  lemma IndexCoordinates(col: int, row: int)
    requires InGrid(col, row)
    ensures Index(col, row) % 7 == col && Index(col, row) / 7 == row
  {
  }

  /** Every bit below 42 is the bit of exactly one cell. */
  lemma IndexCoversCells(i: nat)
    requires i < 42
    ensures InGrid(i % 7, i / 7)
    ensures Index(i % 7, i / 7) == i
  {
  }

  /** The bits `0 .. n - 1`, the integer `2^n - 1`. */
  function LowBits(n: nat): (cells: Bitboard)
    ensures forall i: nat :: i in cells <==> i < n
    ensures |cells| == n
  {
    if n == 0 then {} else LowBits(n - 1) + {n - 1}
  }

  /** No bit at or above 42 is set: the bitboard marks cells of the grid only. */
  predicate OnBoard(b: Bitboard) {
    forall i :: i in b ==> i < 42
  }

  /** Every cell of the grid is marked. */
  predicate AllCellsIn(b: Bitboard) {
    forall i: nat :: i < 42 ==> i in b
  }

  /** 0x3ffffffffff, the integer compared against in the full-board test, is `2^42 - 1`. */
  lemma FullBoardConstant()
    ensures Pow2(42) - 1 == 0x3ffffffffff
  {
    Pow2Values();
  }

  /** A set of cells of the grid holds all 42 of them iff it has 42 elements. */
  lemma {:induction false} CellsCount(cells: Bitboard)
    requires OnBoard(cells)
    ensures |cells| == 42 <==> AllCellsIn(cells)
  {
    var all := LowBits(42);
    assert cells <= all;
    if AllCellsIn(cells) {
      assert cells == all;
    } else if |cells| == 42 {
      var missing: nat :| missing < 42 && missing !in cells;
      assert cells <= all - {missing};
      SubsetSize(cells, all - {missing});
      assert false;
    }
  }

  /** A set of cells of the grid has at most 42 elements. */
  lemma OnBoardSize(cells: Bitboard)
    requires OnBoard(cells)
    ensures |cells| <= 42
  {
    SubsetSize(cells, LowBits(42));
  }

  lemma {:induction false} SubsetSize(a: Bitboard, b: Bitboard)
    requires a <= b
    ensures |a| <= |b|
    decreases |b|
  {
    if a != {} {
      var x :| x in a;
      SubsetSize(a - {x}, b - {x});
    }
  }
}
