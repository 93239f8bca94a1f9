/**
 The game board: one bitboard per player and a turn flag, with the board's
 queries (the winner, whether it is full, the top of a column) and its one
 move, dropping a disc into a column.

 A column `x` is walked from bit `1 << x` upwards in steps of seven bits. The
 engine accepts any integer `x`: a negative one gives the empty mask (a BigInt
 shift by a negative amount shifts right), and one of 7 or more walks the bits
 `x, x + 7, ...`, which are not the cells of a single column.
 */
module Engine {
  import opened Wrappers
  import opened Bitboards
  import opened Grid
  import opened Masks

  /** Player 1's discs, player 2's discs, and the turn flag: bit 0 set means player 1 moves. */
  datatype Board = Board(player1: Bitboard, player2: Bitboard, flags: bv32)

  /** The board a game starts from: no discs, player 1 to move. */
  function Empty(): Board {
    Board({}, {}, 1)
  }

  /** `player1 | player2`: the occupied cells. */
  function Occupied(b: Board): Bitboard {
    b.player1 + b.player2
  }

  /** The winning-line masks, generated once. */
  const RowMasks: seq<Bitboard> := GenerateRowMasks()

  /** `1n << BigInt(x)`. */
  function ColumnMask(x: int): Bitboard {
    if x >= 0 then {x} else {}
  }

  /** Where a column walk stopped: at iteration `row`, holding the then-current mask. */
  datatype Stop = Stop(row: nat, mask: Bitboard)

  /** The walk getTop and placeDisc share: for iterations `i` up to 5, while the mask
      meets an occupied cell, shift it up by seven bits; stop at the first mask that
      does not. Running out of iterations is `None`. */
  function Scan(occ: Bitboard, mask: Bitboard, i: nat): (r: Option<Stop>)
    requires i <= 6
    ensures r.Some? ==> i <= r.value.row < 6 && occ * r.value.mask == {}
    decreases 6 - i
  {
    if i == 6 then None
    else if occ * mask != {} then Scan(occ, ShiftLeft(mask, 7), i + 1)
    else Some(Stop(i, mask))
  }

  /** The first row at or above `r` whose bit above `x` is free, or 6 when rows `r`
      to 5 are all taken. From row 0 this is the height of the stack in column `x`. */
  function FreeRow(occ: Bitboard, x: nat, r: nat): (h: nat)
    requires r <= 6
    ensures r <= h <= 6
    ensures forall k :: r <= k < h ==> Bit(x, k) in occ
    ensures h < 6 ==> Bit(x, h) !in occ
    decreases 6 - r
  {
    if r < 6 && Bit(x, r) in occ then FreeRow(occ, x, r + 1) else r
  }

  /** A row below which every bit is taken and at which the bit is free is the free row:
      the free row is determined by its characterisation. */
  lemma FreeRowIs(occ: Bitboard, x: nat, r: nat, h: nat)
    requires r <= h <= 6
    requires forall k :: r <= k < h ==> Bit(x, k) in occ
    requires h < 6 ==> Bit(x, h) !in occ
    ensures FreeRow(occ, x, r) == h
  {
  }

  /** Started on row `i` of column `x`, the walk stops at the first free row at or
      above `i`, holding that row's bit, or runs off the top. */
  lemma {:induction false} ScanFindsFreeRow(occ: Bitboard, x: nat, i: nat)
    requires i <= 6
    ensures var h := FreeRow(occ, x, i);
      Scan(occ, {Bit(x, i)}, i) == if h == 6 then None else Some(Stop(h, {Bit(x, h)}))
    decreases 6 - i
  {
    if i < 6 {
      if Bit(x, i) in occ {
        assert Bit(x, i) in occ * {Bit(x, i)};
        ShiftSingle(Bit(x, i), 7);
        assert Bit(x, i) + 7 == Bit(x, i + 1);
        ScanFindsFreeRow(occ, x, i + 1);
      } else {
        assert occ * {Bit(x, i)} == {};
      }
    }
  }

  /** The walk from `1 << x`: for a negative `x` it stops at once with the empty mask;
      otherwise at the first free row of column `x`, if there is one. */
  lemma ColumnWalk(occ: Bitboard, x: int)
    ensures x < 0 ==> Scan(occ, ColumnMask(x), 0) == Some(Stop(0, {}))
    ensures x >= 0 ==> var h := FreeRow(occ, x, 0);
      Scan(occ, ColumnMask(x), 0) == if h == 6 then None else Some(Stop(h, {Bit(x, h)}))
  {
    if x >= 0 {
      assert ColumnMask(x) == {Bit(x, 0)};
      ScanFindsFreeRow(occ, x, 0);
    } else {
      assert occ * {} == {};
    }
  }

  /** getTop(x): `6 - h` for the stack height `h` of column `x`, the screen row just
      above the stack; nothing when all six rows are taken; 6 for a negative `x`. */
  function GetTop(b: Board, x: int): (top: Option<int>)
    ensures x < 0 ==> top == Some(6)
    ensures x >= 0 ==> (top.None? <==> FreeRow(Occupied(b), x, 0) == 6)
    ensures x >= 0 && top.Some? ==> top.value == 6 - FreeRow(Occupied(b), x, 0)
  {
    var walk := Scan(Occupied(b), ColumnMask(x), 0);
    ColumnWalk(Occupied(b), x);
    if walk.None? then None else Some(6 - walk.value.row)
  }

  /** placeDisc(x): the bitboard of the player to move (chosen by `flags & 1`) gains the
      first free cell of column `x`; a full column or a negative `x` changes nothing, and
      the turn flag is never touched. */
  function PlaceDisc(b: Board, x: int): (after: Board)
    ensures after.flags == b.flags
    ensures x < 0 || FreeRow(Occupied(b), x, 0) == 6 ==> after == b
    ensures x >= 0 && FreeRow(Occupied(b), x, 0) < 6 ==>
      var cell := Bit(x, FreeRow(Occupied(b), x, 0));
      && cell !in Occupied(b)
      && (b.flags & 1 != 0 ==> after == b.(player1 := b.player1 + {cell}))
      && (b.flags & 1 == 0 ==> after == b.(player2 := b.player2 + {cell}))
  {
    var walk := Scan(Occupied(b), ColumnMask(x), 0);
    ColumnWalk(Occupied(b), x);
    assert b.player1 + {} == b.player1 && b.player2 + {} == b.player2;
    if walk.None? then b
    else if b.flags & 1 != 0 then b.(player1 := b.player1 + walk.value.mask)
    else b.(player2 := b.player2 + walk.value.mask)
  }

  /** Every column holds a contiguous stack from the bottom: a cell of the grid is
      occupied exactly when its row is below its column's height. */
  predicate Settled(occ: Bitboard) {
    forall c, r :: 0 <= c < 7 && 0 <= r < 6 ==> (Bit(c, r) in occ <==> r < FreeRow(occ, c, 0))
  }

  /** The invariant of every board reached by play on the grid: the players' discs
      are disjoint, lie on the 42 cells, and stack from the bottom; the turn flag is 0 or 1. */
  predicate Valid(b: Board) {
    && b.player1 * b.player2 == {}
    && OnBoard(Occupied(b))
    && Settled(Occupied(b))
    && (b.flags == 0 || b.flags == 1)
  }

  lemma EmptyValid()
    ensures Valid(Empty())
    ensures forall x: nat :: FreeRow(Occupied(Empty()), x, 0) == 0
  {
    forall x: nat
      ensures FreeRow(Occupied(Empty()), x, 0) == 0
    {
      FreeRowIs({}, x, 0, 0);
    }
  }

  /** Two distinct columns of the grid share no bit. */
  lemma BitColumns(c: nat, r: nat, x: nat, h: nat)
    requires c < 7 && x < 7 && Bit(c, r) == Bit(x, h)
    ensures c == x && r == h
  {
  }

  /** Adding the free cell of column `x` to a settled board raises that column's
      height by one, leaves every other column's height alone, and keeps it settled. */
  lemma StackGrows(occ: Bitboard, x: nat)
    requires Settled(occ) && x < 7 && FreeRow(occ, x, 0) < 6
    ensures var h := FreeRow(occ, x, 0); var occ' := occ + {Bit(x, h)};
      && FreeRow(occ', x, 0) == h + 1
      && (forall c :: 0 <= c < 7 && c != x ==> FreeRow(occ', c, 0) == FreeRow(occ, c, 0))
      && Settled(occ')
  {
    var h := FreeRow(occ, x, 0);
    var occ' := occ + {Bit(x, h)};
    SettledColumn(occ, x);
    StackGrowsHere(occ, x, h);
    forall c | 0 <= c < 7 && c != x
      ensures FreeRow(occ', c, 0) == FreeRow(occ, c, 0)
    {
      StackStaysElsewhere(occ, x, c);
    }
    forall c, r | 0 <= c < 7 && 0 <= r < 6
      ensures Bit(c, r) in occ' <==> r < FreeRow(occ', c, 0)
    {
      if Bit(c, r) == Bit(x, h) {
        BitColumns(c, r, x, h);
      }
    }
  }

  /** A column whose rows from its height up are free grows by one when its free cell is added. */
  lemma StackGrowsHere(occ: Bitboard, x: nat, h: nat)
    requires h == FreeRow(occ, x, 0) < 6
    requires forall k :: h <= k < 6 ==> Bit(x, k) !in occ
    ensures FreeRow(occ + {Bit(x, h)}, x, 0) == h + 1
  {
    var occ' := occ + {Bit(x, h)};
    forall k | h + 1 <= k < 6
      ensures Bit(x, k) !in occ'
    {
      assert Bit(x, k) !in occ;
      assert Bit(x, k) != Bit(x, h);
    }
    FreeRowIs(occ', x, 0, h + 1);
  }

  /** In a settled board every row of a column from its height up is free. */
  lemma SettledColumn(occ: Bitboard, x: nat)
    requires Settled(occ) && x < 7
    ensures forall k :: FreeRow(occ, x, 0) <= k < 6 ==> Bit(x, k) !in occ
  {
  }

  lemma StackStaysElsewhere(occ: Bitboard, x: nat, c: nat)
    requires Settled(occ) && x < 7 && FreeRow(occ, x, 0) < 6 && c < 7 && c != x
    ensures FreeRow(occ + {Bit(x, FreeRow(occ, x, 0))}, c, 0) == FreeRow(occ, c, 0)
  {
    var h := FreeRow(occ, x, 0);
    var g := FreeRow(occ, c, 0);
    if g < 6 && Bit(c, g) == Bit(x, h) {
      BitColumns(c, g, x, h);
    }
    FreeRowIs(occ + {Bit(x, h)}, c, 0, g);
  }

  /** Dropping a disc into a column of the grid, or a negative column, keeps a valid
      board valid; a placed disc adds exactly one occupied cell. */
  lemma PlaceDiscValid(b: Board, x: int)
    requires Valid(b) && x < 7
    ensures Valid(PlaceDisc(b, x))
    ensures PlaceDisc(b, x) != b ==> |Occupied(PlaceDisc(b, x))| == |Occupied(b)| + 1
  {
    if x >= 0 && FreeRow(Occupied(b), x, 0) < 6 {
      var occ := Occupied(b);
      var cell := Bit(x, FreeRow(occ, x, 0));
      AddCellValid(b, PlaceDisc(b, x), cell);
      StackGrows(occ, x);
    }
  }

  /** A board that gains one free cell of the grid for one of its players. */
  lemma AddCellValid(b: Board, after: Board, cell: nat)
    requires Valid(b) && cell < 42 && cell !in Occupied(b)
    requires after == b.(player1 := b.player1 + {cell}) || after == b.(player2 := b.player2 + {cell})
    ensures Occupied(after) == Occupied(b) + {cell}
    ensures after.player1 * after.player2 == {} && OnBoard(Occupied(after)) && after.flags == b.flags
    ensures |Occupied(after)| == |Occupied(b)| + 1
  {
  }

  /** Each disc dropped into a column that is not full lowers its top by one; the top
      is undefined once the sixth disc is in. */
  lemma GetTopFalls(b: Board, x: int)
    requires Valid(b) && 0 <= x < 7 && GetTop(b, x).Some?
    ensures GetTop(PlaceDisc(b, x), x) == if GetTop(b, x).value == 1 then None else Some(GetTop(b, x).value - 1)
  {
    var after := PlaceDisc(b, x);
    assert Occupied(after) == Occupied(b) + {Bit(x, FreeRow(Occupied(b), x, 0))};
    StackGrows(Occupied(b), x);
  }

  /** The full-board test on the integer: with every bit on the grid, the occupied cells
      reach 0x3ffffffffff exactly when all 42 are taken; a bit at or above 42 reaches it anyway. */
  lemma FullTest(occ: Bitboard)
    ensures OnBoard(occ) ==> (Value(occ) >= 0x3ffffffffff <==> AllCellsIn(occ))
    ensures !OnBoard(occ) ==> Value(occ) >= 0x3ffffffffff
  {
    FullBoardConstant();
    if OnBoard(occ) {
      ValueIsValueBelow(occ, 42);
      ValueBelowBound(occ, 42);
    } else {
      var i :| i in occ && i >= 42;
      ValueAtLeast(occ, i);
      Pow2Monotonic(42, i);
      Pow2Values();
    }
  }

  /** isFull(): the occupied cells, read as one integer, are at least 0x3ffffffffff. On a
      board whose discs lie on the grid, that is every cell taken; a disc off the grid makes
      the test succeed regardless. */
  function IsFull(b: Board): (full: bool)
    ensures OnBoard(Occupied(b)) ==> (full <==> AllCellsIn(Occupied(b)))
    ensures !OnBoard(Occupied(b)) ==> full
  {
    FullTest(Occupied(b));
    Value(Occupied(b)) >= 0x3ffffffffff
  }

  /** On a board whose discs all lie on the grid, isFull() holds exactly when 42 discs have been placed. */
  lemma IsFullCount(b: Board)
    requires OnBoard(Occupied(b))
    ensures IsFull(b) <==> |Occupied(b)| == 42
    ensures |Occupied(b)| <= 42
  {
    CellsCount(Occupied(b));
    OnBoardSize(Occupied(b));
  }

  /** Four of `bits` in a line somewhere on the grid. */
  ghost predicate HasLine(bits: Bitboard) {
    exists p :: Fits(p) && Line(p) <= bits
  }

  /** The loop of getWinner for one player: is some `masks[k]`, `k >= i`, wholly inside
      `bits`, tested as `(bits & mask) === mask`? */
  function Covers(bits: Bitboard, masks: seq<Bitboard>, i: nat): (found: bool)
    requires i <= |masks|
    ensures found <==> exists k :: i <= k < |masks| && masks[k] <= bits
    decreases |masks| - i
  {
    if i == |masks| then false
    else if bits * masks[i] == masks[i] then true
    else Covers(bits, masks, i + 1)
  }

  /** Scanning all the generated masks finds one exactly when the bits hold a line. */
  lemma CoversLines(bits: Bitboard)
    ensures Covers(bits, RowMasks, 0) <==> HasLine(bits)
  {
    if Covers(bits, RowMasks, 0) {
      CoveredMaskIsLine(bits);
    }
    if HasLine(bits) {
      LineIsCovered(bits);
    }
  }

  lemma CoveredMaskIsLine(bits: Bitboard)
    requires Covers(bits, RowMasks, 0)
    ensures HasLine(bits)
  {
    var k :| 0 <= k < |RowMasks| && RowMasks[k] <= bits;
    GeneratedMasks();
    var p := PlacementAt(k);
    assert RowMasks[k] == Line(p);
  }

  lemma LineIsCovered(bits: Bitboard)
    requires HasLine(bits)
    ensures Covers(bits, RowMasks, 0)
  {
    var p :| Fits(p) && Line(p) <= bits;
    GeneratedMasks();
    assert Line(p) in RowMasks;
    var k :| 0 <= k < |RowMasks| && RowMasks[k] == Line(p);
  }

  /** getWinner(): 1 when player 1 has four in a line (checked first), otherwise -1
      when player 2 has, otherwise 0. */
  function GetWinner(b: Board): (w: int)
    ensures w == 1 <==> HasLine(b.player1)
    ensures w == -1 <==> !HasLine(b.player1) && HasLine(b.player2)
    ensures w == 0 <==> !HasLine(b.player1) && !HasLine(b.player2)
  {
    CoversLines(b.player1);
    CoversLines(b.player2);
    if Covers(b.player1, RowMasks, 0) then 1
    else if Covers(b.player2, RowMasks, 0) then -1
    else 0
  }

  /** Nobody can have won while each player has fewer than four discs. */
  lemma NoWinnerWithFewDiscs(b: Board)
    requires |b.player1| < 4 && |b.player2| < 4
    ensures GetWinner(b) == 0
  {
    forall bits: Bitboard | |bits| < 4
      ensures !HasLine(bits)
    {
      if HasLine(bits) {
        var p :| Fits(p) && Line(p) <= bits;
        LineShape(p);
        SubsetSize(Line(p), bits);
      }
    }
  }
}
