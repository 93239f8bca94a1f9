/**
 The winning-line masks: one bitboard per way of placing four discs in a line
 on the 7 x 6 grid, generated by shifting four seed patterns, in the order the
 engine's generator pushes them (21 vertical, 24 horizontal, 12 of each
 diagonal).
 */
module Masks {
  import opened Bitboards
  import opened Grid

  /** The direction a line runs in, from its first cell, in board coordinates. On
      screen the board is drawn mirrored and upside down, so the rising diagonals
      (seed 0x1010101) look like a downward slope from left to right, and the falling
      ones (seed 0x208208) like an upward slope. */
  datatype Direction =
    | Vertical    // up one row
    | Horizontal  // right one column
    | Rising      // up one row and one column higher
    | Falling     // up one row and one column lower

  /** Four cells in a line: the first at (col, row), each next one step further along `dir`. */
  datatype Placement = Placement(col: int, row: int, dir: Direction)

  function ColumnOffset(d: Direction, k: int): int {
    match d
    case Vertical => 0
    case Horizontal => k
    case Rising => k
    case Falling => -k
  }

  function RowOffset(d: Direction, k: int): int {
    if d == Horizontal then 0 else k
  }

  /** Whether the four cells of `p` lie on the board. */
  predicate Fits(p: Placement) {
    && InGrid(p.col, p.row)
    && InGrid(p.col + ColumnOffset(p.dir, 3), p.row + RowOffset(p.dir, 3))
  }

  /** The bit of the `k`-th cell of a placement. */
  function CellOf(p: Placement, k: nat): (i: nat)
    requires Fits(p) && k < 4
    ensures i < 42
  {
    Index(p.col + ColumnOffset(p.dir, k), p.row + RowOffset(p.dir, k))
  }

  /** How far apart, in bits, consecutive cells of a line in direction `d` are. */
  function Stride(d: Direction): nat {
    match d
    case Vertical => 7
    case Horizontal => 1
    case Rising => 8
    case Falling => 6
  }

  // The seed patterns, each the first line of its family.
  const VerticalSeed: Bitboard := {0, 7, 14, 21}
  const HorizontalSeed: Bitboard := {0, 1, 2, 3}
  const RisingSeed: Bitboard := {0, 8, 16, 24}
  const FallingSeed: Bitboard := {3, 9, 15, 21}

  function Seed(d: Direction): Bitboard {
    match d
    case Vertical => VerticalSeed
    case Horizontal => HorizontalSeed
    case Rising => RisingSeed
    case Falling => FallingSeed
  }

  /** How far the seed of `p`'s family is shifted to give `p`'s mask: the bit of
      the lowest, leftmost cell of the 4 x 4 box the line sits in. */
  function Anchor(p: Placement): nat
    requires Fits(p)
  {
    if p.dir == Falling then Index(p.col - 3, p.row) else Index(p.col, p.row)
  }

  /** The mask of a placement: its family's seed shifted to the placement. */
  function Line(p: Placement): Bitboard
    requires Fits(p)
  {
    ShiftLeft(Seed(p.dir), Anchor(p))
  }

  lemma ShiftFour(a: nat, b: nat, c: nat, d: nat, n: nat)
    ensures ShiftLeft({a, b, c, d}, n) == {a + n, b + n, c + n, d + n}
  {
  }

  /** The mask of a placement holds exactly the bits of its four cells: a seed
      shift never wraps a line across the edge of a row. */
  lemma LineCells(p: Placement)
    requires Fits(p)
    ensures Line(p) == {CellOf(p, 0), CellOf(p, 1), CellOf(p, 2), CellOf(p, 3)}
  {
    var n := Anchor(p);
    match p.dir
    case Vertical =>
      assert CellOf(p, 0) == n && CellOf(p, 1) == n + 7 && CellOf(p, 2) == n + 14 && CellOf(p, 3) == n + 21;
      SeedCells(Seed(p.dir), n, 0, 7, 14, 21, CellOf(p, 0), CellOf(p, 1), CellOf(p, 2), CellOf(p, 3));
    case Horizontal =>
      assert CellOf(p, 0) == n && CellOf(p, 1) == n + 1 && CellOf(p, 2) == n + 2 && CellOf(p, 3) == n + 3;
      SeedCells(Seed(p.dir), n, 0, 1, 2, 3, CellOf(p, 0), CellOf(p, 1), CellOf(p, 2), CellOf(p, 3));
    case Rising =>
      assert CellOf(p, 0) == n && CellOf(p, 1) == n + 8 && CellOf(p, 2) == n + 16 && CellOf(p, 3) == n + 24;
      SeedCells(Seed(p.dir), n, 0, 8, 16, 24, CellOf(p, 0), CellOf(p, 1), CellOf(p, 2), CellOf(p, 3));
    case Falling =>
      assert CellOf(p, 0) == n + 3 && CellOf(p, 1) == n + 9 && CellOf(p, 2) == n + 15 && CellOf(p, 3) == n + 21;
      SeedCells(Seed(p.dir), n, 3, 9, 15, 21, CellOf(p, 0), CellOf(p, 1), CellOf(p, 2), CellOf(p, 3));
  }

  /** A four-bit seed shifted by `n` has its four bits moved up by `n`. */
  lemma SeedCells(seed: Bitboard, n: nat, a: nat, b: nat, c: nat, d: nat, w: nat, x: nat, y: nat, z: nat)
    requires seed == {a, b, c, d}
    requires w == n + a && x == n + b && y == n + c && z == n + d
    ensures ShiftLeft(seed, n) == {w, x, y, z}
  {
    ShiftFour(a, b, c, d, n);
  }

  /** A line mask has four bits, all of them cells of the grid. */
  lemma LineShape(p: Placement)
    requires Fits(p)
    ensures |Line(p)| == 4
    ensures OnBoard(Line(p))
  {
    LineCells(p);
    var a, b, c, d := CellOf(p, 0), CellOf(p, 1), CellOf(p, 2), CellOf(p, 3);
    FourSize(a, b, c, d);
  }

  lemma FourSize(a: nat, b: nat, c: nat, d: nat)
    requires a < b < c < d
    ensures |{a, b, c, d}| == 4
  {
    assert |{a, b}| == 2;
    assert |{a, b, c}| == 3;
  }

  /** Adding a bit above all others adds its weight to the value. */
  lemma ValueAddTop(b: Bitboard, k: nat)
    requires forall i :: i in b ==> i < k
    ensures Value(b + {k}) == Value(b) + Pow2(k)
  {
    var b' := b + {k};
    assert Max(b') == k;
    assert b' - {k} == b;
    assert Value(b') == Pow2(k) + Value(b);
  }

  /** The seeds are the integers written in the generator: 0x204081, 0xf, 0x1010101, 0x208208. */
  lemma SeedValues()
    ensures Value(VerticalSeed) == 0x204081
    ensures Value(HorizontalSeed) == 0xf
    ensures Value(RisingSeed) == 0x1010101
    ensures Value(FallingSeed) == 0x208208
  {
    VerticalSeedValue();
    HorizontalSeedValue();
    RisingSeedValue();
    FallingSeedValue();
  }

  /** The value of a four-bit bitboard. */
  lemma ValueOfFour(a: nat, b: nat, c: nat, d: nat)
    requires a < b < c < d
    ensures Value({a, b, c, d}) == Pow2(a) + Pow2(b) + Pow2(c) + Pow2(d)
  {
    ValueAddTop({}, a);
    assert {} + {a} == {a};
    ValueAddTop({a}, b);
    assert {a} + {b} == {a, b};
    ValueAddTop({a, b}, c);
    assert {a, b} + {c} == {a, b, c};
    ValueAddTop({a, b, c}, d);
    assert {a, b, c} + {d} == {a, b, c, d};
  }

  lemma VerticalSeedValue()
    ensures Value(VerticalSeed) == 0x204081
  {
    ValueOfFour(0, 7, 14, 21);
    Pow2Values();
  }

  lemma HorizontalSeedValue()
    ensures Value(HorizontalSeed) == 0xf
  {
    ValueOfFour(0, 1, 2, 3);
  }

  lemma RisingSeedValue()
    ensures Value(RisingSeed) == 0x1010101
  {
    ValueOfFour(0, 8, 16, 24);
    Pow2Values();
  }

  lemma FallingSeedValue()
    ensures Value(FallingSeed) == 0x208208
  {
    ValueOfFour(3, 9, 15, 21);
    Pow2Values();
  }

  /** The vertical loop: `seed << i` for `i` from 0 up to 20. */
  function VerticalMasks(): (masks: seq<Bitboard>)
    ensures |masks| == 21
  {
    seq(21, i requires 0 <= i < 21 => ShiftLeft(VerticalSeed, i))
  }

  /** A two-level loop, the row `y < rows` outside and the start column `i < 4`
      inside, pushing `seed << (i + 7 * y)`; the `k`-th mask pushed has
      `i == k % 4` and `y == k / 4`. */
  function SweepMasks(seed: Bitboard, rows: nat): (masks: seq<Bitboard>)
    ensures |masks| == 4 * rows
  {
    seq(4 * rows, k requires 0 <= k < 4 * rows => ShiftLeft(seed, k % 4 + 7 * (k / 4)))
  }

  /** The masks in the order the generator pushes them: vertical, horizontal,
      then the rising and the falling diagonals. */
  function GenerateRowMasks(): (masks: seq<Bitboard>)
    ensures |masks| == 69
  {
    VerticalMasks() + SweepMasks(HorizontalSeed, 6) + SweepMasks(RisingSeed, 3) + SweepMasks(FallingSeed, 3)
  }

  /** The generated masks are the lines of the 69 slots' placements, in slot order:
      every line of four on the grid is among them, and each has four bits on the grid. */
  lemma GeneratedMasks()
    ensures forall k :: 0 <= k < 69 ==> GenerateRowMasks()[k] == Line(PlacementAt(k))
    ensures forall p :: Fits(p) ==> Line(p) in GenerateRowMasks()
    ensures forall k :: 0 <= k < 69 ==> |GenerateRowMasks()[k]| == 4 && OnBoard(GenerateRowMasks()[k])
  {
    MasksEnumeratePlacements(GenerateRowMasks());
  }

  /** Which placement the generator's `k`-th mask covers. */
  function PlacementAt(k: nat): (p: Placement)
    requires k < 69
    ensures Fits(p)
    ensures p.dir == Vertical <==> k < 21
    ensures p.dir == Horizontal <==> 21 <= k < 45
    ensures p.dir == Rising <==> 45 <= k < 57
    ensures p.dir == Falling <==> 57 <= k
  {
    if k < 21 then Placement(k % 7, k / 7, Vertical)
    else if k < 45 then Placement((k - 21) % 4, (k - 21) / 4, Horizontal)
    else if k < 57 then Placement((k - 45) % 4, (k - 45) / 4, Rising)
    else Placement((k - 57) % 4 + 3, (k - 57) / 4, Falling)
  }

  /** Where in the generator's output the mask of a fitting placement appears. */
  function SlotOf(p: Placement): (k: nat)
    requires Fits(p)
    ensures k < 69
    ensures PlacementAt(k) == p
  {
    match p.dir
    case Vertical => p.col + 7 * p.row
    case Horizontal => 21 + p.col + 4 * p.row
    case Rising => 45 + p.col + 4 * p.row
    case Falling => 57 + (p.col - 3) + 4 * p.row
  }

  /** Distinct slots cover distinct placements, so the generator lists each placement once;
      with `SlotOf`, the 69 slots and the fitting placements correspond one to one. */
  lemma PlacementAtInjective(j: nat, k: nat)
    requires j < 69 && k < 69 && PlacementAt(j) == PlacementAt(k)
    ensures j == k
  {
  }

  /** Where each family sits in the generator's output. */
  lemma Families(masks: seq<Bitboard>, k: nat)
    requires masks == VerticalMasks() + SweepMasks(HorizontalSeed, 6)
      + SweepMasks(RisingSeed, 3) + SweepMasks(FallingSeed, 3)
    requires k < 69
    ensures k < 21 ==> masks[k] == VerticalMasks()[k]
    ensures 21 <= k < 45 ==> masks[k] == SweepMasks(HorizontalSeed, 6)[k - 21]
    ensures 45 <= k < 57 ==> masks[k] == SweepMasks(RisingSeed, 3)[k - 45]
    ensures 57 <= k ==> masks[k] == SweepMasks(FallingSeed, 3)[k - 57]
  {
    var v, h, r, f := VerticalMasks(), SweepMasks(HorizontalSeed, 6),
      SweepMasks(RisingSeed, 3), SweepMasks(FallingSeed, 3);
    assert masks == ((v + h) + r) + f;
  }

  /** The `k`-th mask is the line of the `k`-th placement. */
  lemma MaskIsLine(masks: seq<Bitboard>, k: nat)
    requires masks == VerticalMasks() + SweepMasks(HorizontalSeed, 6)
      + SweepMasks(RisingSeed, 3) + SweepMasks(FallingSeed, 3)
    requires k < 69
    ensures masks[k] == Line(PlacementAt(k))
  {
    Families(masks, k);
    if k < 21 {
      VerticalIsLine(k);
    } else if k < 45 {
      HorizontalIsLine(k);
    } else if k < 57 {
      RisingIsLine(k);
    } else {
      FallingIsLine(k);
    }
  }

  lemma VerticalIsLine(k: nat)
    requires k < 21
    ensures VerticalMasks()[k] == Line(PlacementAt(k))
  {
    assert Anchor(PlacementAt(k)) == k;
  }

  lemma HorizontalIsLine(k: nat)
    requires 21 <= k < 45
    ensures SweepMasks(HorizontalSeed, 6)[k - 21] == Line(PlacementAt(k))
  {
    var j := k - 21;
    SweepAt(HorizontalSeed, 6, j);
    assert Anchor(PlacementAt(k)) == j % 4 + 7 * (j / 4);
  }

  lemma RisingIsLine(k: nat)
    requires 45 <= k < 57
    ensures SweepMasks(RisingSeed, 3)[k - 45] == Line(PlacementAt(k))
  {
    var j := k - 45;
    SweepAt(RisingSeed, 3, j);
    assert Anchor(PlacementAt(k)) == j % 4 + 7 * (j / 4);
  }

  lemma FallingIsLine(k: nat)
    requires 57 <= k < 69
    ensures SweepMasks(FallingSeed, 3)[k - 57] == Line(PlacementAt(k))
  {
    var j := k - 57;
    SweepAt(FallingSeed, 3, j);
    assert Anchor(PlacementAt(k)) == j % 4 + 7 * (j / 4);
  }

  /** Mask `j` of a sweep is the seed shifted to column `j % 4` of row `j / 4`. */
  lemma SweepAt(seed: Bitboard, rows: nat, j: nat)
    requires j < 4 * rows
    ensures SweepMasks(seed, rows)[j] == ShiftLeft(seed, j % 4 + 7 * (j / 4))
  {
  }

  /** The generator's masks are exactly the lines of the fitting placements, in slot order. */
  lemma MasksEnumeratePlacements(masks: seq<Bitboard>)
    requires masks == VerticalMasks() + SweepMasks(HorizontalSeed, 6)
      + SweepMasks(RisingSeed, 3) + SweepMasks(FallingSeed, 3)
    ensures |masks| == 69
    ensures forall k :: 0 <= k < 69 ==> masks[k] == Line(PlacementAt(k))
    ensures forall p :: Fits(p) ==> Line(p) in masks
    ensures forall k :: 0 <= k < 69 ==> |masks[k]| == 4 && OnBoard(masks[k])
  {
    forall k | 0 <= k < 69
      ensures masks[k] == Line(PlacementAt(k))
    {
      MaskIsLine(masks, k);
    }
    forall p | Fits(p)
      ensures Line(p) in masks
    {
      assert masks[SlotOf(p)] == Line(p);
    }
    forall k | 0 <= k < 69
      ensures |masks[k]| == 4 && OnBoard(masks[k])
    {
      LineShape(PlacementAt(k));
    }
  }
}
