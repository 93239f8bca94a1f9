/**
 Where the page draws the board. Bit `i` is drawn at screen column `6 - i % 7`
 and screen row `5 - i / 7`, screen rows counted from the top, so the drawing
 mirrors the bit layout left to right and turns it upside down. A click on
 screen column `c` drops into board column `6 - c`, and the highlight for
 screen column `c` sits on screen row `getTop(6 - c) - 1`.
 */
module Screen {
  import opened Wrappers
  import opened Grid
  import opened Engine

  /** A place on the drawn grid: screen column `x` from the left, screen row `y` from the top. */
  datatype Spot = Spot(x: int, y: int)

  /** drawDiscs: where the disc of bit `i` is drawn. */
  function ScreenSpot(i: nat): (spot: Spot)
    ensures i < 42 ==> 0 <= spot.x < 7 && 0 <= spot.y < 6
  {
    Spot(6 - i % 7, 5 - i / 7)
  }

  /** The bit whose disc is drawn at a spot of the grid. */
  function SpotBit(spot: Spot): (i: nat)
    requires 0 <= spot.x < 7 && 0 <= spot.y < 6
    ensures i < 42
  {
    Bit(6 - spot.x, 5 - spot.y)
  }

  /** Each bit of the grid is drawn at its own spot: drawing a bit and reading the spot back gives the bit. */
  lemma ScreenRoundTrip(i: nat)
    requires i < 42
    ensures SpotBit(ScreenSpot(i)) == i
  {
  }

  /** Each spot of the grid shows exactly one bit. */
  lemma SpotRoundTrip(spot: Spot)
    requires 0 <= spot.x < 7 && 0 <= spot.y < 6
    ensures ScreenSpot(SpotBit(spot)) == spot
  {
    IndexCoordinates(6 - spot.x, 5 - spot.y);
  }

  /** gameLoop's highlight for screen column `c`: the spot (c, getTop(6 - c) - 1). When
      the column is full getTop is undefined, the row comes out as NaN and nothing shows. */
  function Highlight(b: Board, c: int): (spot: Option<Spot>)
    requires 0 <= c < 7
    ensures spot.Some? ==> spot.value.x == c && 0 <= spot.value.y < 6
  {
    match GetTop(b, 6 - c)
    case None => None
    case Some(top) => Some(Spot(c, top - 1))
  }

  /** The highlight marks the spot where a click on the same screen column lands the
      disc: the free cell of board column `6 - c`; with the column full there is no
      highlight and the drop changes nothing. */
  lemma HighlightMarksLanding(b: Board, c: int)
    requires 0 <= c < 7
    ensures var x := 6 - c; var h := FreeRow(Occupied(b), x, 0);
      && (h == 6 ==> Highlight(b, c).None? && PlaceDisc(b, x) == b)
      && (h < 6 ==> && Highlight(b, c) == Some(ScreenSpot(Bit(x, h)))
                    && Bit(x, h) !in Occupied(b)
                    && Bit(x, h) in Occupied(PlaceDisc(b, x)))
  {
    var x := 6 - c;
    var h := FreeRow(Occupied(b), x, 0);
    if h < 6 {
      IndexCoordinates(x, h);
    }
  }
}
