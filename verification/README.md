# Connect Four bitboard engine, modelled in Dafny

This project models the core of a browser Connect Four game written in
JavaScript (`connect4.js`). The modelled parts are:

- the winning-line masks that `generateRowMasks` builds;
- the `Board` class: the constructor, `getWinner`, `isFull`, `getTop` and
  `placeDisc`;
- the state update made by the click listener;
- the win/draw decision of `gameLoop`;
- the integer arithmetic that maps bits to screen cells.

The model proves what these parts guarantee.

A bitboard is a JavaScript BigInt. Here it is the set of positions of its one
bits (`Bitboards.Bitboard = set<nat>`):

- `|` is union and `&` is intersection;
- `(a & m) === m` is `m <= a`;
- a truthy `a & m` is `a * m != {}`;
- `Bitboards.Value` gives back the integer itself, for the one numeric
  comparison the engine makes (`isFull`).

Cell (col, row), with row 0 at the bottom, is bit `col + 7 * row`
(`Grid.Bit`). Each group of seven bits is one row of the grid, and the 42 cells
use bits 0 to 41. There is no padding bit per group: the full-board constant
`0x3ffffffffff` is 42 one bits, and a column walk steps by exactly 7. A layout
that reserves an unused bit in each 7-bit group does not match the code. The
model follows the code.

Modules, in dependency order:

- `Wrappers`: `Option`, which stands for JavaScript `undefined`.
- `Bitboards`: bitboards, shifts, and the integer value of a bitboard.
- `Grid`: the 7 x 6 grid and its bit layout.
- `Masks`: the 69 line masks, and their meaning as lines of four cells.
- `Engine`: the `Board` datatype and its operations. It also holds the
  invariant that play on the grid keeps.
- `Screen`: where bits are drawn, and where the column highlight goes.
- `Game`: the session state, the click step and the frame decision.

The engine accepts any integer column `x`, and so does the model:

- A negative `x` gives the mask `1n << x == 0`, so `placeDisc` does nothing
  and `getTop` returns 6.
- An `x` of 7 or more walks the bits `x, x + 7, ...`. These are not the cells
  of one column, and they can reach bit 42 and beyond.

The board invariant is proved for columns 0 to 6. The consequence of the click
handler's unchecked `6 - selectedColumn` is recorded under "## Findings".

## Model

| member | source | states |
|---|---|---|
| Masks.GenerateRowMasks | connect4.js:5-30 | The generator yields 69 masks. |
| Masks.GeneratedMasks | connect4.js:5-30 | Mask `k` is the line of the `k`-th placement. Every four-in-a-line placement on the 7 x 6 grid appears among the masks. Each mask has four bits, all below 42. |
| Masks.PlacementAt | connect4.js:7-28 | Slots 0-20 are the vertical lines, 21-44 horizontal, 45-56 rising diagonals and 57-68 falling diagonals (21, 24, 12 and 12 masks). Every slot is a placement that fits on the grid. |
| Masks.SlotOf | connect4.js:7-28 | Each fitting placement has a slot among the 69, and that slot's placement is the placement itself. So the generator misses no line. |
| Masks.PlacementAtInjective | connect4.js:7-28 | Different slots hold different placements, so no line is generated twice. |
| Masks.LineCells | connect4.js:9-26 | A shifted seed holds exactly the four cells of its line: consecutive along a column, a row or a diagonal. It never wraps across the edge of a row. |
| Masks.LineShape | connect4.js:9-26 | Every line mask has exactly four bits, all below bit 42. |
| Masks.SeedValues | connect4.js:9-26 | The four seeds are the integers 0x204081, 0xf, 0x1010101 and 0x208208, the first lines of their families. |
| Engine.EmptyValid | connect4.js:35-39 | The constructor's board (no discs, `flags = 1`) satisfies the invariant. Every column of it has height 0. |
| Engine.FreeRow | connect4.js:63-72 | The height of a column is the first row whose cell is free. Every row below it is taken. |
| Engine.Scan | connect4.js:64-71 | The shared column walk stops only on a row below 6. It stops holding a mask that meets no occupied cell. |
| Engine.ScanFindsFreeRow | connect4.js:65-71 | Started on a column, the walk stops at the column's first free row, holding exactly that row's bit. If all six rows are taken, it runs off the top (undefined). |
| Engine.ColumnWalk | connect4.js:64-71 | From `1n << x`, the walk for a negative `x` stops at once with an empty mask. For `x >= 0` it stops at column `x`'s free row, or at none. |
| Engine.GetTop | connect4.js:63-72 | `getTop(x)` is `6 - h` for a column of height `h < 6` and undefined for a full column. A negative `x` gives 6. |
| Engine.GetTopFalls | connect4.js:63-95 | On a valid board, each disc dropped into column `x` lowers `getTop(x)` by exactly one. It becomes undefined after the sixth disc. |
| Engine.PlaceDisc | connect4.js:75-95 | On a non-full column `x` of height `h`, `placeDisc(x)` adds exactly the free bit `x + 7h`. The bit goes to player 1's bitboard when `flags & 1` is set, and to player 2's otherwise. The other bitboard and `flags` are unchanged. A full column or a negative `x` leaves the board as it was. |
| Engine.PlaceDiscValid | connect4.js:75-95 | On grid columns, `placeDisc` keeps three things true: the bitboards stay disjoint, no bit at or above 42 is set, and columns stay contiguous stacks. Each placed disc adds exactly one occupied cell. |
| Engine.StackGrows | connect4.js:78-85 | Adding a column's free cell raises that column's height by one and keeps the board stacked. No other column changes height. |
| Engine.FullTest | connect4.js:59 | With all bits below 42, the occupied cells are at least 0x3ffffffffff exactly when all 42 cells are taken. A bit at or above 42 passes the test anyway. |
| Engine.IsFull | connect4.js:58-60 | `isFull()` holds exactly when every cell of the grid is occupied, on a board whose bits lie on the grid. It always holds otherwise. |
| Engine.IsFullCount | connect4.js:58-60 | On a board whose bits lie on the grid, `isFull()` holds exactly when 42 discs have been placed, and there are never more than 42. |
| Engine.Covers | connect4.js:44-53 | The mask loop finds a mask exactly when some mask from the current index on lies wholly inside the bitboard. |
| Engine.CoversLines | connect4.js:44-53 | Scanning all generated masks succeeds exactly when the bitboard holds four in a line somewhere on the grid. |
| Engine.GetWinner | connect4.js:42-55 | `getWinner()` is 1 exactly when player 1 has a line, checked first. It is -1 exactly when player 1 has none and player 2 has one, and 0 exactly when neither has one. |
| Engine.NoWinnerWithFewDiscs | connect4.js:42-55 | While each player has fewer than four discs, `getWinner()` is 0. |
| Screen.ScreenSpot | connect4.js:149-161 | Bit `i` below 42 is drawn at screen cell `(6 - i % 7, 5 - i / 7)`, inside the 7 x 6 grid. |
| Screen.ScreenRoundTrip | connect4.js:151-159 | Reading the bit back from the spot a bit is drawn at gives the same bit. |
| Screen.SpotRoundTrip | connect4.js:151-159 | Every spot of the grid shows exactly one bit, and drawing that bit gives the same spot. |
| Screen.Highlight | connect4.js:188-191 | The highlight for screen column `c` is in that screen column and in a row of the grid. There is none when `getTop(6 - c)` is undefined. |
| Screen.HighlightMarksLanding | connect4.js:188-190 | The highlight `(c, getTop(6 - c) - 1)` is the screen cell `(6 - b % 7, 5 - b / 7)` of the bit `b` that a click on screen column `c` adds. With the column full, there is no highlight and the click adds nothing. |
| Game.PassTurn | connect4.js:135 | `flags ^= 1` swaps 0 and 1 and leaves both bitboards alone. |
| Game.Click | connect4.js:132-138 | The click step changes nothing unless `winner === 0 && gameRunning`. `flags` stays 0 or 1. The recorded winner stays as it was or becomes 1 or -1. After a click that acts, the winner is 1 exactly when player 1 has a line. |
| Game.ClickPlays | connect4.js:132-138 | A click on grid column `c` drops the mover's disc into board column `6 - c` at its free cell, and the turn always passes. On a full column the board is unchanged but the turn passes too. |
| Game.StartInv | connect4.js:1-2 | The page's initial state satisfies the session invariant: an empty valid board, winner 0, running. |
| Game.ClickKeepsInv | connect4.js:132-138 | The click step keeps the session invariant for every selected column that is not negative. The invariant is a valid board, the recorded winner equal to the board's winner, and a stopped game being over. |
| Game.ClickOffGrid | connect4.js:123-134 | Clicking with `selectedColumn = -1` on the fresh board sets bit 7, a floating disc with an empty cell beneath it, and the board is no longer valid. |
| Game.ClickRightOfGrid | connect4.js:132-138 | With `selectedColumn` of 7 or more, the click adds no disc but still passes the turn. |
| Game.ClickOnGrid | connect4.js:132-138 | The corrected click ignores clicks off the seven grid columns. On the grid it is the click step. |
| Game.ClickOnGridKeepsInv | connect4.js:132-138 | With clicks off the grid ignored, every click keeps the session invariant. |
| Game.GameLoop | connect4.js:179-205 | A frame never changes the board or the winner. After the frame the game runs exactly when it ran before and the frame shows neither a win nor a draw. It highlights only while play goes on, and only in the selected column. |
| Game.BannerMeaning | connect4.js:179-205 | Under the invariant, the frame shows a player 1 win exactly when player 1 has a line. It shows a player 2 win exactly when only player 2 has one. It shows a draw exactly when all 42 cells are filled with no line, and otherwise play goes on. |
| Game.GameLoopKeepsInv | connect4.js:179-205 | A frame keeps the session invariant. |
| Game.FinishedIgnoresClicks | connect4.js:133 | Once a frame has declared a win or a draw, clicks change nothing. |

## Left out

- Drawing is left out. This covers the canvas setup, the `drawDisc` arcs, colours and text (connect4.js:102-111, 140-147, 166-177 and the message text). Only the position arithmetic of `drawDiscs` and of the highlight is modelled.
- The mouse-move handler's conversion of mouse coordinates to a column (connect4.js:116-129) is left out. It depends on page geometry and floating-point scaling. `selectedColumn` is an integer input to `Game.Click` and `Game.GameLoop`.
- Frame scheduling by `requestAnimationFrame` (connect4.js:208) is left out. `Game.GameLoop` models one frame's decision, and the order in which frames and clicks interleave is up to the caller.
- The NaN row that `getTop(...) - 1` produces for a full column is left out. It is modelled as no highlight (`None`), since the canvas draws nothing at a NaN position.
- `flags` is a `bv32`, matching the 32-bit integer semantics of JavaScript's `^` and `&`. No other width matters, because `flags` only ever holds 0 or 1.

## Findings

| source | as written | input that shows it | evidently intended | confidence | as-written member | corrected member |
|---|---|---|---|---|---|---|
| connect4.js:126-134 | The click listener drops into board column `6 - selectedColumn` without a range check. The mouse handler sets `selectedColumn = -1` whenever the mouse is above or below the grid. | `selectedColumn = -1` on the fresh board: `placeDisc(7)` sets bit 7 (row 1 of board column 0) over an empty cell. A `selectedColumn` of 7 or more passes the turn without a disc. | Clicks outside the seven grid columns are ignored, as the highlight code (connect4.js:188) does. | not executed; medium | Game.ClickOffGrid | Game.ClickOnGridKeepsInv |
