/**
 The page's game state and the two handlers that change it: the click listener,
 which plays a move, and the per-frame decision of the game loop, which declares
 a win or a draw and stops the game.
 */
module Game {
  import opened Wrappers
  import opened Bitboards
  import opened Grid
  import opened Engine
  import opened Screen

  /** The board, the winner recorded after the last move (1, -1 or 0), and whether the game still runs. */
  datatype Session = Session(board: Board, winner: int, running: bool)

  /** The state when the page loads. */
  function Start(): Session {
    Session(Empty(), 0, true)
  }

  /** Whether the click listener acts: nobody has won and the game runs. */
  predicate Accepting(s: Session) {
    s.winner == 0 && s.running
  }

  /** `flags ^= 1`, JavaScript's exclusive or on 32-bit integers. */
  function PassTurn(b: Board): (after: Board)
    ensures after.player1 == b.player1 && after.player2 == b.player2
    ensures b.flags == 0 || b.flags == 1 ==> after.flags == 1 - b.flags
  {
    b.(flags := b.flags ^ 1)
  }

  /** The click listener: while accepting, drop a disc into board column
      `6 - selectedColumn`, pass the turn whether or not a disc went in, and record
      the winner of the new board. Otherwise nothing changes. */
  function Click(s: Session, selectedColumn: int): (next: Session)
    ensures !Accepting(s) ==> next == s
    ensures Accepting(s) ==> next.running
    ensures s.board.flags == 0 || s.board.flags == 1 ==> next.board.flags == 0 || next.board.flags == 1
    ensures next.winner == s.winner || next.winner == 1 || next.winner == -1
    ensures Accepting(s) ==> (next.winner == 1 <==> HasLine(next.board.player1))
  {
    if s.winner == 0 && s.running then
      var board := PassTurn(PlaceDisc(s.board, 6 - selectedColumn));
      s.(board := board, winner := GetWinner(board))
    else s
  }

  /** What every reachable session satisfies when the player clicks on the grid: the
      board is valid, the recorded winner is the board's, and a stopped game is over. */
  predicate SessionInv(s: Session) {
    && Valid(s.board)
    && s.winner == GetWinner(s.board)
    && (!s.running ==> s.winner != 0 || IsFull(s.board))
  }

  lemma StartInv()
    ensures SessionInv(Start())
  {
    EmptyValid();
    NoWinnerWithFewDiscs(Empty());
  }

  /** A click on a grid column drops a disc for the player whose turn it is into the
      column's free cell and hands the turn over; on a full column no disc goes in but the
      turn is handed over all the same. */
  lemma ClickPlays(s: Session, c: int)
    requires Accepting(s) && Valid(s.board) && 0 <= c < 7
    ensures var next := Click(s, c); var x := 6 - c; var h := FreeRow(Occupied(s.board), x, 0);
      && next.board.flags == 1 - s.board.flags
      && (h == 6 ==> next.board == PassTurn(s.board))
      && (h < 6 ==> && Occupied(next.board) == Occupied(s.board) + {Bit(x, h)}
                    && (Bit(x, h) in next.board.player1 <==> s.board.flags == 1)
                    && (Bit(x, h) in next.board.player2 <==> s.board.flags == 0))
  {
    var x := 6 - c;
    var h := FreeRow(Occupied(s.board), x, 0);
    if h < 6 {
      var after := PlaceDisc(s.board, x);
      assert Occupied(after) == Occupied(s.board) + {Bit(x, h)};
    }
  }

  /** A click keeps the invariant unless the selected column is negative. */
  lemma ClickKeepsInv(s: Session, c: int)
    requires SessionInv(s) && c >= 0
    ensures SessionInv(Click(s, c))
  {
    if Accepting(s) {
      var placed := PlaceDisc(s.board, 6 - c);
      PlaceDiscValid(s.board, 6 - c);
      PassTurnValid(placed);
      assert Click(s, c).board == PassTurn(placed);
    }
  }

  lemma PassTurnValid(b: Board)
    requires Valid(b)
    ensures Valid(PassTurn(b))
  {
    assert Occupied(PassTurn(b)) == Occupied(b);
  }

  /** A selected column of -1, which the mouse handler records for a mouse above or
      below the grid, sends the first click to board column 7: bit 7, the second row of
      board column 0, is set with nothing beneath it. */
  lemma ClickOffGrid()
    ensures Click(Start(), -1).board.player1 == {7}
    ensures !Valid(Click(Start(), -1).board)
  {
    assert Occupied(Empty()) == {};
    FreeRowIs({}, 7, 0, 0);
    var placed := PlaceDisc(Empty(), 7);
    assert placed.player1 == {7} && placed.player2 == {};
    var b := Click(Start(), -1).board;
    assert b == PassTurn(placed);
    assert Occupied(b) == {7};
    FreeRowIs({7}, 0, 0, 0);
    assert Bit(0, 1) in Occupied(b);
  }

  /** A selected column of 7 or more gives a negative board column: no disc goes in,
      yet the turn passes. */
  lemma ClickRightOfGrid(s: Session, c: int)
    requires Accepting(s) && c >= 7
    ensures Click(s, c).board == PassTurn(s.board)
  {
  }

  /** The click listener as evidently meant: a click outside the seven grid columns does nothing. */
  function ClickOnGrid(s: Session, selectedColumn: int): (next: Session)
    ensures !(0 <= selectedColumn < 7) ==> next == s
    ensures 0 <= selectedColumn < 7 ==> next == Click(s, selectedColumn)
  {
    if 0 <= selectedColumn < 7 then Click(s, selectedColumn) else s
  }

  /** With clicks off the grid ignored, every click keeps the invariant. */
  lemma ClickOnGridKeepsInv(s: Session, c: int)
    requires SessionInv(s)
    ensures SessionInv(ClickOnGrid(s, c))
  {
    if 0 <= c < 7 {
      ClickKeepsInv(s, c);
    }
  }

  /** The message a frame shows. */
  datatype Banner = Playing | Draw | Player1Wins | Player2Wins

  /** One frame's outcome: the next state, the message shown, and the highlighted spot. */
  datatype Frame = Frame(next: Session, banner: Banner, highlight: Option<Spot>)

  /** The decision part of gameLoop: with no winner, a full board is a draw and otherwise
      the selected column is highlighted; a winner of 1 is player 1's win and any other
      winner player 2's. A draw or a win stops the game. */
  function GameLoop(s: Session, selectedColumn: int): (f: Frame)
    ensures f.next.board == s.board && f.next.winner == s.winner
    ensures f.next.running <==> s.running && f.banner == Playing
    ensures f.highlight.Some? ==> f.banner == Playing && f.highlight.value.x == selectedColumn
  {
    if s.winner == 0 then
      if IsFull(s.board) then Frame(s.(running := false), Draw, None)
      else if 0 <= selectedColumn < 7 then Frame(s, Playing, Highlight(s.board, selectedColumn))
      else Frame(s, Playing, None)
    else if s.winner == 1 then Frame(s.(running := false), Player1Wins, None)
    else Frame(s.(running := false), Player2Wins, None)
  }

  /** On a session satisfying the invariant the message tells the truth: player 1 wins
      with a line of four, player 2 with a line of four when player 1 has none, and a
      draw is all 42 cells filled without a line. */
  lemma BannerMeaning(s: Session, c: int)
    requires SessionInv(s)
    ensures var f := GameLoop(s, c); var p1, p2 := s.board.player1, s.board.player2;
      && (f.banner == Player1Wins <==> HasLine(p1))
      && (f.banner == Player2Wins <==> !HasLine(p1) && HasLine(p2))
      && (f.banner == Draw <==> !HasLine(p1) && !HasLine(p2) && |Occupied(s.board)| == 42)
      && (f.banner == Playing <==> !HasLine(p1) && !HasLine(p2) && |Occupied(s.board)| < 42)
  {
    assert s.winner == GetWinner(s.board);
    if s.winner == 0 {
      assert OnBoard(Occupied(s.board));
      IsFullCount(s.board);
    }
  }

  lemma GameLoopKeepsInv(s: Session, c: int)
    requires SessionInv(s)
    ensures SessionInv(GameLoop(s, c).next)
  {
  }

  /** Once a frame has declared a win or a draw, clicks change nothing. */
  lemma FinishedIgnoresClicks(s: Session, c: int, click: int)
    requires GameLoop(s, c).banner != Playing
    ensures Click(GameLoop(s, c).next, click) == GameLoop(s, c).next
  {
  }
}
