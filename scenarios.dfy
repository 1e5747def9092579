/**
  Games played through the controller's contracts alone, and two boards
  evaluated by the rules.
 */
module Scenarios {
  import opened Rules
  import opened Controller

  /** A full board on which X completes the right-hand column is a win, not a draw. */
  lemma FullBoardWithLineIsWin()
    ensures CheckWinner([X, O, X, O, X, X, O, O, X]) == Won(X)
    ensures WinningLine([X, O, X, O, X, X, O, O, X]) == Some(Line(2, 5, 8))
  {
  }

  /** A full board with no completed line is a draw. */
  lemma FullBoardWithoutLineIsDraw()
    ensures CheckWinner([X, O, X, X, O, O, O, X, X]) == Draw
    ensures WinningLine([X, O, X, X, O, O, O, X, X]) == None
  {
  }

  /**
    Against the computer: X@0, O@4, X@1, O@5, X@2 wins for X on the top row,
    and from then on every click and every computer move is refused.
   */
  method PlayAgainstComputer()
  {
    var g := new Game();
    g.SelectMode("ai");
    var accepted, highlighted, aiScheduled := g.HandleCellClick(0);
    assert accepted && aiScheduled && g.currentPlayer == O;
    assert g.gameBoard == [X, Empty, Empty, Empty, Empty, Empty, Empty, Empty, Empty];
    assert EmptyIndices([X, Empty, Empty, Empty, Empty, Empty, Empty, Empty, Empty]) == [1, 2, 3, 4, 5, 6, 7, 8];
    var placed, line := g.MakeAIMove(3);
    assert placed == Some(4);
    assert g.gameBoard == [X, Empty, Empty, Empty, O, Empty, Empty, Empty, Empty];
    assert CheckWinner(g.gameBoard) == Ongoing;
    assert g.gameActive && g.currentPlayer == X;
    SecondRound(g);
  }

  /** The middle of that game: X takes cell 1, the computer's third choice is cell 5. */
  method SecondRound(g: Game)
    requires g.Valid() && g.gameActive && g.currentPlayer == X && g.gameMode == "ai"
    requires g.gameBoard == [X, Empty, Empty, Empty, O, Empty, Empty, Empty, Empty]
    modifies g
  {
    var accepted, highlighted, aiScheduled := g.HandleCellClick(1);
    assert accepted && aiScheduled;
    assert g.gameBoard == [X, X, Empty, Empty, O, Empty, Empty, Empty, Empty];
    assert EmptyIndices([X, X, Empty, Empty, O, Empty, Empty, Empty, Empty]) == [2, 3, 5, 6, 7, 8];
    var placed, line := g.MakeAIMove(2);
    assert placed == Some(5);
    assert g.gameBoard == [X, X, Empty, Empty, O, O, Empty, Empty, Empty];
    assert CheckWinner(g.gameBoard) == Ongoing;
    assert g.gameActive && g.currentPlayer == X;
    CompleteTopRow(g);
  }

  /** The end of that game: X takes cell 2 and wins; the game is then closed until a restart. */
  method CompleteTopRow(g: Game)
    requires g.Valid() && g.gameActive && g.currentPlayer == X && g.gameMode == "ai"
    requires g.gameBoard == [X, X, Empty, Empty, O, O, Empty, Empty, Empty]
    modifies g
  {
    var accepted, highlighted, aiScheduled := g.HandleCellClick(2);
    assert g.gameBoard == [X, X, X, Empty, O, O, Empty, Empty, Empty];
    assert CheckWinner(g.gameBoard) == Won(X);
    assert accepted && highlighted == Some(Line(0, 1, 2)) && !aiScheduled;
    assert !g.gameActive && g.currentPlayer == X;
    accepted, highlighted, aiScheduled := g.HandleCellClick(3);
    assert !accepted;
    var placed, line := g.MakeAIMove(0);
    assert placed == None && g.gameBoard == [X, X, X, Empty, O, O, Empty, Empty, Empty];
    g.InitGame();
    assert g.gameBoard == EmptyBoard && g.gameActive && g.currentPlayer == X && g.gameMode == "ai";
  }

  /**
    Two players: after X's first move the turn passes to O and never returns
    to X, so every later mark is an O. A second click on a taken cell and a
    click off the board are refused without any change.
   */
  method PlayTwoPlayers()
  {
    var g := new Game();
    var accepted, highlighted, aiScheduled := g.HandleCellClick(0);
    assert accepted && !aiScheduled && g.currentPlayer == O;
    assert g.gameBoard == [X, Empty, Empty, Empty, Empty, Empty, Empty, Empty, Empty];
    accepted, highlighted, aiScheduled := g.HandleCellClick(4);
    assert g.gameBoard == [X, Empty, Empty, Empty, O, Empty, Empty, Empty, Empty];
    assert CheckWinner(g.gameBoard) == Ongoing;
    assert accepted && g.gameActive && g.currentPlayer == O;
    accepted, highlighted, aiScheduled := g.HandleCellClick(4);
    assert !accepted;
    accepted, highlighted, aiScheduled := g.HandleCellClick(9);
    assert !accepted;
    accepted, highlighted, aiScheduled := g.HandleCellClick(1);
    assert accepted && g.gameBoard == [X, O, Empty, Empty, O, Empty, Empty, Empty, Empty];
    g.SelectMode("player");
    assert g.gameBoard == EmptyBoard && g.currentPlayer == X && g.gameActive;
  }
}
