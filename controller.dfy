/**
  The game controller of script.js: the four closure variables become the
  fields of `Game`, and the event handlers become its methods. The clicked
  cell's `data-index` is an `int` parameter, and the value `Math.random`
  supplies to the computer's move is the parameter `k`.
 */
module Controller {
  import opened Rules

  class Game {
    var currentPlayer: Player
    var gameBoard: Board
    var gameActive: bool
    /** The `data-mode` of the last mode button pressed; only the value "ai" changes behaviour. */
    var gameMode: string

    /**
      A game accepting moves has no result yet; in particular an active game
      always has an empty cell.
     */
    ghost predicate Valid()
      reads this
    {
      gameActive ==> CheckWinner(gameBoard) == Ongoing
    }

    /** The state right after the page loads: the initial values, then `initGame()`. */
    constructor ()
      ensures Valid()
      ensures gameBoard == EmptyBoard && gameActive && currentPlayer == X
      ensures gameMode == "player"
    {
      currentPlayer := X;
      gameBoard := EmptyBoard;
      gameActive := true;
      gameMode := "player";
      new;
      InitGame();
    }

    /** `initGame`: a fresh board, X to move, whatever the state before. */
    method InitGame()
      modifies this
      ensures Valid()
      ensures gameBoard == EmptyBoard && gameActive && currentPlayer == X
      ensures gameMode == old(gameMode)
    {
      gameBoard := EmptyBoard;
      gameActive := true;
      currentPlayer := X;
      EmptyBoardIsOngoing();
    }

    /** The mode button handler: record the mode, then restart. */
    method SelectMode(mode: string)
      modifies this
      ensures Valid()
      ensures gameBoard == EmptyBoard && gameActive && currentPlayer == X
      ensures gameMode == mode
    {
      gameMode := mode;
      InitGame();
    }

    /** `makeMove`: the current player's mark goes into cell `index`; nothing else changes. */
    method MakeMove(index: Index)
      modifies this`gameBoard
      ensures gameBoard == old(gameBoard)[index := currentPlayer]
    {
      var mark: Cell := currentPlayer;
      gameBoard := gameBoard[index := mark];
    }

    /**
      `handleCellClick` on cell `index`. A click is accepted only while the
      game is active and on an empty cell; an index off the board reads as
      `undefined` and is refused like an occupied cell. After an accepted move
      a result ends the game (the mover stays current and the winning line is
      highlighted); otherwise the turn passes to O, whoever moved, and the
      computer's move is scheduled in "ai" mode.
     */
    method HandleCellClick(index: int) returns (accepted: bool, highlighted: Option<Line>, aiScheduled: bool)
      requires Valid()
      modifies this
      ensures Valid()
      ensures gameMode == old(gameMode)
      ensures accepted <==> old(gameActive) && 0 <= index < 9 && old(gameBoard)[index] == Empty
      ensures !accepted ==> gameBoard == old(gameBoard) && gameActive == old(gameActive) &&
                            currentPlayer == old(currentPlayer) && highlighted == None && !aiScheduled
      ensures accepted ==> gameBoard == old(gameBoard)[index := old(currentPlayer)]
      ensures accepted ==> highlighted == WinningLine(gameBoard)
      ensures accepted && CheckWinner(gameBoard) != Ongoing ==>
                !gameActive && currentPlayer == old(currentPlayer) && !aiScheduled
      ensures accepted && CheckWinner(gameBoard) == Ongoing ==>
                gameActive && currentPlayer == O && aiScheduled == (gameMode == "ai")
    {
      accepted, highlighted, aiScheduled := false, None, false;
      var content: Option<Cell> := if 0 <= index < 9 then Some(gameBoard[index]) else None;
      if content != Some(Empty) || !gameActive {
        return;
      }
      accepted := true;
      MakeMove(index);
      var winner := CheckWinner(gameBoard);
      if winner != Ongoing {
        if winner.Won? {
          highlighted := HighlightWinningCells(gameBoard, winner.mark);
          HighlightMatchesWinner(gameBoard);
        }
        gameActive := false;
        return;
      }
      currentPlayer := if currentPlayer == X then O else O;
      if gameMode == "ai" && currentPlayer == O && gameActive {
        aiScheduled := true;
      }
    }

    /**
      `makeAIMove` with `Math.random` replaced by the choice `k` among the
      empty cells. Inactive: nothing happens. Otherwise the current player's
      mark goes into the `k`-th empty cell in ascending order; a result ends
      the game, and otherwise X is to move.
     */
    method MakeAIMove(k: nat) returns (placed: Option<Index>, highlighted: Option<Line>)
      requires Valid()
      requires gameActive ==> k < |EmptyIndices(gameBoard)|
      modifies this
      ensures Valid()
      ensures !old(gameActive) ==> unchanged(this) && placed == None && highlighted == None
      ensures old(gameActive) ==> placed == Some(EmptyIndices(old(gameBoard))[k]) &&
                                  old(gameBoard)[placed.value] == Empty &&
                                  gameBoard == old(gameBoard)[placed.value := old(currentPlayer)] &&
                                  highlighted == WinningLine(gameBoard) &&
                                  gameMode == old(gameMode)
      ensures old(gameActive) && CheckWinner(gameBoard) != Ongoing ==>
                !gameActive && currentPlayer == old(currentPlayer)
      ensures old(gameActive) && CheckWinner(gameBoard) == Ongoing ==>
                gameActive && currentPlayer == X
    {
      placed, highlighted := None, None;
      if !gameActive {
        return;
      }
      var emptyCells := CollectEmptyCells(gameBoard);
      if |emptyCells| > 0 {
        var cellIndex := emptyCells[k];
        EmptyIndicesExact(gameBoard);
        assert gameBoard[cellIndex] == Empty;
        placed := Some(cellIndex);
        MakeMove(cellIndex);
        var winner := CheckWinner(gameBoard);
        if winner != Ongoing {
          if winner.Won? {
            highlighted := HighlightWinningCells(gameBoard, winner.mark);
            HighlightMatchesWinner(gameBoard);
          }
          gameActive := false;
          assert CheckWinner(gameBoard) != Ongoing;
          return;
        }
        currentPlayer := X;
        assert gameActive && CheckWinner(gameBoard) == Ongoing;
      } else {
        assert false;
      }
    }
  }

  /** The `forEach` of `makeAIMove` that pushes the index of every empty cell. */
  method CollectEmptyCells(b: Board) returns (emptyCells: seq<Index>)
    ensures emptyCells == EmptyIndices(b)
  {
    emptyCells := [];
    for i := 0 to 9
      invariant emptyCells == EmptyIndicesBelow(b, i)
    {
      if b[i] == Empty {
        emptyCells := emptyCells + [i];
      }
    }
  }
}
