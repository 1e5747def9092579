/**
  The rules of the 3x3 game, free of any state: the cells, the eight winning
  lines, the outcome evaluator (`checkWinner` in script.js), the line search
  used to highlight a win (`highlightWinningCells`) and the list of empty
  cells from which the computer picks its move (`makeAIMove`).
 */
module Rules {

  datatype Option<T> = None | Some(value: T)

  /** A cell holds '' (Empty), 'X' or 'O'. */
  datatype Cell = Empty | X | O

  /** A mark a player puts down: 'X' or 'O', never ''. */
  type Player = c: Cell | c != Empty witness X

  /** A position on the board, row-major. */
  type Index = i: int | 0 <= i < 9

  /** The board always has exactly nine cells. */
  type Board = b: seq<Cell> | |b| == 9
    witness [Empty, Empty, Empty, Empty, Empty, Empty, Empty, Empty, Empty]

  /** One of the eight winning index triples `[a, b, c]`. */
  datatype Line = Line(a: Index, b: Index, c: Index)

  /** What `checkWinner` returns: the mark of a completed line, 'draw', or null. */
  datatype Outcome = Won(mark: Player) | Draw | Ongoing

  const EmptyBoard: Board := [Empty, Empty, Empty, Empty, Empty, Empty, Empty, Empty, Empty]

  /** Rows, then columns, then diagonals; the order in which lines are tried. */
  const WinCombinations: seq<Line> := [
    Line(0, 1, 2), Line(3, 4, 5), Line(6, 7, 8),
    Line(0, 3, 6), Line(1, 4, 7), Line(2, 5, 8),
    Line(0, 4, 8), Line(2, 4, 6)
  ]

  /** The test inside `checkWinner`'s loop: the first cell is non-empty and the other two equal it. */
  predicate Completes(b: Board, l: Line) {
    b[l.a] != Empty && b[l.a] == b[l.b] && b[l.a] == b[l.c]
  }

  /** The test inside `highlightWinningCells`'s loop: all three cells hold `p`. */
  predicate FilledBy(b: Board, l: Line, p: Cell) {
    b[l.a] == p && b[l.b] == p && b[l.c] == p
  }

  /** The position, from `from` on, of the first line that `b` completes. */
  function FirstCompleted(b: Board, from: nat): Option<nat>
    requires from <= |WinCombinations|
    decreases |WinCombinations| - from
  {
    if from == |WinCombinations| then None
    else if Completes(b, WinCombinations[from]) then Some(from)
    else FirstCompleted(b, from + 1)
  }

  /** The line `checkWinner` stops at, if any. */
  function WinningLine(b: Board): Option<Line> {
    match FirstCompleted(b, 0)
    case None => None
    case Some(k) => Some(WinCombinations[k])
  }

  /** `checkWinner`: the mark on the line it stops at; otherwise 'draw' if no cell is empty; otherwise null. */
  function CheckWinner(b: Board): Outcome {
    match WinningLine(b)
    case Some(l) => Won(b[l.a])
    case None => if Empty !in b then Draw else Ongoing
  }

  /** The search stops at the first completed line from `from` on, or finds none. */
  lemma {:induction false} FirstCompletedIsFirst(b: Board, from: nat)
    requires from <= |WinCombinations|
    ensures FirstCompleted(b, from).Some? ==>
              from <= FirstCompleted(b, from).value < |WinCombinations| &&
              Completes(b, WinCombinations[FirstCompleted(b, from).value]) &&
              forall j :: from <= j < FirstCompleted(b, from).value ==> !Completes(b, WinCombinations[j])
    ensures FirstCompleted(b, from).None? ==>
              forall j :: from <= j < |WinCombinations| ==> !Completes(b, WinCombinations[j])
    decreases |WinCombinations| - from
  {
    if from < |WinCombinations| && !Completes(b, WinCombinations[from]) {
      FirstCompletedIsFirst(b, from + 1);
    }
  }

  /** The line `checkWinner` reports is the first completed one in the order rows, columns, diagonals. */
  lemma WinningLineIsFirst(b: Board)
    ensures WinningLine(b).Some? <==>
              exists k :: 0 <= k < |WinCombinations| && Completes(b, WinCombinations[k])
    ensures WinningLine(b).Some? ==>
              exists k :: 0 <= k < |WinCombinations| && WinningLine(b).value == WinCombinations[k] &&
                          Completes(b, WinCombinations[k]) &&
                          forall j :: 0 <= j < k ==> !Completes(b, WinCombinations[j])
  {
    FirstCompletedIsFirst(b, 0);
  }

  /**
    What `checkWinner` returns: the mark on the first completed line; failing
    that, a draw exactly when no cell is empty; failing that, no result. A
    full board that completes a line is a win.
   */
  lemma CheckWinnerOutcome(b: Board)
    ensures CheckWinner(b).Won? <==>
              exists k :: 0 <= k < |WinCombinations| && Completes(b, WinCombinations[k])
    ensures CheckWinner(b).Won? ==>
              exists k :: 0 <= k < |WinCombinations| && Completes(b, WinCombinations[k]) &&
                          CheckWinner(b).mark == b[WinCombinations[k].a] &&
                          forall j :: 0 <= j < k ==> !Completes(b, WinCombinations[j])
    ensures CheckWinner(b) == Draw <==>
              (forall k :: 0 <= k < |WinCombinations| ==> !Completes(b, WinCombinations[k])) && Empty !in b
    ensures CheckWinner(b) == Ongoing <==>
              (forall k :: 0 <= k < |WinCombinations| ==> !Completes(b, WinCombinations[k])) && Empty in b
  {
    WinningLineIsFirst(b);
  }

  /** The position, from `from` on, of the first line all of whose cells hold `winner`. */
  function FirstFilledBy(b: Board, winner: Player, from: nat): Option<nat>
    requires from <= |WinCombinations|
    decreases |WinCombinations| - from
  {
    if from == |WinCombinations| then None
    else if FilledBy(b, WinCombinations[from], winner) then Some(from)
    else FirstFilledBy(b, winner, from + 1)
  }

  /** The line `highlightWinningCells(winner)` marks, if any. */
  function HighlightWinningCells(b: Board, winner: Player): Option<Line> {
    match FirstFilledBy(b, winner, 0)
    case None => None
    case Some(k) => Some(WinCombinations[k])
  }

  /** The highlight search stops at the first line filled by `winner` from `from` on, or finds none. */
  lemma {:induction false} FirstFilledByIsFirst(b: Board, winner: Player, from: nat)
    requires from <= |WinCombinations|
    ensures FirstFilledBy(b, winner, from).Some? ==>
              from <= FirstFilledBy(b, winner, from).value < |WinCombinations| &&
              FilledBy(b, WinCombinations[FirstFilledBy(b, winner, from).value], winner) &&
              forall j :: from <= j < FirstFilledBy(b, winner, from).value ==>
                            !FilledBy(b, WinCombinations[j], winner)
    ensures FirstFilledBy(b, winner, from).None? ==>
              forall j :: from <= j < |WinCombinations| ==> !FilledBy(b, WinCombinations[j], winner)
    decreases |WinCombinations| - from
  {
    if from < |WinCombinations| && !FilledBy(b, WinCombinations[from], winner) {
      FirstFilledByIsFirst(b, winner, from + 1);
    }
  }

  /** The highlighted line is the first, in the order rows, columns, diagonals, whose three cells all hold `winner`. */
  lemma HighlightIsFirst(b: Board, winner: Player)
    ensures HighlightWinningCells(b, winner).Some? <==>
              exists k :: 0 <= k < |WinCombinations| && FilledBy(b, WinCombinations[k], winner)
    ensures HighlightWinningCells(b, winner).Some? ==>
              exists k :: 0 <= k < |WinCombinations| && HighlightWinningCells(b, winner).value == WinCombinations[k] &&
                          FilledBy(b, WinCombinations[k], winner) &&
                          forall j :: 0 <= j < k ==> !FilledBy(b, WinCombinations[j], winner)
  {
    FirstFilledByIsFirst(b, winner, 0);
  }

  /** From any starting line, both searches stop at the same line once it holds `winner`. */
  lemma {:induction false} HighlightFromAgrees(b: Board, winner: Player, from: nat)
    requires from <= |WinCombinations|
    requires FirstCompleted(b, from).Some?
    requires b[WinCombinations[FirstCompleted(b, from).value].a] == winner
    ensures FirstFilledBy(b, winner, from) == FirstCompleted(b, from)
    decreases |WinCombinations| - from
  {
    if !Completes(b, WinCombinations[from]) {
      HighlightFromAgrees(b, winner, from + 1);
    }
  }

  /** `highlightWinningCells(winner)` marks the very line `checkWinner` matched. */
  lemma HighlightMatchesWinner(b: Board)
    requires CheckWinner(b).Won?
    ensures HighlightWinningCells(b, CheckWinner(b).mark) == WinningLine(b)
    ensures WinningLine(b).Some?
  {
    HighlightFromAgrees(b, CheckWinner(b).mark, 0);
  }

  /** The indices below `n` of the empty cells, in ascending order: the first `n` steps of the `forEach` that fills `emptyCells`. */
  function EmptyIndicesBelow(b: Board, n: nat): seq<Index>
    requires n <= 9
  {
    if n == 0 then []
    else EmptyIndicesBelow(b, n - 1) + (if b[n - 1] == Empty then [n - 1] else [])
  }

  /** `emptyCells` once the `forEach` is done. */
  function EmptyIndices(b: Board): seq<Index> {
    EmptyIndicesBelow(b, 9)
  }

  /** After `n` steps the list holds, ascending, exactly the empty positions below `n`. */
  lemma {:induction false} EmptyIndicesBelowExact(b: Board, n: nat)
    requires n <= 9
    ensures forall j :: 0 <= j < |EmptyIndicesBelow(b, n)| ==>
              EmptyIndicesBelow(b, n)[j] < n && b[EmptyIndicesBelow(b, n)[j]] == Empty
    ensures forall j, j' :: 0 <= j < j' < |EmptyIndicesBelow(b, n)| ==>
              EmptyIndicesBelow(b, n)[j] < EmptyIndicesBelow(b, n)[j']
    ensures forall i :: 0 <= i < n && b[i] == Empty ==> i in EmptyIndicesBelow(b, n)
  {
    if n > 0 {
      EmptyIndicesBelowExact(b, n - 1);
    }
  }

  /** `emptyCells` holds exactly the empty positions of the board, in ascending order. */
  lemma EmptyIndicesExact(b: Board)
    ensures forall j :: 0 <= j < |EmptyIndices(b)| ==> b[EmptyIndices(b)[j]] == Empty
    ensures forall j, j' :: 0 <= j < j' < |EmptyIndices(b)| ==> EmptyIndices(b)[j] < EmptyIndices(b)[j']
    ensures forall i :: 0 <= i < 9 && b[i] == Empty ==> i in EmptyIndices(b)
  {
    EmptyIndicesBelowExact(b, 9);
  }

  /** The fresh board has no result yet. */
  lemma EmptyBoardIsOngoing()
    ensures CheckWinner(EmptyBoard) == Ongoing
  {
    assert forall i :: 0 <= i < 9 ==> EmptyBoard[i] == Empty;
  }

  /** A board on which the game may still go on has a cell left for the computer to take. */
  lemma OngoingHasEmptyCell(b: Board)
    requires CheckWinner(b) == Ongoing
    ensures |EmptyIndices(b)| > 0
  {
    CheckWinnerOutcome(b);
    EmptyIndicesExact(b);
    var i :| 0 <= i < 9 && b[i] == Empty;
    assert i in EmptyIndices(b);
  }

  /** The board with the cells of line number `k` holding `p` and every other cell empty. */
  function LoneLine(k: nat, p: Player): (b: Board)
    requires k < |WinCombinations|
  {
    var l := WinCombinations[k];
    seq(9, i => if i == l.a || i == l.b || i == l.c then p else Empty)
  }

  /** Filling one line and nothing else is reported as a win on that line and no other. */
  lemma LoneLineIsReported(k: nat, p: Player)
    requires k < |WinCombinations|
    ensures CheckWinner(LoneLine(k, p)) == Won(p)
    ensures WinningLine(LoneLine(k, p)) == Some(WinCombinations[k])
  {
    var b := LoneLine(k, p);
    forall j | 0 <= j < |WinCombinations| && j != k
      ensures !Completes(b, WinCombinations[j])
    {
      var l := WinCombinations[j];
      assert b[l.a] == Empty || b[l.b] == Empty || b[l.c] == Empty;
    }
    assert Completes(b, WinCombinations[k]);
    CheckWinnerOutcome(b);
    WinningLineIsFirst(b);
  }
}
