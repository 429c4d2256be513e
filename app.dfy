/**
 * The state of the game screen: the board, whose turn it is, the result
 * of the round, the running score and whether moves are accepted, with
 * the operations the view calls (a click on a cell, "Start New Game",
 * "Reset Score") and the step that records a finished round.
 */
module App {
  import opened TicTacToe

  /** Wins per player, the source's `{ X, O }` score object. */
  datatype Score = Score(x: nat, o: nat) {

    function Of(p: Player): nat {
      if p == X then x else o
    }

    /** The score after one more win for `p`: a copy with `p`'s count raised by one. */
    function Bump(p: Player): (s: Score)
      ensures s.Of(p) == Of(p) + 1
      ensures s.Of(Other(p)) == Of(Other(p))
    {
      if p == X then Score(x + 1, o) else Score(x, o + 1)
    }
  }

  /**
   * The fields `winner`, `draw` and `gameActive` record the status `s` of
   * the board: a win names the winner and stops the round, a draw sets the
   * draw flag and stops the round, and an undecided board leaves the round
   * running.
   */
  predicate Records(s: Status, winner: Option<Player>, draw: bool, gameActive: bool) {
    match s
    case Win(p) => winner == Some(p) && !draw && !gameActive
    case Draw => winner == None && draw && !gameActive
    case Pending => winner == None && !draw && gameActive
  }

  class Game {
    var board: Board
    var currentPlayer: Player
    var winner: Option<Player>
    var draw: bool
    var score: Score
    var gameActive: bool

    /**
     * The status fields agree with the board (the status step has run after
     * the last change of the board), and the marks alternate starting with
     * X: there are as many X as O when X is to move, one X more otherwise.
     */
    ghost predicate Valid()
      reads this
    {
      && Records(CheckGameStatus(board), winner, draw, gameActive)
      && CountMark(board, X) == CountMark(board, O) + (if currentPlayer == X then 0 else 1)
    }

    /** The initial values of the state hooks, after which the status step runs on the empty board. */
    constructor ()
      ensures Valid()
      ensures board == CreateEmptyBoard() && currentPlayer == X
      ensures winner == None && !draw && gameActive
      ensures score == Score(0, 0)
    {
      board := CreateEmptyBoard();
      currentPlayer := X;
      winner := None;
      draw := false;
      score := Score(0, 0);
      gameActive := true;
      new;
      EmptyBoardIsPending();
      BoardChanged();
    }

    /** A click on (row, col) passes the guards: the round is running and the cell is empty. */
    predicate Accepts(row: nat, col: nat)
      requires row < 3 && col < 3
      reads this
    {
      gameActive && winner.None? && !draw && board[row][col] == Empty
    }

    /**
     * The status step, run after every change of the board: a win records
     * the winner, stops the round and gives the winner one point; a draw
     * sets the draw flag and stops the round; otherwise nothing changes.
     */
    method BoardChanged()
      modifies this
      ensures board == old(board) && currentPlayer == old(currentPlayer)
      ensures match CheckGameStatus(board)
        case Win(p) =>
          winner == Some(p) && !gameActive && draw == old(draw) && score == old(score).Bump(p)
        case Draw =>
          draw && !gameActive && winner == old(winner) && score == old(score)
        case Pending =>
          winner == old(winner) && draw == old(draw) && gameActive == old(gameActive) && score == old(score)
    {
      var res := CheckGameStatus(board);
      match res {
        case Win(p) =>
          winner := Some(p);
          gameActive := false;
          score := score.Bump(p);
        case Draw =>
          draw := true;
          gameActive := false;
        case Pending =>
      }
    }

    /**
     * A click on a cell. A click while the round is over or on a filled
     * cell changes nothing. Otherwise the cell gets the current player's
     * mark, the turn passes to the other player (also on the move that ends
     * the round), and the status step records a win for the mover, with one
     * point for them, or a draw.
     */
    method HandleCellClick(row: nat, col: nat)
      requires row < 3 && col < 3
      requires Valid()
      modifies this
      ensures Valid()
      ensures !old(Accepts(row, col)) ==> unchanged(this)
      ensures old(Accepts(row, col)) ==>
        && board == Place(old(board), row, col, old(currentPlayer))
        && currentPlayer == Other(old(currentPlayer))
      ensures old(Accepts(row, col)) ==>
        match CheckGameStatus(board)
        case Win(p) =>
          p == old(currentPlayer) && winner == Some(p) && !draw && !gameActive && score == old(score).Bump(p)
        case Draw =>
          winner == None && draw && !gameActive && score == old(score)
        case Pending =>
          winner == None && !draw && gameActive && score == old(score)
      ensures forall r, c | 0 <= r < 3 && 0 <= c < 3 && old(board)[r][c] != Empty :: board[r][c] == old(board)[r][c]
    {
      if !gameActive || winner.Some? || draw {
        return;
      }
      if board[row][col] != Empty {
        return;
      }
      ghost var before := board;
      assert CheckGameStatus(before) == Pending;
      StatusClassifies(before);
      PlaceCounts(board, row, col, currentPlayer);
      WinnerIsMover(board, row, col, currentPlayer);
      board := Place(board, row, col, currentPlayer);
      currentPlayer := Other(currentPlayer);
      BoardChanged();
      assert Records(CheckGameStatus(board), winner, draw, gameActive);
    }

    /** "Start New Game": an empty board, X to move, no result; the score is kept. */
    method StartNewGame()
      modifies this
      ensures Valid()
      ensures board == CreateEmptyBoard() && currentPlayer == X
      ensures winner == None && !draw && gameActive
      ensures score == old(score)
    {
      board := CreateEmptyBoard();
      winner := None;
      draw := false;
      gameActive := true;
      currentPlayer := X;
      EmptyBoardIsPending();
      BoardChanged();
    }

    /** "Reset Score": both scores back to 0, then a new game. */
    method ResetScore()
      modifies this
      ensures Valid()
      ensures board == CreateEmptyBoard() && currentPlayer == X
      ensures winner == None && !draw && gameActive
      ensures score == Score(0, 0)
    {
      score := Score(0, 0);
      StartNewGame();
    }
  }

  /**
   * The last move of a round: X to move on a board where X holds two cells
   * of the top row. The click wins the round for X, gives X one point and,
   * as in the code, still passes the turn to O.
   */
  method TopRowWinRound(g: Game)
    requires g.Valid()
    requires g.board == [[X, X, Empty], [Empty, O, Empty], [Empty, Empty, O]] && g.currentPlayer == X
    modifies g
    ensures g.winner.Some? && g.winner.value == X && !g.gameActive && !g.draw
    ensures g.score == old(g.score).Bump(X) && g.currentPlayer == O
    ensures GetWinningCells(g.board) == Row(0)
  {
    RowWinLastMove();
    RowWinExample();
    g.HandleCellClick(0, 2);
  }
}
