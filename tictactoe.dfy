/**
 * The pure board analysis of the tic-tac-toe engine: the 3x3 board, the
 * status check that names a winner or a draw, and the lookup of the
 * winning line that the view highlights.
 */
module TicTacToe {

  /** The content of a cell; the source stores `null`, `'X'` or `'O'`. */
  datatype Mark = Empty | X | O

  /** A player is a mark that is not empty. */
  type Player = m: Mark | m != Empty witness X

  datatype Option<T> = None | Some(value: T)

  /** The player who moves after `p`: O after X, X after O. */
  function Other(p: Player): (q: Player)
    ensures q != p
  {
    if p == X then O else X
  }

  predicate IsGrid(g: seq<seq<Mark>>) {
    |g| == 3 && forall r | 0 <= r < 3 :: |g[r]| == 3
  }

  /** A board is three rows of three cells. */
  type Board = g: seq<seq<Mark>> | IsGrid(g)
    witness [[Empty, Empty, Empty], [Empty, Empty, Empty], [Empty, Empty, Empty]]

  /** `createEmptyBoard`: three fresh rows of three empty cells. */
  function CreateEmptyBoard(): (b: Board)
    ensures |b| == 3 && forall r | 0 <= r < 3 :: |b[r]| == 3
    ensures forall r, c | 0 <= r < 3 && 0 <= c < 3 :: b[r][c] == Empty
  {
    seq(3, _ => seq(3, _ => Empty))
  }

  /** The board after a move: every cell is copied except the one at (row, col). */
  function Place(b: Board, row: nat, col: nat, m: Mark): (r: Board)
    requires row < 3 && col < 3
    ensures r[row][col] == m
    ensures forall i, j | 0 <= i < 3 && 0 <= j < 3 && (i != row || j != col) :: r[i][j] == b[i][j]
  {
    seq(3, i requires 0 <= i < 3 => seq(3, j requires 0 <= j < 3 =>
      if i == row && j == col then m else b[i][j]))
  }

  /** True when every cell of every row holds a mark. */
  predicate Full(b: Board) {
    forall r, c | 0 <= r < 3 && 0 <= c < 3 :: b[r][c] != Empty
  }

  /** How many cells of `b` hold `m`. */
  function CountMark(b: Board, m: Mark): nat {
    multiset(b[0])[m] + multiset(b[1])[m] + multiset(b[2])[m]
  }

  // ---------------------------------------------------------------------
  // Lines

  datatype Coord = Coord(row: nat, col: nat)

  /** A line is the list of the three (row, column) coordinates the view highlights. */
  type Line = seq<Coord>

  function Row(i: nat): Line {
    [Coord(i, 0), Coord(i, 1), Coord(i, 2)]
  }

  function Column(i: nat): Line {
    [Coord(0, i), Coord(1, i), Coord(2, i)]
  }

  const MainDiagonal: Line := [Coord(0, 0), Coord(1, 1), Coord(2, 2)]
  const AntiDiagonal: Line := [Coord(0, 2), Coord(1, 1), Coord(2, 0)]

  /**
   * The eight lines in the order the source tests them: the loop checks
   * row i and then column i for i = 0, 1, 2, and only then the main and
   * the anti-diagonal.
   */
  const ScanOrder: seq<Line> :=
    [Row(0), Column(0), Row(1), Column(1), Row(2), Column(2), MainDiagonal, AntiDiagonal]

  predicate OnBoard(p: Coord) {
    p.row < 3 && p.col < 3
  }

  function At(b: Board, p: Coord): Mark
    requires OnBoard(p)
  {
    b[p.row][p.col]
  }

  /** The test applied to each line: the first mark is not empty and all three are equal. */
  predicate SameNonEmpty(a: Mark, b: Mark, c: Mark) {
    a != Empty && a == b && b == c
  }

  /** Three cells of the board in a line that hold the same non-empty mark. */
  predicate Complete(b: Board, line: Line) {
    && |line| == 3
    && OnBoard(line[0]) && OnBoard(line[1]) && OnBoard(line[2])
    && SameNonEmpty(At(b, line[0]), At(b, line[1]), At(b, line[2]))
  }

  /** Some row, column or diagonal of `b` is complete. */
  predicate HasWinningLine(b: Board) {
    exists k | 0 <= k < |ScanOrder| :: Complete(b, ScanOrder[k])
  }

  /** The index of the first complete line of `lines`, if there is one. */
  function FirstComplete(b: Board, lines: seq<Line>): (r: Option<nat>)
    ensures r.None? <==> forall k | 0 <= k < |lines| :: !Complete(b, lines[k])
    ensures r.Some? ==> r.value < |lines| && Complete(b, lines[r.value])
    ensures r.Some? ==> forall k | 0 <= k < r.value :: !Complete(b, lines[k])
    decreases |lines|
  {
    if |lines| == 0 then None
    else if Complete(b, lines[0]) then Some(0)
    else match FirstComplete(b, lines[1..])
      case None => None
      case Some(k) => Some(k + 1)
  }

  // ---------------------------------------------------------------------
  // checkGameStatus and getWinningCells

  /** The result of `checkGameStatus`: `'X'` or `'O'`, `'draw'`, or `null`. */
  datatype Status = Win(winner: Player) | Draw | Pending

  /**
   * The win checks of `checkGameStatus` from loop index `i` on: row i, then
   * column i, then the following iterations, and after the loop the main
   * diagonal and the anti-diagonal. The mark of the first complete line.
   */
  function ScanStatus(b: Board, i: nat): (r: Option<Mark>)
    requires i <= 3
    ensures r.Some? ==> r.value != Empty
    decreases 3 - i
  {
    if i < 3 then
      if SameNonEmpty(b[i][0], b[i][1], b[i][2]) then Some(b[i][0])
      else if SameNonEmpty(b[0][i], b[1][i], b[2][i]) then Some(b[0][i])
      else ScanStatus(b, i + 1)
    else if SameNonEmpty(b[0][0], b[1][1], b[2][2]) then Some(b[0][0])
    else if SameNonEmpty(b[0][2], b[1][1], b[2][0]) then Some(b[0][2])
    else None
  }

  /**
   * The same scan in `getWinningCells`, from loop index `i` on, returning
   * the coordinates of the first complete line, or `[]`.
   */
  function ScanCells(b: Board, i: nat): (r: Line)
    requires i <= 3
    ensures r != [] ==> Complete(b, r)
    decreases 3 - i
  {
    if i < 3 then
      if SameNonEmpty(b[i][0], b[i][1], b[i][2]) then [Coord(i, 0), Coord(i, 1), Coord(i, 2)]
      else if SameNonEmpty(b[0][i], b[1][i], b[2][i]) then [Coord(0, i), Coord(1, i), Coord(2, i)]
      else ScanCells(b, i + 1)
    else if SameNonEmpty(b[0][0], b[1][1], b[2][2]) then [Coord(0, 0), Coord(1, 1), Coord(2, 2)]
    else if SameNonEmpty(b[0][2], b[1][1], b[2][0]) then [Coord(0, 2), Coord(1, 1), Coord(2, 0)]
    else []
  }

  /** The mark on the first complete line of `lines`, or `None`. */
  function FirstMark(b: Board, lines: seq<Line>): Option<Mark> {
    match FirstComplete(b, lines)
    case None => None
    case Some(k) => Some(At(b, lines[k][0]))
  }

  /** The first complete line of `lines`, or `[]`. */
  function FirstLine(b: Board, lines: seq<Line>): Line {
    match FirstComplete(b, lines)
    case None => []
    case Some(k) => lines[k]
  }

  /**
   * Both scans, started at loop index `i`, find the first complete line of
   * the remaining scan order `ScanOrder[2 * i..]`: `ScanStatus` returns its
   * mark and `ScanCells` its coordinates.
   */
  lemma {:induction false} ScanFindsFirstLine(b: Board, i: nat)
    requires i <= 3
    ensures ScanStatus(b, i) == FirstMark(b, ScanOrder[2 * i..])
    ensures ScanCells(b, i) == FirstLine(b, ScanOrder[2 * i..])
    decreases 3 - i
  {
    if i < 3 {
      ScanFindsFirstLine(b, i + 1);
      ScanStep(b, i);
    } else {
      ScanDiagonals(b);
    }
  }

  /** One iteration of the loop: row i, then column i, then the rest of the scan. */
  lemma ScanStep(b: Board, i: nat)
    requires i < 3
    requires ScanStatus(b, i + 1) == FirstMark(b, ScanOrder[2 * (i + 1)..])
    requires ScanCells(b, i + 1) == FirstLine(b, ScanOrder[2 * (i + 1)..])
    ensures ScanStatus(b, i) == FirstMark(b, ScanOrder[2 * i..])
    ensures ScanCells(b, i) == FirstLine(b, ScanOrder[2 * i..])
  {
    var lines := ScanOrder[2 * i..];
    ScanOrderPairs(i);
    assert lines[0] == Row(i) && lines[1] == Column(i);
    assert lines[2..] == ScanOrder[2 * (i + 1)..];
    FirstOfPair(b, lines);
  }

  /** The code after the loop: the main diagonal, then the anti-diagonal. */
  lemma ScanDiagonals(b: Board)
    ensures ScanStatus(b, 3) == FirstMark(b, ScanOrder[6..])
    ensures ScanCells(b, 3) == FirstLine(b, ScanOrder[6..])
  {
    var lines := ScanOrder[6..];
    assert lines == [MainDiagonal, AntiDiagonal];
    FirstOfPair(b, lines);
    assert lines[2..] == [];
  }

  /** Iteration `i` of the loop tests entries `2 * i` and `2 * i + 1` of the scan order. */
  lemma ScanOrderPairs(i: nat)
    requires i < 3
    ensures ScanOrder[2 * i] == Row(i) && ScanOrder[2 * i + 1] == Column(i)
  {
    if i == 0 {
    } else if i == 1 {
    } else {
    }
  }

  /** Unfolds `FirstMark` and `FirstLine` over the first two lines of a list. */
  lemma FirstOfPair(b: Board, lines: seq<Line>)
    requires |lines| >= 2
    ensures FirstMark(b, lines) ==
      if Complete(b, lines[0]) then Some(At(b, lines[0][0]))
      else if Complete(b, lines[1]) then Some(At(b, lines[1][0]))
      else FirstMark(b, lines[2..])
    ensures FirstLine(b, lines) ==
      if Complete(b, lines[0]) then lines[0]
      else if Complete(b, lines[1]) then lines[1]
      else FirstLine(b, lines[2..])
  {
    assert lines[1..][0] == lines[1];
    assert lines[1..][1..] == lines[2..];
    if !Complete(b, lines[0]) && !Complete(b, lines[1]) {
      match FirstComplete(b, lines[2..])
      case None =>
      case Some(k) => assert lines[k + 2] == lines[2..][k];
    }
  }

  /**
   * `checkGameStatus`: the mark of the first complete line in scan order;
   * otherwise a draw when every cell is filled, and no result (`null`)
   * when some cell is still empty.
   */
  function CheckGameStatus(b: Board): (r: Status)
    ensures match FirstComplete(b, ScanOrder)
      case Some(k) => r == Win(At(b, ScanOrder[k][0]))
      case None => r == (if Full(b) then Draw else Pending)
  {
    ScanFindsFirstLine(b, 0);
    match ScanStatus(b, 0)
    case Some(p) => Win(p)
    case None => if Full(b) then Draw else Pending
  }

  /**
   * `getWinningCells`: the coordinates of the first complete line in scan
   * order, or `[]` when no line is complete.
   */
  function GetWinningCells(b: Board): (cells: Line)
    ensures match FirstComplete(b, ScanOrder)
      case Some(k) => cells == ScanOrder[k]
      case None => cells == []
  {
    ScanFindsFirstLine(b, 0);
    ScanCells(b, 0)
  }

  // ---------------------------------------------------------------------
  // Properties of the analysis

  /**
   * `checkGameStatus` names a winner exactly when some line is complete,
   * and then a player whose mark fills a complete line; it reports a draw
   * exactly when no line is complete and every cell is filled, and nothing
   * when no line is complete and some cell is empty.
   */
  lemma StatusClassifies(b: Board)
    ensures CheckGameStatus(b).Win? <==> HasWinningLine(b)
    ensures CheckGameStatus(b).Win? ==>
      exists k | 0 <= k < |ScanOrder| :: Complete(b, ScanOrder[k]) && At(b, ScanOrder[k][0]) == CheckGameStatus(b).winner
    ensures CheckGameStatus(b) == Draw <==> !HasWinningLine(b) && Full(b)
    ensures CheckGameStatus(b) == Pending <==> !HasWinningLine(b) && !Full(b)
  {
  }

  /**
   * The two scans agree: there are winning cells exactly when the status
   * is a win, and they are the first complete line in scan order, whose
   * three cells all hold the winner's mark.
   */
  lemma StatusAgreesWithCells(b: Board)
    ensures CheckGameStatus(b).Win? <==> GetWinningCells(b) != []
    ensures CheckGameStatus(b).Win? ==>
      && |GetWinningCells(b)| == 3
      && forall j | 0 <= j < 3 :: OnBoard(GetWinningCells(b)[j]) && At(b, GetWinningCells(b)[j]) == CheckGameStatus(b).winner
    ensures CheckGameStatus(b).Win? ==>
      exists k | 0 <= k < |ScanOrder| :: GetWinningCells(b) == ScanOrder[k] && Complete(b, ScanOrder[k])
        && forall j | 0 <= j < k :: !Complete(b, ScanOrder[j])
  {
    var r := FirstComplete(b, ScanOrder);
    if r.Some? {
      assert GetWinningCells(b) == ScanOrder[r.value];
    }
  }

  /** The win checks run before the draw check: a full board with a complete line is a win, never a draw. */
  lemma WinTakesPrecedence(b: Board)
    requires Full(b) && HasWinningLine(b)
    ensures CheckGameStatus(b).Win? && CheckGameStatus(b) != Draw
  {
  }

  /** The board a new game starts from: no result yet, nothing to highlight, no marks. */
  lemma EmptyBoardIsPending()
    ensures CheckGameStatus(CreateEmptyBoard()) == Pending
    ensures GetWinningCells(CreateEmptyBoard()) == []
    ensures CountMark(CreateEmptyBoard(), X) == 0 && CountMark(CreateEmptyBoard(), O) == 0
  {
    var b := CreateEmptyBoard();
    assert b[0] == b[1] == b[2] == [Empty, Empty, Empty];
    assert !Full(b) by { assert b[0][0] == Empty; }
  }

  /** Placing `p` on an empty cell adds one `p` and leaves the other player's marks as they were. */
  lemma PlaceCounts(b: Board, row: nat, col: nat, p: Player)
    requires row < 3 && col < 3 && b[row][col] == Empty
    ensures CountMark(Place(b, row, col, p), p) == CountMark(b, p) + 1
    ensures CountMark(Place(b, row, col, p), Other(p)) == CountMark(b, Other(p))
  {
    var b' := Place(b, row, col, p);
    assert b'[row] == b[row][col := p];
    RowUpdateCounts(b[row], col, p);
    forall i | 0 <= i < 3 && i != row
      ensures multiset(b'[i]) == multiset(b[i])
    {
      assert b'[i] == b[i];
    }
  }

  /** Writing `p` into an empty cell of a row adds one `p` and no other mark. */
  lemma RowUpdateCounts(s: seq<Mark>, col: nat, p: Player)
    requires col < |s| && s[col] == Empty
    ensures multiset(s[col := p])[p] == multiset(s)[p] + 1
    ensures multiset(s[col := p])[Other(p)] == multiset(s)[Other(p)]
  {
    assert multiset(s[col := p]) == multiset(s) - multiset{Empty} + multiset{p};
  }

  /**
   * A move on a board without a complete line can only complete lines
   * through the cell just played, so the winner it produces is the player
   * who moved.
   */
  lemma WinnerIsMover(b: Board, row: nat, col: nat, p: Player)
    requires row < 3 && col < 3 && b[row][col] == Empty
    requires !HasWinningLine(b)
    ensures CheckGameStatus(Place(b, row, col, p)).Win? ==> CheckGameStatus(Place(b, row, col, p)).winner == p
  {
    var b' := Place(b, row, col, p);
    if CheckGameStatus(b').Win? {
      var k := FirstComplete(b', ScanOrder).value;
      var line := ScanOrder[k];
      assert Complete(b', line) && !Complete(b, line);
      assert exists j | 0 <= j < 3 :: line[j] == Coord(row, col);
      var j :| 0 <= j < 3 && line[j] == Coord(row, col);
      assert At(b', line[j]) == p;
    }
  }

  /**
   * The loop interleaves rows and columns: on a board where column 0 and
   * row 1 are both complete, column 0 is reported, because it is tested
   * in the first iteration and row 1 only in the second.
   */
  lemma ColumnZeroBeforeRowOne()
    ensures var b: Board := [[X, O, O], [X, X, X], [X, O, O]];
      CheckGameStatus(b) == Win(X) && GetWinningCells(b) == Column(0)
  {
    var b: Board := [[X, O, O], [X, X, X], [X, O, O]];
    assert Complete(b, Column(0)) && !Complete(b, Row(0));
    assert FirstComplete(b, ScanOrder) == Some(1);
  }

  /**
   * X plays (0, 0), (0, 1), (0, 2) while O plays (1, 1), (2, 2): row 0 is
   * X's, and its three cells are the ones highlighted.
   */
  lemma RowWinExample()
    ensures var b: Board := [[X, X, X], [Empty, O, Empty], [Empty, Empty, O]];
      CheckGameStatus(b) == Win(X) && GetWinningCells(b) == Row(0)
  {
    var b: Board := [[X, X, X], [Empty, O, Empty], [Empty, Empty, O]];
    assert Complete(b, Row(0));
  }

  /**
   * The position before X's last move in that round is still undecided,
   * and X playing (0, 2) on it gives the winning board.
   */
  lemma RowWinLastMove()
    ensures var b: Board := [[X, X, Empty], [Empty, O, Empty], [Empty, Empty, O]];
      && CheckGameStatus(b) == Pending
      && Place(b, 0, 2, X) == [[X, X, X], [Empty, O, Empty], [Empty, Empty, O]]
  {
    var b: Board := [[X, X, Empty], [Empty, O, Empty], [Empty, Empty, O]];
    assert forall k | 0 <= k < |ScanOrder| :: !Complete(b, ScanOrder[k]);
    assert b[0][2] == Empty;
    var p := Place(b, 0, 2, X);
    assert p[0] == [X, X, X];
    assert p[1] == b[1] && p[2] == b[2];
  }

  /** A full board without a complete line is a draw, with nothing highlighted. */
  lemma DrawExample()
    ensures var b: Board := [[X, O, X], [X, O, O], [O, X, X]];
      CheckGameStatus(b) == Draw && GetWinningCells(b) == []
  {
    var b: Board := [[X, O, X], [X, O, O], [O, X, X]];
    assert forall k | 0 <= k < |ScanOrder| :: !Complete(b, ScanOrder[k]);
    assert Full(b);
  }
}
