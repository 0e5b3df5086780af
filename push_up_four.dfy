/**
 * `PushUpFourSpec`: push-up four on a board of `BoardCell`s with a fixed line length of four.
 * Chips enter a column from below and push it up; four of a player's chips in a row,
 * column or diagonal window win; a full move counter or two simultaneous winners tie.
 */
module PushUpFour {
  import opened Elements
  import opened Grid
  import opened SpecGame

  /** `N_IN_A_ROW`. */
  const NInARow: nat := 4

  /** The board has the game's shape, with at least one row (the rules start from `numRows - 1`). */
  predicate WellFormed(g: CellGame)
  {
    g.numRows >= 1 && IsGrid(g.state.board, g.numRows, g.numCols)
  }

  /**
   * The window loops subtract four from both dimensions, which has no value below four
   * rows or columns.
   */
  predicate WindowsFit(g: CellGame)
  {
    NInARow <= g.numRows && NInARow <= g.numCols
  }

  /** `get_initial_board`: `rows` rows of `cols` empty cells. */
  function InitialBoard(rows: nat, cols: nat): (b: seq<seq<BoardCell>>)
    ensures IsGrid(b, rows, cols)
    ensures GridCount(b, None) == rows * cols
  {
    var b := seq(rows, _ => seq(cols, _ => None));
    GridCountUniform(b, rows, cols, None);
    b
  }

  /** `get_valid_moves`: the bottom-row move of every column whose top cell is empty, left to right. */
  function ValidMoves(g: CellGame): (moves: seq<Move>)
    requires WellFormed(g)
    ensures forall m :: m in moves <==> m.row == g.numRows - 1 && m.col < g.numCols && g.state.board[0][m.col] == None
    ensures forall i, j :: 0 <= i < j < |moves| ==> moves[i].col < moves[j].col
  {
    OpenColumns(g.state.board, g.numCols, None, 0)
  }

  /**
   * `transition`: the mover's chip enters column `m.col` from below and pushes that column
   * up; the next player moves and the counter grows.
   */
  method Transition(g: CellGame, m: Move) returns (next: CellState)
    requires WellFormed(g) && ValidSeats(g) && m.col < g.numCols
    ensures next.toMove == NextPlayer(g) && next.moveNum == g.state.moveNum + 1
    ensures next.board == PushUp(g.state.board, g.numCols, m.col, Some(g.state.toMove))
  {
    var boardCopy := PushChip(g.state.board, g.numCols, m.col, Some(g.state.toMove));
    next := CellState(NextPlayer(g), g.state.moveNum + 1, boardCopy);
  }

  /**
   * A valid move fills one empty cell and adds one chip of the mover, and leaves every
   * other player's chips where the count is concerned.
   */
  lemma TransitionFillsOneCell(g: CellGame, m: Move, p: Player)
    requires WellFormed(g) && m in ValidMoves(g)
    ensures var nb := PushUp(g.state.board, g.numCols, m.col, Some(g.state.toMove));
      && GridCount(nb, None) + 1 == GridCount(g.state.board, None)
      && GridCount(nb, Some(p)) == GridCount(g.state.board, Some(p)) + (if p == g.state.toMove then 1 else 0)
  {
    PushUpCount(g.state.board, g.numCols, m.col, Some(g.state.toMove), None);
    PushUpCount(g.state.board, g.numCols, m.col, Some(g.state.toMove), Some(p));
  }

  /** `is_win`: some row, column or diagonal window of four cells holds four of `player`'s chips. */
  predicate Wins(g: CellGame, player: Player)
    requires WellFormed(g) && WindowsFit(g)
  {
    var b, cols := g.state.board, g.numCols;
    || RowWin(b, cols, Some(player), NInARow)
    || ColWin(b, cols, Some(player), NInARow)
    || MainDiagWin(b, cols, Some(player), NInARow)
    || AntiDiagWin(b, cols, Some(player), NInARow)
  }

  /** Four chips of `player` in a line from `(r, col)` in direction `(dr, dc)`. */
  ghost predicate FourRun(g: CellGame, player: Player, r: int, col: int, dr: int, dc: int)
    requires WellFormed(g)
  {
    Run(g.state.board, g.numCols, Some(player), NInARow, r, col, dr, dc)
  }

  /** A win is four consecutive chips of `player` across, down, or along either diagonal. */
  lemma WinsIffRun(g: CellGame, player: Player)
    requires WellFormed(g) && WindowsFit(g)
    ensures Wins(g, player) <==>
      || (exists r, col :: FourRun(g, player, r, col, 0, 1))
      || (exists r, col :: FourRun(g, player, r, col, 1, 0))
      || (exists r, col :: FourRun(g, player, r, col, 1, 1))
      || (exists r, col :: FourRun(g, player, r, col, 1, -1))
  {
    var b, cols, v := g.state.board, g.numCols, Some(player);
    RowWinIffRun(b, cols, v, NInARow);
    ColWinIffRun(b, cols, v, NInARow);
    MainDiagWinIffRun(b, cols, v, NInARow);
    AntiDiagWinIffRun(b, cols, v, NInARow);
    assert forall r, col, dr, dc :: FourRun(g, player, r, col, dr, dc) == Run(b, cols, v, NInARow, r, col, dr, dc);
  }

  /** `is_win` through `is_row_win`, `is_col_win` and `is_diag_win`, stopping at the first win found. */
  method IsWin(g: CellGame, player: Player) returns (w: bool)
    requires WellFormed(g) && WindowsFit(g)
    ensures w == Wins(g, player)
  {
    w := IsRowWin(g.state.board, g.numCols, Some(player), NInARow);
    if w {
      return;
    }
    w := IsColWin(g.state.board, g.numCols, Some(player), NInARow);
    if w {
      return;
    }
    w := IsDiagWin(g.state.board, g.numCols, Some(player), NInARow);
  }

  /** The win test of seat `q` (`Player::from(q)`); seats beyond four have none. */
  function WinTest(g: CellGame): nat -> bool
    requires WellFormed(g) && WindowsFit(g)
  {
    (q: nat) => q < 4 && Wins(g, FromUsize(q))
  }

  /**
   * `is_tie`: the move counter equals the number of cells, or (`is_tie_after_transition`)
   * two different seats win at once.
   */
  method IsTie(g: CellGame) returns (t: bool)
    requires WellFormed(g) && WindowsFit(g) && ValidSeats(g)
    ensures t <==> g.state.moveNum == g.numRows * g.numCols ||
                   exists p, q :: 0 <= p < q < g.numPlayers && Wins(g, FromUsize(p)) && Wins(g, FromUsize(q))
  {
    if g.state.moveNum == g.numRows * g.numCols {
      return true;
    }
    var count := 0;
    var player := g.numPlayers;
    while player > 0
      invariant 0 <= player <= g.numPlayers
      invariant count == CountSeats(WinTest(g), player, g.numPlayers)
    {
      player := player - 1;
      var w := IsWin(g, FromUsize(player));
      if w {
        count := count + 1;
      }
    }
    CountSeatsTwo(WinTest(g), 0, g.numPlayers);
    assert forall q: nat :: q < 4 ==> WinTest(g)(q) == Wins(g, FromUsize(q));
    t := count > 1;
  }
}
