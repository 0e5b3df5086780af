/**
 * Push-up four on the integer board of `GameState` (`-1` is an empty cell, a seat's chip
 * is its index): moves go in at the bottom of a column and push the column up; a seat wins
 * with `nInARow` of its chips in a row, column or diagonal window; the game is a tie when
 * the move counter reaches the number of cells or more than one seat wins at once.
 */
module PushUpFourInt {
  import opened Elements
  import opened GameStates
  import opened Grid
  import NewGame

  type Config = NewGame.Config

  /**
   * The board has the configured shape, with at least one row: every rule starts from
   * `numRows - 1`, which has no value for an empty board.
   */
  predicate WellFormed(c: Config, s: GameState)
  {
    c.numRows >= 1 && IsGrid(s.board, c.numRows, c.numCols)
  }

  /** The window loops run up to `numCols - nInARow` and `numRows - nInARow`. */
  predicate WindowsFit(c: Config)
  {
    c.nInARow <= c.numRows && c.nInARow <= c.numCols
  }

  /**
   * `PushUpFourValidMoves`: one move per column whose top cell is empty, on the bottom row,
   * in increasing column order.
   */
  function ValidMoves(c: Config, s: GameState): (moves: seq<Move>)
    requires WellFormed(c, s)
    ensures forall m :: m in moves <==> m.row == c.numRows - 1 && m.col < c.numCols && s.board[0][m.col] == -1
    ensures forall i, j :: 0 <= i < j < |moves| ==> moves[i].col < moves[j].col
  {
    OpenColumns(s.board, c.numCols, -1, 0)
  }

  /**
   * `PushUpFourTransitionFunction`: the mover's chip enters column `m.col` from below and
   * pushes that column up one row; the turn passes to the next seat and the counter grows.
   * The row of the move is not used.
   */
  method Transition(c: Config, s: GameState, m: Move) returns (next: GameState)
    requires WellFormed(c, s) && m.col < c.numCols && c.numPlayers >= 1
    ensures next.toMove == (s.toMove + 1) % c.numPlayers && next.moveNum == s.moveNum + 1
    ensures next.board == PushUp(s.board, c.numCols, m.col, s.toMove)
  {
    var boardCopy := PushChip(s.board, c.numCols, m.col, s.toMove);
    next := GameState((s.toMove + 1) % c.numPlayers, s.moveNum + 1, boardCopy);
  }

  /**
   * The move counter plus the number of empty cells is the number of cells: true of the
   * empty board at move 0, and kept by every transition on a valid move.
   */
  predicate Counted(c: Config, s: GameState)
  {
    s.moveNum + GridCount(s.board, -1) == c.numRows * c.numCols
  }

  lemma InitialCounted(c: Config, s: GameState)
    requires IsGrid(s.board, c.numRows, c.numCols) && s.moveNum == 0
    requires forall r, col :: 0 <= r < c.numRows && 0 <= col < c.numCols ==> s.board[r][col] == -1
    ensures Counted(c, s)
  {
    GridCountUniform(s.board, c.numRows, c.numCols, -1);
  }

  /**
   * A valid move fills exactly one empty cell: the chip that enters is not `-1`, and the
   * cell that falls off the top was empty. So the counter and the empty cells stay in step.
   */
  lemma TransitionKeepsCounted(c: Config, s: GameState, m: Move)
    requires WellFormed(c, s) && m in ValidMoves(c, s) && Counted(c, s)
    ensures GridCount(PushUp(s.board, c.numCols, m.col, s.toMove), -1) + 1 == GridCount(s.board, -1)
    ensures Counted(c, GameState(s.toMove, s.moveNum + 1, PushUp(s.board, c.numCols, m.col, s.toMove)))
  {
    PushUpCount(s.board, c.numCols, m.col, s.toMove, -1);
  }

  /** While counted, the counter reaches the number of cells exactly when no cell is empty. */
  lemma FullWhenCounted(c: Config, s: GameState)
    requires Counted(c, s)
    ensures s.moveNum == c.numRows * c.numCols <==>
      forall r, col :: 0 <= r < |s.board| && 0 <= col < |s.board[r]| ==> s.board[r][col] != -1
  {
    GridCountZero(s.board, -1);
  }

  /**
   * `is_win`: some row, column, diagonal or counter-diagonal window of `nInARow` cells
   * holds at least `nInARow` chips of `player`.
   */
  predicate Wins(c: Config, s: GameState, player: nat)
    requires WellFormed(c, s) && WindowsFit(c)
  {
    || RowWin(s.board, c.numCols, player as int, c.nInARow)
    || ColWin(s.board, c.numCols, player as int, c.nInARow)
    || MainDiagWin(s.board, c.numCols, player as int, c.nInARow)
    || AntiDiagWin(s.board, c.numCols, player as int, c.nInARow)
  }

  /** `nInARow` chips of `player` in a line from `(r, col)` in direction `(dr, dc)`. */
  ghost predicate ChipRun(c: Config, s: GameState, player: nat, r: int, col: int, dr: int, dc: int)
    requires WellFormed(c, s)
  {
    Run(s.board, c.numCols, player as int, c.nInARow, r, col, dr, dc)
  }

  /** For a positive `nInARow`, a win is `nInARow` consecutive chips of `player` in one of the four directions. */
  lemma WinsIffRun(c: Config, s: GameState, player: nat)
    requires WellFormed(c, s) && WindowsFit(c) && c.nInARow >= 1
    ensures Wins(c, s, player) <==>
      || (exists r, col :: ChipRun(c, s, player, r, col, 0, 1))
      || (exists r, col :: ChipRun(c, s, player, r, col, 1, 0))
      || (exists r, col :: ChipRun(c, s, player, r, col, 1, 1))
      || (exists r, col :: ChipRun(c, s, player, r, col, 1, -1))
  {
    var b, n, v := s.board, c.nInARow, player as int;
    RowWinIffRun(b, c.numCols, v, n);
    ColWinIffRun(b, c.numCols, v, n);
    MainDiagWinIffRun(b, c.numCols, v, n);
    AntiDiagWinIffRun(b, c.numCols, v, n);
    assert forall r, col, dr, dc :: ChipRun(c, s, player, r, col, dr, dc) == Run(b, c.numCols, v, n, r, col, dr, dc);
  }

  /** `is_win` by way of `is_row_win`, `is_col_win` and `is_diag_win`, stopping at the first that finds a win. */
  method IsWin(c: Config, s: GameState, player: nat) returns (w: bool)
    requires WellFormed(c, s) && WindowsFit(c)
    ensures w == Wins(c, s, player)
  {
    w := IsRowWin(s.board, c.numCols, player as int, c.nInARow);
    if w {
      return;
    }
    w := IsColWin(s.board, c.numCols, player as int, c.nInARow);
    if w {
      return;
    }
    w := IsDiagWin(s.board, c.numCols, player as int, c.nInARow);
  }

  /** The win tests of all seats, as a function of the seat. */
  function WinTest(c: Config, s: GameState): nat -> bool
    requires WellFormed(c, s) && WindowsFit(c)
  {
    (q: nat) => Wins(c, s, q)
  }

  /**
   * `PushUpFourTieCondition`: the counter has reached the number of cells, or (the
   * `is_tie_after_transition` count) at least two different seats win.
   */
  method IsTie(c: Config, s: GameState) returns (t: bool)
    requires WellFormed(c, s) && WindowsFit(c)
    ensures t <==> s.moveNum == c.numRows * c.numCols ||
                   exists p, q :: 0 <= p < q < c.numPlayers && Wins(c, s, p) && Wins(c, s, q)
  {
    if s.moveNum == c.numRows * c.numCols {
      return true;
    }
    var count := 0;
    var player := c.numPlayers;
    while player > 0
      invariant 0 <= player <= c.numPlayers
      invariant count == CountSeats(WinTest(c, s), player, c.numPlayers)
    {
      player := player - 1;
      var w := IsWin(c, s, player);
      if w {
        count := count + 1;
      }
    }
    CountSeatsTwo(WinTest(c, s), 0, c.numPlayers);
    assert forall q: nat :: WinTest(c, s)(q) == Wins(c, s, q);
    t := count > 1;
  }
}
