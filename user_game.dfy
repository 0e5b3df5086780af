/**
 * `UserGameSpec`: a Go variant on a 9 by 9 board of `BoardCell`s. Every empty cell is a
 * move (the suicide and ko tests are placeholders that never object), a move puts the
 * mover's stone down and records the new board in a history, and once a state repeats the
 * previous state's move counter the stones on the board are counted for the win and tie
 * tests.
 */
module UserGame {
  import opened Elements
  import opened Grid
  import opened SpecGame

  /** `BOARD_SIZE`. */
  const BoardSize: nat := 9

  /** Only seats 0 and 1 have stones on the board: the count keeps two tallies. */
  predicate TwoSeatStones(b: seq<seq<BoardCell>>)
  {
    forall i, j :: 0 <= i < |b| && 0 <= j < |b[i]| && b[i][j].Some? ==> ToUsize(b[i][j].value) < 2
  }

  /** The stones of `p` on the board. */
  function Territory(b: seq<seq<BoardCell>>, p: Player): nat
  {
    GridCount(b, Some(p))
  }

  /** Both players passed: the state carries the same move counter as the one before it. */
  predicate Settled(g: CellGame)
  {
    g.prev.Some? && g.state.moveNum == g.prev.value.moveNum
  }

  /**
   * The count the win test reads once it runs: both players' stone counts (the two
   * tallies are indexed by `to_usize`, so the seats asked about must be 0 or 1).
   */
  predicate CountReady(g: CellGame, player: Player)
  {
    && ValidSeats(g)
    && TwoSeatStones(g.state.board)
    && ToUsize(player) < 2
    && ToUsize(NextPlayer(g)) < 2
  }

  /** `is_win` as written: `player` has more stones than the player whose turn comes next. */
  predicate WinsAsWritten(g: CellGame, player: Player)
    requires Settled(g) ==> ValidSeats(g)
  {
    Settled(g) && Territory(g.state.board, player) > Territory(g.state.board, NextPlayer(g))
  }

  /** `is_tie`: both players have as many stones. */
  predicate Ties(g: CellGame)
  {
    Settled(g) && Territory(g.state.board, Player0) == Territory(g.state.board, Player1)
  }

  /** The other one of seats 0 and 1. */
  function Other(p: Player): (q: Player)
    ensures ToUsize(p) < 2 ==> ToUsize(q) < 2 && q != p
  {
    if p == Player0 then Player1 else Player0
  }

  /** The evident intent of `is_win`: `player` has more stones than the other player. */
  predicate Wins(g: CellGame, player: Player)
  {
    Settled(g) && Territory(g.state.board, player) > Territory(g.state.board, Other(player))
  }

  /**
   * With the intended test, a settled game has exactly one outcome: seat 0 wins, seat 1
   * wins, or it is a tie; an unsettled game has none.
   */
  lemma OutcomeTrichotomy(g: CellGame)
    ensures Settled(g) ==>
      && (Wins(g, Player0) || Wins(g, Player1) || Ties(g))
      && !(Wins(g, Player0) && Wins(g, Player1))
      && !(Ties(g) && (Wins(g, Player0) || Wins(g, Player1)))
    ensures !Settled(g) ==> !Wins(g, Player0) && !Wins(g, Player1) && !Ties(g)
  {
  }

  /**
   * As written, the player whose turn comes next is compared with itself and can never
   * win. On the 9 by 9 board with one stone of seat 0 in the corner, a settled two-player
   * game with seat 1 to move (seat 0 next) is neither a win for either seat nor a tie, so
   * its status stays Ongoing; the intended test makes it a win for seat 0.
   */
  lemma AsWrittenNextPlayerCannotWin()
    ensures var s := CellState(Player1, 2, Place(InitialBoard(), Move(0, 0), Some(Player0)));
      var g := CellGame(BoardSize, BoardSize, 2, s, Some(s));
      && Territory(s.board, Player0) > Territory(s.board, Player1)
      && !WinsAsWritten(g, Player0) && !WinsAsWritten(g, Player1) && !Ties(g)
      && Wins(g, Player0)
  {
    var e := InitialBoard();
    var s := CellState(Player1, 2, Place(e, Move(0, 0), Some(Player0)));
    var g := CellGame(BoardSize, BoardSize, 2, s, Some(s));
    GridCountZero(e, Some(Player0));
    GridCountZero(e, Some(Player1));
    GridCountUpdate(e, 0, 0, Some(Player0), Some(Player0));
    GridCountUpdate(e, 0, 0, Some(Player0), Some(Player1));
    assert NextPlayer(g) == Player0;
  }

  /** `get_initial_board`: nine rows of nine empty cells. */
  function InitialBoard(): (b: seq<seq<BoardCell>>)
    ensures IsGrid(b, BoardSize, BoardSize)
    ensures GridCount(b, None) == BoardSize * BoardSize
  {
    var b := seq(BoardSize, _ => seq(BoardSize, _ => None));
    GridCountUniform(b, BoardSize, BoardSize, None);
    b
  }

  /** `is_suicide`: not implemented; no move counts as suicide. */
  predicate IsSuicide(g: CellGame, row: nat, col: nat)
  {
    false
  }

  /** `is_ko`: not implemented; no move breaks the ko rule. */
  predicate IsKo(g: CellGame, row: nat, col: nat)
  {
    false
  }

  /**
   * The two tallies of `is_win` and `is_tie`: one pass over the board, adding one to the
   * tally of the stone's seat.
   */
  method CountTerritory(b: seq<seq<BoardCell>>) returns (territory: seq<nat>)
    requires TwoSeatStones(b)
    ensures territory == [Territory(b, Player0), Territory(b, Player1)]
  {
    territory := [0, 0];
    for i := 0 to |b|
      invariant territory == [GridCount(b[..i], Some(Player0)), GridCount(b[..i], Some(Player1))]
    {
      for j := 0 to |b[i]|
        invariant territory == [
          GridCount(b[..i], Some(Player0)) + CountOf(b[i][..j], Some(Player0)),
          GridCount(b[..i], Some(Player1)) + CountOf(b[i][..j], Some(Player1))]
      {
        assert b[i][..j + 1][..j] == b[i][..j];
        match b[i][j]
        case Some(p) =>
          var k := ToUsize(p);
          territory := territory[k := territory[k] + 1];
        case None =>
      }
      assert b[i][..|b[i]|] == b[i];
      assert b[..i + 1][..i] == b[..i];
    }
    assert b[..|b|] == b;
  }

  /**
   * The rule object. Its one field is the history of boards that transitions have
   * produced; a superko rule would read it, but none is implemented.
   */
  class UserGameSpec {
    var history: set<seq<seq<BoardCell>>>

    /** `UserGameSpec::new`: an empty history. */
    constructor ()
      ensures history == {}
    {
      history := {};
    }

    /**
     * `get_valid_moves`: every empty cell that is neither suicide nor ko, row by row; with
     * both tests placeholders, every empty cell.
     */
    method GetValidMoves(g: CellGame) returns (moves: seq<Move>)
      ensures RowMajor(moves)
      ensures forall m :: m in moves <==>
        && m.row < |g.state.board| && m.col < |g.state.board[m.row]| && g.state.board[m.row][m.col] == None
        && !IsSuicide(g, m.row, m.col) && !IsKo(g, m.row, m.col)
    {
      moves := CellsEqual(g.state.board, None);
    }

    /**
     * `transition`: the mover's stone goes down at `m` (whatever was there), the next
     * player moves, the counter grows, and the new board joins the history.
     */
    method Transition(g: CellGame, m: Move) returns (next: CellState)
      requires ValidSeats(g) && m.row < |g.state.board| && m.col < |g.state.board[m.row]|
      modifies this
      ensures next == CellState(NextPlayer(g), g.state.moveNum + 1, Place(g.state.board, m, Some(g.state.toMove)))
      ensures history == old(history) + {next.board}
    {
      var boardCopy := g.state.board;
      boardCopy := boardCopy[m.row := boardCopy[m.row][m.col := Some(g.state.toMove)]];
      next := CellState(NextPlayer(g), g.state.moveNum + 1, boardCopy);
      history := history + {boardCopy};
    }

    /**
     * `is_win` as written: false unless the state is settled; then `player` wins when it
     * has more stones than the player whose turn comes next.
     */
    method IsWin(g: CellGame, player: Player) returns (w: bool)
      requires Settled(g) ==> CountReady(g, player)
      ensures w == WinsAsWritten(g, player)
    {
      if g.prev.Some? {
        var prevState := g.prev.value;
        if g.state.moveNum == prevState.moveNum {
          var territory := CountTerritory(g.state.board);
          SeatIndex(player);
          SeatIndex(NextPlayer(g));
          return territory[ToUsize(player)] > territory[ToUsize(NextPlayer(g))];
        }
      }
      return false;
    }

    /** `is_win` with the evident intent: `player` has more stones than the other player. */
    method IsWinCorrected(g: CellGame, player: Player) returns (w: bool)
      requires Settled(g) ==> TwoSeatStones(g.state.board) && ToUsize(player) < 2
      ensures w == Wins(g, player)
    {
      if g.prev.Some? {
        var prevState := g.prev.value;
        if g.state.moveNum == prevState.moveNum {
          var territory := CountTerritory(g.state.board);
          SeatIndex(player);
          SeatIndex(Other(player));
          return territory[ToUsize(player)] > territory[ToUsize(Other(player))];
        }
      }
      return false;
    }

    /** `is_tie`: false unless the state is settled; then seats 0 and 1 have as many stones. */
    method IsTie(g: CellGame) returns (t: bool)
      requires Settled(g) ==> TwoSeatStones(g.state.board)
      ensures t == Ties(g)
    {
      if g.prev.Some? {
        var prevState := g.prev.value;
        if g.state.moveNum == prevState.moveNum {
          var territory := CountTerritory(g.state.board);
          return territory[ToUsize(Player0)] == territory[ToUsize(Player1)];
        }
      }
      return false;
    }
  }

  /** Seats 0 and 1 are the only ones with an index below two. */
  lemma SeatIndex(p: Player)
    ensures ToUsize(p) == 0 <==> p == Player0
    ensures ToUsize(p) == 1 <==> p == Player1
  {
  }

  /**
   * A move on an empty cell fills one cell and adds one stone of the mover; the history
   * then holds the new board.
   */
  lemma TransitionFillsOneCell(g: CellGame, m: Move, p: Player)
    requires m.row < |g.state.board| && m.col < |g.state.board[m.row]| && g.state.board[m.row][m.col] == None
    ensures var nb := Place(g.state.board, m, Some(g.state.toMove));
      && GridCount(nb, None) + 1 == GridCount(g.state.board, None)
      && Territory(nb, p) == Territory(g.state.board, p) + (if p == g.state.toMove then 1 else 0)
  {
    GridCountUpdate(g.state.board, m.row, m.col, Some(g.state.toMove), None);
    GridCountUpdate(g.state.board, m.row, m.col, Some(g.state.toMove), Some(p));
  }
}
