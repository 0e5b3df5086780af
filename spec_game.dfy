/**
 * The game a `GameSpec` rule set reads: board dimensions, the number of players, the current
 * state over `BoardCell` boards, the state before the last transition, and whose turn comes
 * next.
 */
module SpecGame {
  import opened Elements

  /** A state of a `GameSpec` game: the player to move, the move counter and the board. */
  datatype CellState = CellState(toMove: Player, moveNum: nat, board: seq<seq<BoardCell>>)

  /** What a rule set can ask its game: dimensions, seats, the current and the previous state. */
  datatype CellGame = CellGame(numRows: nat, numCols: nat, numPlayers: nat, state: CellState, prev: Option<CellState>)

  /** One to four seats: a `Player` names at most four. */
  predicate ValidSeats(g: CellGame)
  {
    1 <= g.numPlayers <= 4
  }

  /**
   * `get_next_player`: the seats take turns round robin, so the seat after the one to
   * move is the next index modulo the number of players.
   */
  function NextPlayer(g: CellGame): (p: Player)
    requires ValidSeats(g)
    ensures ToUsize(p) < g.numPlayers
    ensures ToUsize(g.state.toMove) < g.numPlayers ==>
      (ToUsize(p) == 0 <==> ToUsize(g.state.toMove) == g.numPlayers - 1)
    ensures ToUsize(g.state.toMove) + 1 < g.numPlayers ==> ToUsize(p) == ToUsize(g.state.toMove) + 1
  {
    FromUsize((ToUsize(g.state.toMove) + 1) % g.numPlayers)
  }

  /**
   * `get_initial_to_move`, the same in every game of this crate (Push Up Four, the
   * user game and Othello): seat 0 opens.
   */
  function InitialToMove(): (p: Player)
    ensures ToUsize(p) == 0
  {
    Player0
  }
}
