/** The snapshot of one point of a game on an integer board (`-1` is an empty cell). */
module GameStates {

  /**
   * `GameState`: whose turn it is, the move counter and the board. It is a value: the
   * derived `Clone` copies all three fields, and `new` and the three getters are the
   * constructor and the destructors.
   */
  datatype GameState = GameState(toMove: nat, moveNum: nat, board: seq<seq<int>>)

}
