/**
 * The game object: one live state, the board dimensions, the player count and the injected
 * rule objects (valid moves, transition, win test, tie test). Status and score are derived
 * from the win and tie tests; the search moves the game with `Transition` and puts a saved
 * state back with `SetState`.
 */
module NewGame {
  import opened Elements
  import opened Scores
  import opened GameStates

  /** The fixed dimensions a game is built with. */
  datatype Config = Config(numRows: nat, numCols: nat, numPlayers: nat, nInARow: nat)

  /**
   * The four injected rule objects. Each reads the game it is handed: its dimensions
   * (`Config`) and its current state.
   */
  datatype Rules = Rules(
    validMoves: (Config, GameState) -> seq<Move>,
    transition: (Config, GameState, Move) -> GameState,
    isWin: (Config, GameState, nat) -> bool,
    isTie: (Config, GameState) -> bool)

  /**
   * A status names its winner as a `Player`, which has four seats, and a score vector
   * needs at least one player.
   */
  predicate ValidConfig(c: Config)
  {
    1 <= c.numPlayers <= 4
  }

  /** The transition never hands the turn to a seat outside the game. */
  ghost predicate KeepsTurnInRange(r: Rules, c: Config)
  {
    forall s: GameState, m: Move {:trigger r.transition(c, s, m)} ::
      s.toMove < c.numPlayers ==> r.transition(c, s, m).toMove < c.numPlayers
  }

  /** The first seat from `p` on whose win test holds, or Ongoing if there is none. */
  function FirstWinner(r: Rules, c: Config, s: GameState, p: nat): (st: GameStatus)
    requires c.numPlayers <= 4 && p <= c.numPlayers
    ensures !st.Tie?
    ensures st.IsWin() ==> p <= ToUsize(Winner(st)) < c.numPlayers
    decreases c.numPlayers - p
  {
    if p == c.numPlayers then Ongoing
    else if r.isWin(c, s, p) then WinStatus(FromUsize(p))
    else FirstWinner(r, c, s, p + 1)
  }

  /** The status of the game in state `s`: the tie test first, then each seat's win test in order. */
  function Status(r: Rules, c: Config, s: GameState): GameStatus
    requires c.numPlayers <= 4
  {
    if r.isTie(c, s) then Tie else FirstWinner(r, c, s, 0)
  }

  /** The score vector of state `s`: uniform for a tie or an ongoing game, the winner's indicator otherwise. */
  function Score(r: Rules, c: Config, s: GameState): seq<real>
    requires ValidConfig(c)
  {
    var st := Status(r, c, s);
    if st.IsWin() then Indicator(c.numPlayers, ToUsize(Winner(st))) else Uniform(c.numPlayers)
  }

  lemma {:induction false} FirstWinnerIsFirst(r: Rules, c: Config, s: GameState, p: nat, q: nat)
    requires c.numPlayers <= 4 && p <= q < c.numPlayers
    ensures (FirstWinner(r, c, s, p) == WinStatus(FromUsize(q))) <==>
            (r.isWin(c, s, q) && forall j :: p <= j < q ==> !r.isWin(c, s, j))
    decreases q - p
  {
    if p < q {
      if !r.isWin(c, s, p) {
        FirstWinnerIsFirst(r, c, s, p + 1, q);
      } else {
        ToUsizeInjective(FromUsize(p), FromUsize(q));
      }
    }
  }

  lemma {:induction false} FirstWinnerNone(r: Rules, c: Config, s: GameState, p: nat)
    requires c.numPlayers <= 4 && p <= c.numPlayers
    ensures FirstWinner(r, c, s, p) == Ongoing <==> forall j :: p <= j < c.numPlayers ==> !r.isWin(c, s, j)
    decreases c.numPlayers - p
  {
    if p < c.numPlayers && !r.isWin(c, s, p) {
      FirstWinnerNone(r, c, s, p + 1);
    }
  }

  /**
   * The status is Tie exactly when the tie test holds, even if some seat also wins; it is
   * the win of seat `q` exactly when there is no tie and `q` is the lowest seat whose win
   * test holds; it is Ongoing exactly when neither test fires.
   */
  lemma StatusSpec(r: Rules, c: Config, s: GameState)
    requires c.numPlayers <= 4
    ensures Status(r, c, s) == Tie <==> r.isTie(c, s)
    ensures forall q :: 0 <= q < c.numPlayers ==>
      ((Status(r, c, s) == WinStatus(FromUsize(q))) <==>
       (!r.isTie(c, s) && r.isWin(c, s, q) && forall j :: 0 <= j < q ==> !r.isWin(c, s, j)))
    ensures Status(r, c, s) == Ongoing <==> !r.isTie(c, s) && forall j :: 0 <= j < c.numPlayers ==> !r.isWin(c, s, j)
  {
    FirstWinnerNone(r, c, s, 0);
    forall q | 0 <= q < c.numPlayers
      ensures (Status(r, c, s) == WinStatus(FromUsize(q))) <==>
              (!r.isTie(c, s) && r.isWin(c, s, q) && forall j :: 0 <= j < q ==> !r.isWin(c, s, j))
    {
      FirstWinnerIsFirst(r, c, s, 0, q);
    }
  }

  /**
   * The score is a distribution over the players; for a tie or an ongoing game every entry
   * is `1/numPlayers`, and for a win by `q` it is 1 at `q` and 0 elsewhere.
   */
  lemma ScoreSpec(r: Rules, c: Config, s: GameState)
    requires ValidConfig(c)
    ensures IsDistribution(Score(r, c, s), c.numPlayers)
    ensures !Status(r, c, s).IsWin() ==> forall i :: 0 <= i < c.numPlayers ==> Score(r, c, s)[i] == 1.0 / c.numPlayers as real
    ensures Status(r, c, s).IsWin() ==>
      var q := ToUsize(Winner(Status(r, c, s)));
      q < c.numPlayers && Score(r, c, s)[q] == 1.0 &&
      forall i :: 0 <= i < c.numPlayers && i != q ==> Score(r, c, s)[i] == 0.0
  {
    var st := Status(r, c, s);
    if st.IsWin() {
      IndicatorIsDistribution(c.numPlayers, ToUsize(Winner(st)));
    } else {
      UniformIsDistribution(c.numPlayers);
    }
  }

  class Game {
    var state: GameState
    const config: Config
    const rules: Rules

    ghost predicate Valid()
      reads this
    {
      && ValidConfig(config)
      && KeepsTurnInRange(rules, config)
      && state.toMove < config.numPlayers
    }

    /** `Game::new`: seat 0 to move, move 0, a `numRows` by `numCols` board of empty (`-1`) cells. */
    constructor (numRows: nat, numCols: nat, numPlayers: nat, nInARow: nat, rules: Rules)
      requires ValidConfig(Config(numRows, numCols, numPlayers, nInARow))
      requires KeepsTurnInRange(rules, Config(numRows, numCols, numPlayers, nInARow))
      ensures Valid()
      ensures config == Config(numRows, numCols, numPlayers, nInARow) && this.rules == rules
      ensures state.toMove == 0 && state.moveNum == 0
      ensures |state.board| == numRows
      ensures forall i :: 0 <= i < numRows ==> |state.board[i]| == numCols && forall j :: 0 <= j < numCols ==> state.board[i][j] == -1
    {
      state := GameState(0, 0, seq(numRows, _ => seq(numCols, _ => -1)));
      config := Config(numRows, numCols, numPlayers, nInARow);
      this.rules := rules;
    }

    /** `get_game_status`: the tie test, then a scan of the seats that stops at the first winner. */
    method GetGameStatus() returns (st: GameStatus)
      requires ValidConfig(config)
      ensures st == Status(rules, config, state)
    {
      if rules.isTie(config, state) {
        return Tie;
      }
      var p := 0;
      while p < config.numPlayers
        invariant 0 <= p <= config.numPlayers
        invariant FirstWinner(rules, config, state, p) == FirstWinner(rules, config, state, 0)
      {
        if rules.isWin(config, state, p) {
          return WinStatus(FromUsize(p));
        }
        p := p + 1;
      }
      return Ongoing;
    }

    /** `get_score`: a uniform vector for a tie or an ongoing game, else zeros with a 1 at the winner. */
    method GetScore() returns (score: seq<real>)
      requires ValidConfig(config)
      ensures score == Score(rules, config, state)
    {
      var res := GetGameStatus();
      if !res.IsWin() {
        return seq(config.numPlayers, _ => 1.0 / config.numPlayers as real);
      }
      var winner := ToUsize(Winner(res));
      score := seq(config.numPlayers, _ => 0.0);
      score := score[winner := 1.0];
    }

    /** `set_state`: the new state replaces the old one; the getters then read the new fields. */
    method SetState(s: GameState)
      modifies this
      ensures state == s
      ensures GetToMove() == s.toMove && GetMoveNum() == s.moveNum && GetBoard() == s.board
    {
      state := s;
    }

    /** Applies `m` through the transition rule object. */
    method Transition(m: Move)
      requires Valid()
      modifies this
      ensures Valid()
      ensures state == rules.transition(config, old(state), m)
    {
      state := rules.transition(config, state, m);
    }

    function GetValidMoves(): seq<Move>
      reads this
    {
      rules.validMoves(config, state)
    }

    function GetToMove(): nat
      reads this
    {
      state.toMove
    }

    function GetMoveNum(): nat
      reads this
    {
      state.moveNum
    }

    function GetBoard(): seq<seq<int>>
      reads this
    {
      state.board
    }

    function GetNumPlayers(): nat
      reads this
    {
      config.numPlayers
    }
  }
}
