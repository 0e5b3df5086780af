/**
 * Multiplayer minimax with pruning. `Explore` and `SweepMoves` are the meaning of the
 * depth-first search as functions of the state and the alpha vector; `Dfs` is the search
 * itself, which moves the live game and updates the alphas in place, and is proved to
 * compute `Explore` and to leave both exactly as it found them.
 */
module Opt {
  import opened Elements
  import opened Scores
  import opened GameStates
  import opened NewGame

  /** A seat's alpha: minus infinity until that seat has secured a score on the current path. */
  datatype ExtReal = NegInf | Fin(r: real)

  predicate AtMost(a: ExtReal, b: ExtReal)
  {
    a.NegInf? || (b.Fin? && a.r <= b.r)
  }

  /** `f64::max` on alphas. */
  function MaxExt(a: ExtReal, b: ExtReal): ExtReal
  {
    if a.NegInf? then b
    else if b.NegInf? then a
    else Fin(if a.r >= b.r then a.r else b.r)
  }

  /** `alphas[p].max(score)`: the alpha after seat `p` has secured `x`. */
  function Raise(a: ExtReal, x: real): (b: ExtReal)
    ensures AtMost(a, b) && b.Fin? && x <= b.r
    ensures b.r == x || b == a
  {
    match a
    case NegInf => Fin(x)
    case Fin(y) => Fin(if y >= x then y else x)
  }

  /** The fold of `max`, from minus infinity, over the alphas of every seat other than `p`. */
  function MaxOther(alphas: seq<ExtReal>, p: nat): (m: ExtReal)
    ensures forall i :: 0 <= i < |alphas| && i != p ==> AtMost(alphas[i], m)
    ensures m.Fin? ==> exists i :: 0 <= i < |alphas| && i != p && alphas[i] == m
  {
    if alphas == [] then NegInf
    else
      var last := |alphas| - 1;
      MaxExt(MaxOther(alphas[..last], p), if last == p then NegInf else alphas[last])
  }

  /** `can_prune`: seat `p`'s score beats one minus the best alpha of any other seat. */
  predicate CanPrune(score: seq<real>, alphas: seq<ExtReal>, p: nat)
    requires p < |score|
  {
    match MaxOther(alphas, p)
    case NegInf => false
    case Fin(m) => score[p] > 1.0 - m
  }

  /**
   * Pruning is allowed exactly when some other seat has an alpha `a` with `score[p] > 1 - a`;
   * in particular it never happens while every other seat's alpha is minus infinity.
   */
  lemma CanPruneSpec(score: seq<real>, alphas: seq<ExtReal>, p: nat)
    requires p < |score|
    ensures CanPrune(score, alphas, p) <==>
      exists i :: 0 <= i < |alphas| && i != p && alphas[i].Fin? && score[p] > 1.0 - alphas[i].r
    ensures (forall i :: 0 <= i < |alphas| && i != p ==> alphas[i].NegInf?) ==> !CanPrune(score, alphas, p)
  {
    var m := MaxOther(alphas, p);
    if m.Fin? {
      var i :| 0 <= i < |alphas| && i != p && alphas[i] == m;
    }
  }

  /** What the search is run with: the game's rules and dimensions, the evaluator and the depth limit. */
  datatype Setup = Setup(rules: Rules, config: Config, eval: GameState -> seq<real>, depth: nat)
  {
    ghost predicate Ok()
    {
      && ValidConfig(config)
      && KeepsTurnInRange(rules, config)
      && forall s :: |eval(s)| == config.numPlayers
    }

    /** The evaluator keeps the score-vector invariant. */
    ghost predicate EvalIsDistribution()
    {
      forall s :: IsDistribution(eval(s), config.numPlayers)
    }
  }

  /** What `dfs` returns: a score vector and the move chosen, if any. */
  datatype Node = Node(score: seq<real>, move: Option<Move>)

  /** The child scores a node has looked at, in move order, and the index of the one it keeps. */
  datatype Sweep = Sweep(children: seq<seq<real>>, best: Option<nat>)

  /** The value `dfs` computes at depth `d` from state `s`, with alpha vector `alphas`. */
  function Explore(e: Setup, s: GameState, d: nat, alphas: seq<ExtReal>): (res: Node)
    requires e.Ok() && d <= e.depth
    requires s.toMove < e.config.numPlayers && |alphas| == e.config.numPlayers
    ensures |res.score| == e.config.numPlayers
    decreases e.depth - d, 1, 0
  {
    if Status(e.rules, e.config, s) != Ongoing then Node(Score(e.rules, e.config, s), None)
    else if d == e.depth then Node(e.eval(s), None)
    else
      var moves := e.rules.validMoves(e.config, s);
      var sw := SweepMoves(e, s, d, moves, alphas, [], None);
      match sw.best
      case None => Node(Zeros(e.config.numPlayers), None)
      case Some(k) => Node(sw.children[k], Some(moves[k]))
  }

  /**
   * The loop over the moves of a node: `children` are the child scores seen so far and
   * `best` the index of the one kept. A child replaces the best only when it is strictly
   * better for the mover; a new best either prunes the remaining siblings or raises the
   * mover's alpha for them.
   */
  function SweepMoves(e: Setup, s: GameState, d: nat, moves: seq<Move>, alphas: seq<ExtReal>,
                      children: seq<seq<real>>, best: Option<nat>): (sw: Sweep)
    requires e.Ok() && d < e.depth
    requires s.toMove < e.config.numPlayers && |alphas| == e.config.numPlayers
    requires |children| <= |moves|
    requires forall i :: 0 <= i < |children| ==> |children[i]| == e.config.numPlayers
    requires best.Some? ==> best.value < |children|
    requires best.None? <==> children == []
    ensures |children| <= |sw.children| <= |moves| && sw.children[..|children|] == children
    ensures forall i :: 0 <= i < |sw.children| ==> |sw.children[i]| == e.config.numPlayers
    ensures sw.best.Some? ==> sw.best.value < |sw.children|
    ensures sw.best.None? <==> sw.children == []
    ensures |children| < |moves| ==> |children| < |sw.children|
    decreases e.depth - d, 0, |moves| - |children|
  {
    if |children| == |moves| then Sweep(children, best)
    else
      var i := |children|;
      var p := s.toMove;
      var child := Explore(e, e.rules.transition(e.config, s, moves[i]), d + 1, alphas).score;
      if best.None? || child[p] > children[best.value][p] then
        if CanPrune(child, alphas, p) then Sweep(children + [child], Some(i))
        else SweepMoves(e, s, d, moves, alphas[p := Raise(alphas[p], child[p])], children + [child], Some(i))
      else SweepMoves(e, s, d, moves, alphas, children + [child], best)
  }

  /**
   * Index `k` holds the first strict maximum of seat `p`'s entries: every earlier child is
   * strictly worse for `p`, no later child is better.
   */
  ghost predicate FirstBest(children: seq<seq<real>>, k: nat, p: nat)
    requires forall i :: 0 <= i < |children| ==> p < |children[i]|
  {
    && k < |children|
    && (forall j :: 0 <= j < k ==> children[j][p] < children[k][p])
    && (forall j :: k < j < |children| ==> children[j][p] <= children[k][p])
  }

  /** One step of the move loop, unfolded. */
  lemma SweepStep(e: Setup, s: GameState, d: nat, moves: seq<Move>, alphas: seq<ExtReal>,
                  children: seq<seq<real>>, best: Option<nat>)
    requires e.Ok() && d < e.depth
    requires s.toMove < e.config.numPlayers && |alphas| == e.config.numPlayers
    requires |children| < |moves|
    requires forall i :: 0 <= i < |children| ==> |children[i]| == e.config.numPlayers
    requires best.Some? ==> best.value < |children|
    requires best.None? <==> children == []
    ensures var i, p := |children|, s.toMove;
      var child := Explore(e, e.rules.transition(e.config, s, moves[i]), d + 1, alphas).score;
      SweepMoves(e, s, d, moves, alphas, children, best) ==
        if best.None? || child[p] > children[best.value][p] then
          if CanPrune(child, alphas, p) then Sweep(children + [child], Some(i))
          else SweepMoves(e, s, d, moves, alphas[p := Raise(alphas[p], child[p])], children + [child], Some(i))
        else SweepMoves(e, s, d, moves, alphas, children + [child], best)
  {
  }

  /** A child strictly better than the current best (or the first child) is the new first best. */
  lemma FirstBestNew(children: seq<seq<real>>, best: Option<nat>, child: seq<real>, p: nat)
    requires forall i :: 0 <= i < |children| ==> p < |children[i]|
    requires p < |child|
    requires best.None? <==> children == []
    requires best.Some? ==> FirstBest(children, best.value, p) && child[p] > children[best.value][p]
    ensures FirstBest(children + [child], |children|, p)
  {
  }

  /** A child no better than the current best leaves it the first best. */
  lemma FirstBestKept(children: seq<seq<real>>, k: nat, child: seq<real>, p: nat)
    requires forall i :: 0 <= i < |children| ==> p < |children[i]|
    requires p < |child|
    requires FirstBest(children, k, p) && child[p] <= children[k][p]
    ensures FirstBest(children + [child], k, p)
  {
  }

  /**
   * The move loop keeps the first child that is strictly best for the mover: an equal
   * score found later never replaces it.
   */
  lemma {:induction false} SweepFirstBest(e: Setup, s: GameState, d: nat, moves: seq<Move>, alphas: seq<ExtReal>,
                                          children: seq<seq<real>>, best: Option<nat>)
    requires e.Ok() && d < e.depth
    requires s.toMove < e.config.numPlayers && |alphas| == e.config.numPlayers
    requires |children| <= |moves|
    requires forall i :: 0 <= i < |children| ==> |children[i]| == e.config.numPlayers
    requires best.Some? ==> FirstBest(children, best.value, s.toMove)
    requires best.None? <==> children == []
    ensures SweepMoves(e, s, d, moves, alphas, children, best).best.Some? ==>
      FirstBest(SweepMoves(e, s, d, moves, alphas, children, best).children,
                SweepMoves(e, s, d, moves, alphas, children, best).best.value, s.toMove)
    decreases |moves| - |children|
  {
    if |children| < |moves| {
      SweepStep(e, s, d, moves, alphas, children, best);
      var i, p := |children|, s.toMove;
      var child := Explore(e, e.rules.transition(e.config, s, moves[i]), d + 1, alphas).score;
      if best.None? || child[p] > children[best.value][p] {
        FirstBestNew(children, best, child, p);
        if !CanPrune(child, alphas, p) {
          SweepFirstBest(e, s, d, moves, alphas[p := Raise(alphas[p], child[p])], children + [child], Some(i));
        }
      } else {
        FirstBestKept(children, best.value, child, p);
        SweepFirstBest(e, s, d, moves, alphas, children + [child], best);
      }
    }
  }

  /**
   * `v` is the value of the subtree under move `j`, searched with the mover's alpha raised
   * to some `x` no smaller than its value in `alphas`.
   */
  ghost predicate ChildValue(e: Setup, s: GameState, d: nat, moves: seq<Move>, alphas: seq<ExtReal>, j: nat, v: seq<real>)
    requires e.Ok() && d < e.depth
    requires s.toMove < e.config.numPlayers && |alphas| == e.config.numPlayers && j < |moves|
  {
    exists x :: AtMost(alphas[s.toMove], x) &&
      v == Explore(e, e.rules.transition(e.config, s, moves[j]), d + 1, alphas[s.toMove := x]).score
  }

  /**
   * Each child score the move loop records is the search value of that child, and the
   * mover's alpha it was searched with is at least the alpha `a0[p]` on entry to the loop.
   */
  lemma {:induction false} SweepChildren(e: Setup, s: GameState, d: nat, moves: seq<Move>, a0: seq<ExtReal>,
                                         alphas: seq<ExtReal>, children: seq<seq<real>>, best: Option<nat>, j: nat)
    requires e.Ok() && d < e.depth
    requires s.toMove < e.config.numPlayers && |alphas| == e.config.numPlayers
    requires |a0| == |alphas| && alphas == a0[s.toMove := alphas[s.toMove]] && AtMost(a0[s.toMove], alphas[s.toMove])
    requires |children| <= |moves|
    requires forall i :: 0 <= i < |children| ==> |children[i]| == e.config.numPlayers
    requires best.Some? ==> best.value < |children|
    requires best.None? <==> children == []
    requires |children| <= j < |SweepMoves(e, s, d, moves, alphas, children, best).children|
    ensures ChildValue(e, s, d, moves, a0, j, SweepMoves(e, s, d, moves, alphas, children, best).children[j])
    decreases |moves| - |children|
  {
    SweepStep(e, s, d, moves, alphas, children, best);
    var i, p := |children|, s.toMove;
    var child := Explore(e, e.rules.transition(e.config, s, moves[i]), d + 1, alphas).score;
    if j == i {
      assert SweepMoves(e, s, d, moves, alphas, children, best).children[j] == child;
      assert AtMost(a0[p], alphas[p]) &&
        child == Explore(e, e.rules.transition(e.config, s, moves[i]), d + 1, a0[p := alphas[p]]).score;
    } else if best.None? || child[p] > children[best.value][p] {
      if !CanPrune(child, alphas, p) {
        SweepChildren(e, s, d, moves, a0, alphas[p := Raise(alphas[p], child[p])], children + [child], Some(i), j);
      }
    } else {
      SweepChildren(e, s, d, moves, a0, alphas, children + [child], best, j);
    }
  }

  /**
   * A sweep that ended before the last move ended right after a new best that passed the
   * pruning test, under a mover's alpha at least `a0[p]`.
   */
  ghost predicate StoppedByPrune(sw: Sweep, moves: seq<Move>, a0: seq<ExtReal>, p: nat)
    requires p < |a0|
    requires forall i :: 0 <= i < |sw.children| ==> p < |sw.children[i]|
  {
    |sw.children| < |moves| ==>
      && sw.best == Some(|sw.children| - 1)
      && exists x :: AtMost(a0[p], x) && CanPrune(sw.children[|sw.children| - 1], a0[p := x], p)
  }

  /** The move loop stops before the last move only when it prunes. */
  lemma {:induction false} SweepStopsOnPrune(e: Setup, s: GameState, d: nat, moves: seq<Move>, a0: seq<ExtReal>,
                                             alphas: seq<ExtReal>, children: seq<seq<real>>, best: Option<nat>)
    requires e.Ok() && d < e.depth
    requires s.toMove < e.config.numPlayers && |alphas| == e.config.numPlayers
    requires |a0| == |alphas| && alphas == a0[s.toMove := alphas[s.toMove]] && AtMost(a0[s.toMove], alphas[s.toMove])
    requires |children| <= |moves|
    requires forall i :: 0 <= i < |children| ==> |children[i]| == e.config.numPlayers
    requires best.Some? ==> best.value < |children|
    requires best.None? <==> children == []
    ensures StoppedByPrune(SweepMoves(e, s, d, moves, alphas, children, best), moves, a0, s.toMove)
    decreases |moves| - |children|
  {
    if |children| < |moves| {
      SweepStep(e, s, d, moves, alphas, children, best);
      var i, p := |children|, s.toMove;
      var child := Explore(e, e.rules.transition(e.config, s, moves[i]), d + 1, alphas).score;
      if best.None? || child[p] > children[best.value][p] {
        if CanPrune(child, alphas, p) {
          assert AtMost(a0[p], alphas[p]) && CanPrune(child, a0[p := alphas[p]], p);
        } else {
          SweepStopsOnPrune(e, s, d, moves, a0, alphas[p := Raise(alphas[p], child[p])], children + [child], Some(i));
        }
      } else {
        SweepStopsOnPrune(e, s, d, moves, a0, alphas, children + [child], best);
      }
    }
  }

  /**
   * Terminal nodes return their score and no move; a node at the depth limit returns the
   * evaluator's vector and no move; an ongoing node above the limit with no valid moves
   * returns the zero vector and no move; otherwise the node returns a move drawn from the
   * valid moves, namely the first whose child score is strictly best for the mover, with
   * that child's score.
   */
  lemma ExploreSpec(e: Setup, s: GameState, d: nat, alphas: seq<ExtReal>)
    requires e.Ok() && d <= e.depth
    requires s.toMove < e.config.numPlayers && |alphas| == e.config.numPlayers
    ensures var res := Explore(e, s, d, alphas);
      var moves := e.rules.validMoves(e.config, s);
      && (Status(e.rules, e.config, s) != Ongoing ==> res == Node(Score(e.rules, e.config, s), None))
      && (Status(e.rules, e.config, s) == Ongoing && d == e.depth ==> res == Node(e.eval(s), None))
      && (Status(e.rules, e.config, s) == Ongoing && d < e.depth && moves == [] ==>
            res == Node(Zeros(e.config.numPlayers), None))
      && (res.move.None? <==> Status(e.rules, e.config, s) != Ongoing || d == e.depth || moves == [])
      && (res.move.Some? ==>
            var sw := SweepMoves(e, s, d, moves, alphas, [], None);
            exists k :: 0 <= k < |sw.children| && res.move == Some(moves[k]) && res.score == sw.children[k]
                        && FirstBest(sw.children, k, s.toMove))
  {
    if Status(e.rules, e.config, s) == Ongoing && d < e.depth {
      var moves := e.rules.validMoves(e.config, s);
      SweepFirstBest(e, s, d, moves, alphas, [], None);
    }
  }

  /** Score vectors a search may return: a distribution, or the all-zero fallback. */
  ghost predicate IsShares(v: seq<real>, n: nat)
  {
    IsDistribution(v, n) || v == Zeros(n)
  }

  /**
   * If the evaluator returns distributions, every score the search returns is a
   * distribution or the zero vector of the no-move fallback: entries stay in [0, 1].
   */
  lemma {:induction false} ExploreShares(e: Setup, s: GameState, d: nat, alphas: seq<ExtReal>)
    requires e.Ok() && e.EvalIsDistribution() && d <= e.depth
    requires s.toMove < e.config.numPlayers && |alphas| == e.config.numPlayers
    ensures IsShares(Explore(e, s, d, alphas).score, e.config.numPlayers)
    ensures forall i :: 0 <= i < e.config.numPlayers ==> 0.0 <= Explore(e, s, d, alphas).score[i] <= 1.0
    decreases e.depth - d, 1, 0
  {
    if Status(e.rules, e.config, s) != Ongoing {
      ScoreSpec(e.rules, e.config, s);
    } else if d < e.depth {
      var moves := e.rules.validMoves(e.config, s);
      SweepShares(e, s, d, moves, alphas, [], None);
      var sw := SweepMoves(e, s, d, moves, alphas, [], None);
      assert forall i :: 0 <= i < |sw.children| ==> IsShares(sw.children[i], e.config.numPlayers);
      if sw.best.Some? {
        assert IsShares(sw.children[sw.best.value], e.config.numPlayers);
      }
    }
  }

  lemma {:induction false} SweepShares(e: Setup, s: GameState, d: nat, moves: seq<Move>, alphas: seq<ExtReal>,
                                       children: seq<seq<real>>, best: Option<nat>)
    requires e.Ok() && e.EvalIsDistribution() && d < e.depth
    requires s.toMove < e.config.numPlayers && |alphas| == e.config.numPlayers
    requires |children| <= |moves|
    requires forall i :: 0 <= i < |children| ==> |children[i]| == e.config.numPlayers
    requires forall i :: 0 <= i < |children| ==> IsShares(children[i], e.config.numPlayers)
    requires best.Some? ==> best.value < |children|
    requires best.None? <==> children == []
    ensures forall i :: 0 <= i < |SweepMoves(e, s, d, moves, alphas, children, best).children| ==>
      IsShares(SweepMoves(e, s, d, moves, alphas, children, best).children[i], e.config.numPlayers)
    decreases e.depth - d, 0, |moves| - |children|
  {
    if |children| < |moves| {
      var i := |children|;
      var p := s.toMove;
      var next := e.rules.transition(e.config, s, moves[i]);
      ExploreShares(e, next, d + 1, alphas);
      var child := Explore(e, next, d + 1, alphas).score;
      SweepStep(e, s, d, moves, alphas, children, best);
      if best.None? || child[p] > children[best.value][p] {
        if !CanPrune(child, alphas, p) {
          SweepShares(e, s, d, moves, alphas[p := Raise(alphas[p], child[p])], children + [child], Some(i));
        }
      } else {
        SweepShares(e, s, d, moves, alphas, children + [child], best);
      }
    }
  }

  /**
   * `dfs`: the search on the live game. It returns what `Explore` describes, and on every
   * exit path (terminal node, depth limit, after the move loop) the game's state and the
   * whole alpha vector are as they were on entry.
   */
  method Dfs(game: Game, d: nat, alphas: array<ExtReal>, eval: GameState -> seq<real>, depth: nat)
    returns (score: seq<real>, bestMove: Option<Move>)
    requires game.Valid() && Setup(game.rules, game.config, eval, depth).Ok()
    requires d <= depth && alphas.Length == game.config.numPlayers
    modifies game, alphas
    ensures game.Valid()
    ensures game.state == old(game.state) && alphas[..] == old(alphas[..])
    ensures Node(score, bestMove) == Explore(Setup(game.rules, game.config, eval, depth), old(game.state), d, old(alphas[..]))
    decreases depth - d, 2
  {
    var status := game.GetGameStatus();
    if status != Ongoing {
      score := game.GetScore();
      return score, None;
    }
    if d == depth {
      return eval(game.state), None;
    }
    var p := game.GetToMove();
    var oldAlpha := alphas[p];
    var moves := game.GetValidMoves();
    ghost var e, s0, a0 := Setup(game.rules, game.config, eval, depth), game.state, alphas[..];
    ghost var sw := SweepMoves(e, s0, d, moves, a0, [], None);
    assert Explore(e, s0, d, a0) == match sw.best
      case None => Node(Zeros(e.config.numPlayers), None)
      case Some(k) => Node(sw.children[k], Some(moves[k]));
    var best;
    best, bestMove := SearchMoves(game, d, alphas, eval, depth, moves);
    alphas[p] := oldAlpha;
    assert alphas[..] == a0;
    score := if best.None? then Zeros(game.config.numPlayers) else best.value;
  }

  /**
   * Where the move loop of `dfs` stands after the children seen so far: the alphas differ
   * from those on entry `a0` at most in the mover's, which has only grown; `best` and
   * `bestMove` are the kept child and its move; and sweeping the remaining moves from here
   * gives the sweep of the whole node.
   */
  ghost predicate Scanned(e: Setup, s0: GameState, d: nat, moves: seq<Move>, a0: seq<ExtReal>, alphas: seq<ExtReal>,
                          children: seq<seq<real>>, bestIdx: Option<nat>, best: Option<seq<real>>, bestMove: Option<Move>)
    requires e.Ok() && d < e.depth
    requires s0.toMove < e.config.numPlayers && |a0| == e.config.numPlayers
  {
    var p := s0.toMove;
    && |children| <= |moves| && |alphas| == |a0|
    && alphas == a0[p := alphas[p]] && AtMost(a0[p], alphas[p])
    && (forall j :: 0 <= j < |children| ==> |children[j]| == e.config.numPlayers)
    && (bestIdx.None? <==> children == [])
    && (bestIdx.Some? ==>
          bestIdx.value < |children| && best == Some(children[bestIdx.value]) && bestMove == Some(moves[bestIdx.value]))
    && (bestIdx.None? ==> best.None? && bestMove.None?)
    && SweepMoves(e, s0, d, moves, alphas, children, bestIdx) == SweepMoves(e, s0, d, moves, a0, [], None)
  }

  /**
   * One turn of the move loop: a child that is not strictly better is only recorded; a
   * strictly better one becomes the best and then either ends the sweep (pruning) or
   * raises the mover's alpha.
   */
  lemma ScanStep(e: Setup, s0: GameState, d: nat, moves: seq<Move>, a0: seq<ExtReal>, alphas: seq<ExtReal>,
                 children: seq<seq<real>>, bestIdx: Option<nat>, best: Option<seq<real>>, bestMove: Option<Move>,
                 child: seq<real>)
    requires e.Ok() && d < e.depth
    requires s0.toMove < e.config.numPlayers && |a0| == e.config.numPlayers
    requires Scanned(e, s0, d, moves, a0, alphas, children, bestIdx, best, bestMove) && |children| < |moves|
    requires child == Explore(e, e.rules.transition(e.config, s0, moves[|children|]), d + 1, alphas).score
    ensures var p, i := s0.toMove, |children|;
      && |child| == e.config.numPlayers
      && (best.None? || child[p] > best.value[p] ==>
            if CanPrune(child, alphas, p) then
              SweepMoves(e, s0, d, moves, a0, [], None) == Sweep(children + [child], Some(i))
            else
              Scanned(e, s0, d, moves, a0, alphas[p := Raise(alphas[p], child[p])],
                      children + [child], Some(i), Some(child), Some(moves[i])))
      && (!(best.None? || child[p] > best.value[p]) ==>
            Scanned(e, s0, d, moves, a0, alphas, children + [child], bestIdx, best, bestMove))
  {
    SweepStep(e, s0, d, moves, alphas, children, bestIdx);
  }

  /** Once every move has been seen, the kept child and move are those of the whole sweep. */
  lemma ScanDone(e: Setup, s0: GameState, d: nat, moves: seq<Move>, a0: seq<ExtReal>, alphas: seq<ExtReal>,
                 children: seq<seq<real>>, bestIdx: Option<nat>, best: Option<seq<real>>, bestMove: Option<Move>)
    requires e.Ok() && d < e.depth
    requires s0.toMove < e.config.numPlayers && |a0| == e.config.numPlayers
    requires Scanned(e, s0, d, moves, a0, alphas, children, bestIdx, best, bestMove) && |children| == |moves|
    ensures var sw := SweepMoves(e, s0, d, moves, a0, [], None);
      && (sw.best.None? ==> best.None? && bestMove.None?)
      && (sw.best.Some? ==> best == Some(sw.children[sw.best.value]) && bestMove == Some(moves[sw.best.value]))
  {
  }

  /**
   * The move loop of `dfs`: each move is applied, searched one level deeper and undone.
   * A child strictly better for the mover becomes the best; a new best either prunes the
   * remaining moves or raises the mover's alpha. On return the state is the one on entry,
   * the mover's alpha has only grown, the other seats' alphas are untouched, and the best
   * score and move are those of `SweepMoves`.
   */
  method SearchMoves(game: Game, d: nat, alphas: array<ExtReal>, eval: GameState -> seq<real>, depth: nat, moves: seq<Move>)
    returns (best: Option<seq<real>>, bestMove: Option<Move>)
    requires game.Valid() && Setup(game.rules, game.config, eval, depth).Ok()
    requires d < depth && alphas.Length == game.config.numPlayers
    modifies game, alphas
    ensures game.Valid() && game.state == old(game.state)
    ensures alphas[..] == old(alphas[..])[old(game.state).toMove := alphas[old(game.state).toMove]]
    ensures AtMost(old(alphas[..])[old(game.state).toMove], alphas[old(game.state).toMove])
    ensures var sw := SweepMoves(Setup(game.rules, game.config, eval, depth), old(game.state), d, moves, old(alphas[..]), [], None);
      && (sw.best.None? ==> best.None? && bestMove.None?)
      && (sw.best.Some? ==> best == Some(sw.children[sw.best.value]) && bestMove == Some(moves[sw.best.value]))
    decreases depth - d, 1
  {
    ghost var e := Setup(game.rules, game.config, eval, depth);
    var p := game.GetToMove();
    best, bestMove := None, None;
    ghost var s0 := game.state;
    ghost var a0 := alphas[..];
    ghost var children: seq<seq<real>> := [];
    ghost var bestIdx: Option<nat> := None;
    var i := 0;
    while i < |moves|
      invariant 0 <= i <= |moves| && |children| == i
      invariant game.state == s0 && game.Valid()
      invariant Scanned(e, s0, d, moves, a0, alphas[..], children, bestIdx, best, bestMove)
    {
      var saved := game.state;
      ghost var before := alphas[..];
      var childScore := SearchChild(game, d, alphas, eval, depth, moves[i]);
      ScanStep(e, s0, d, moves, a0, before, children, bestIdx, best, bestMove, childScore);
      children := children + [childScore];
      if best.None? || childScore[p] > best.value[p] {
        best := Some(childScore);
        bestMove := Some(moves[i]);
        bestIdx := Some(i);
        if CanPrune(childScore, alphas[..], p) {
          game.SetState(saved);
          return;
        }
        alphas[p] := Raise(alphas[p], childScore[p]);
        assert alphas[..] == before[p := Raise(before[p], childScore[p])];
      }
      game.SetState(saved);
      i := i + 1;
    }
    ScanDone(e, s0, d, moves, a0, alphas[..], children, bestIdx, best, bestMove);
  }

  /**
   * The first half of one turn of the move loop: `m` is applied to the live game and the
   * child is searched one level deeper. The alphas come back unchanged and the game is
   * left in the child's state, for the loop to put the saved state back.
   */
  method SearchChild(game: Game, d: nat, alphas: array<ExtReal>, eval: GameState -> seq<real>, depth: nat, m: Move)
    returns (childScore: seq<real>)
    requires game.Valid() && Setup(game.rules, game.config, eval, depth).Ok()
    requires d < depth && alphas.Length == game.config.numPlayers
    modifies game, alphas
    ensures game.Valid() && alphas[..] == old(alphas[..])
    ensures childScore == Explore(Setup(game.rules, game.config, eval, depth),
                                  game.rules.transition(game.config, old(game.state), m), d + 1, old(alphas[..])).score
    decreases depth - d, 0
  {
    game.Transition(m);
    var childMove;
    childScore, childMove := Dfs(game, d + 1, alphas, eval, depth);
  }

  /**
   * `minimax_move`: every alpha starts at minus infinity, the search runs from depth 0, and
   * the result is the root mover's entry of the score with the move chosen. The game is
   * left in its state on entry; with a depth limit of 0 no move is ever chosen.
   */
  method MinimaxMove(game: Game, eval: GameState -> seq<real>, depth: nat) returns (value: real, bestMove: Option<Move>)
    requires game.Valid() && Setup(game.rules, game.config, eval, depth).Ok()
    modifies game
    ensures game.Valid() && game.state == old(game.state)
    ensures var res := Explore(Setup(game.rules, game.config, eval, depth), old(game.state), 0,
                               seq(game.config.numPlayers, _ => NegInf));
      value == res.score[old(game.state).toMove] && bestMove == res.move
    ensures depth == 0 ==> bestMove.None?
  {
    var alphas := new ExtReal[game.GetNumPlayers()](_ => NegInf);
    assert alphas[..] == seq(game.config.numPlayers, _ => NegInf);
    var score;
    score, bestMove := Dfs(game, 0, alphas, eval, depth);
    value := score[game.GetToMove()];
  }
}
