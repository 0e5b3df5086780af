/**
 * How far the pruning of `dfs` can be trusted. `FullExplore` is the search with the pruning
 * break taken out: every move of every node is searched. The cut of `dfs` compares the
 * mover's score with the alphas of every other seat along the whole path; with three or
 * more seats that can change the root's choice (`DeepCutChangesRootChoice`). A cut that
 * compares only with what the parent has already kept for its own mover (`SoundExplore`)
 * never does: it returns exactly the full search (`SoundSearchIsFull`).
 */
module Pruning {
  import opened Elements
  import opened Scores
  import opened GameStates
  import opened NewGame
  import opened Opt

  /** The child a node keeps: its index among the moves and its score vector. */
  datatype Kept = Kept(index: nat, score: seq<real>)

  /** A kept child fits the node: its index names a move and its vector has one entry per seat. */
  predicate Fits(k: Option<Kept>, moves: seq<Move>, n: nat)
  {
    k.Some? ==> k.value.index < |moves| && |k.value.score| == n
  }

  /** The search without the pruning break: every move is searched and the first strictly best child is kept. */
  function FullExplore(e: Setup, s: GameState, d: nat): (res: Node)
    requires e.Ok() && d <= e.depth && s.toMove < e.config.numPlayers
    ensures |res.score| == e.config.numPlayers
    decreases e.depth - d, 1, 0
  {
    if Status(e.rules, e.config, s) != Ongoing then Node(Score(e.rules, e.config, s), None)
    else if d == e.depth then Node(e.eval(s), None)
    else
      var moves := e.rules.validMoves(e.config, s);
      match FullSweep(e, s, d, moves, 0, None)
      case None => Node(Zeros(e.config.numPlayers), None)
      case Some(k) => Node(k.score, Some(moves[k.index]))
  }

  /** The move loop without the break, from move `i` on, with `best` kept so far. */
  function FullSweep(e: Setup, s: GameState, d: nat, moves: seq<Move>, i: nat, best: Option<Kept>): (r: Option<Kept>)
    requires e.Ok() && d < e.depth && s.toMove < e.config.numPlayers
    requires i <= |moves| && Fits(best, moves, e.config.numPlayers)
    ensures Fits(r, moves, e.config.numPlayers)
    ensures r.None? <==> best.None? && i == |moves|
    decreases e.depth - d, 0, |moves| - i
  {
    if i == |moves| then best
    else
      var p := s.toMove;
      var child := FullExplore(e, e.rules.transition(e.config, s, moves[i]), d + 1).score;
      if best.None? || child[p] > best.value.score[p] then FullSweep(e, s, d, moves, i + 1, Some(Kept(i, child)))
      else FullSweep(e, s, d, moves, i + 1, best)
  }

  /**
   * The corrected cut: the mover `p` stops looking at siblings once its new best leaves
   * less than `b` for the parent's mover `q`, where `b` is what the parent has already kept
   * for `q`. A parent of the same seat imposes no cut.
   */
  predicate ParentCut(child: seq<real>, p: nat, q: nat, b: ExtReal)
    requires p < |child|
  {
    q != p && b.Fin? && child[p] > 1.0 - b.r
  }

  /** The search with the corrected cut; `q` is the parent's mover and `b` its kept score for `q` (minus infinity at the root). */
  function SoundExplore(e: Setup, s: GameState, d: nat, q: nat, b: ExtReal): (res: Node)
    requires e.Ok() && d <= e.depth && s.toMove < e.config.numPlayers
    ensures |res.score| == e.config.numPlayers
    decreases e.depth - d, 1, 0
  {
    if Status(e.rules, e.config, s) != Ongoing then Node(Score(e.rules, e.config, s), None)
    else if d == e.depth then Node(e.eval(s), None)
    else
      var moves := e.rules.validMoves(e.config, s);
      match SoundSweep(e, s, d, moves, q, b, 0, None)
      case None => Node(Zeros(e.config.numPlayers), None)
      case Some(k) => Node(k.score, Some(moves[k.index]))
  }

  /** What a node has kept so far for its own mover, as the bound its next child is searched under. */
  function KeptBound(best: Option<Kept>, p: nat): ExtReal
    requires best.Some? ==> p < |best.value.score|
  {
    if best.None? then NegInf else Fin(best.value.score[p])
  }

  /** The move loop with the corrected cut. */
  function SoundSweep(e: Setup, s: GameState, d: nat, moves: seq<Move>, q: nat, b: ExtReal, i: nat, best: Option<Kept>): (r: Option<Kept>)
    requires e.Ok() && d < e.depth && s.toMove < e.config.numPlayers
    requires i <= |moves| && Fits(best, moves, e.config.numPlayers)
    ensures Fits(r, moves, e.config.numPlayers)
    ensures r.None? <==> best.None? && i == |moves|
    decreases e.depth - d, 0, |moves| - i
  {
    if i == |moves| then best
    else
      var p := s.toMove;
      var child := SoundExplore(e, e.rules.transition(e.config, s, moves[i]), d + 1, p, KeptBound(best, p)).score;
      if best.None? || child[p] > best.value.score[p] then
        if ParentCut(child, p, q, b) then Some(Kept(i, child))
        else SoundSweep(e, s, d, moves, q, b, i + 1, Some(Kept(i, child)))
      else SoundSweep(e, s, d, moves, q, b, i + 1, best)
  }

  /** In a score vector a search returns, one seat's share is at most one minus another's. */
  lemma SharesBound(v: seq<real>, n: nat, p: nat, q: nat)
    requires IsShares(v, n) && p < n && q < n && p != q
    ensures v[q] <= 1.0 - v[p]
  {
    if v != Zeros(n) {
      PairAtMostSum(v, p, q);
    }
  }

  /** The full loop never keeps a child worse for the mover than the one it started with. */
  lemma {:induction false} FullSweepKeepsBest(e: Setup, s: GameState, d: nat, moves: seq<Move>, i: nat, k: Kept)
    requires e.Ok() && d < e.depth && s.toMove < e.config.numPlayers
    requires i <= |moves| && Fits(Some(k), moves, e.config.numPlayers)
    ensures FullSweep(e, s, d, moves, i, Some(k)).value.score[s.toMove] >= k.score[s.toMove]
    decreases |moves| - i
  {
    if i < |moves| {
      var p := s.toMove;
      var child := FullExplore(e, e.rules.transition(e.config, s, moves[i]), d + 1).score;
      if child[p] > k.score[p] {
        FullSweepKeepsBest(e, s, d, moves, i + 1, Kept(i, child));
      } else {
        FullSweepKeepsBest(e, s, d, moves, i + 1, k);
      }
    }
  }

  /**
   * A node searched with the corrected cut returns exactly the full search's result, or
   * else a cut happened there and both results leave the parent's mover `q` less than the
   * `b` the parent has already kept, so the parent keeps neither. Both results are score
   * vectors a search may return.
   */
  lemma {:induction false} SoundAgrees(e: Setup, s: GameState, d: nat, q: nat, b: ExtReal)
    requires e.Ok() && e.EvalIsDistribution() && d <= e.depth
    requires s.toMove < e.config.numPlayers && q < e.config.numPlayers
    ensures IsShares(SoundExplore(e, s, d, q, b).score, e.config.numPlayers)
    ensures IsShares(FullExplore(e, s, d).score, e.config.numPlayers)
    ensures SoundExplore(e, s, d, q, b) == FullExplore(e, s, d) ||
      (b.Fin? && SoundExplore(e, s, d, q, b).score[q] < b.r && FullExplore(e, s, d).score[q] < b.r)
    decreases e.depth - d, 1
  {
    var n := e.config.numPlayers;
    if Status(e.rules, e.config, s) != Ongoing {
      ScoreSpec(e.rules, e.config, s);
    } else if d < e.depth {
      var moves := e.rules.validMoves(e.config, s);
      var p := s.toMove;
      SweepAgrees(e, s, d, moves, q, b, 0, None);
      var ps := SoundSweep(e, s, d, moves, q, b, 0, None);
      var fs := FullSweep(e, s, d, moves, 0, None);
      if ps != fs {
        SharesBound(ps.value.score, n, p, q);
        SharesBound(fs.value.score, n, p, q);
      }
    }
  }

  /**
   * The two move loops, started from the same kept child, end with the same kept child, or
   * else the corrected loop cut on a child that leaves the parent's mover less than `b`
   * and the full loop keeps a child at least as good for the mover.
   */
  lemma {:induction false} SweepAgrees(e: Setup, s: GameState, d: nat, moves: seq<Move>, q: nat, b: ExtReal, i: nat, best: Option<Kept>)
    requires e.Ok() && e.EvalIsDistribution() && d < e.depth
    requires s.toMove < e.config.numPlayers && q < e.config.numPlayers
    requires i <= |moves| && Fits(best, moves, e.config.numPlayers)
    requires best.Some? ==> IsShares(best.value.score, e.config.numPlayers)
    ensures var ps := SoundSweep(e, s, d, moves, q, b, i, best);
      var fs := FullSweep(e, s, d, moves, i, best);
      && (ps.Some? ==> IsShares(ps.value.score, e.config.numPlayers))
      && (fs.Some? ==> IsShares(fs.value.score, e.config.numPlayers))
      && (ps == fs ||
           (ps.Some? && fs.Some? && ParentCut(ps.value.score, s.toMove, q, b)
            && fs.value.score[s.toMove] >= ps.value.score[s.toMove]))
    decreases e.depth - d, 0, |moves| - i
  {
    if i < |moves| {
      var p := s.toMove;
      var next := e.rules.transition(e.config, s, moves[i]);
      var bound := KeptBound(best, p);
      SoundAgrees(e, next, d + 1, p, bound);
      var sc := SoundExplore(e, next, d + 1, p, bound).score;
      var fc := FullExplore(e, next, d + 1).score;
      if best.None? || sc[p] > best.value.score[p] {
        assert sc == fc;
        if ParentCut(sc, p, q, b) {
          FullSweepKeepsBest(e, s, d, moves, i + 1, Kept(i, sc));
          SweepAgrees(e, s, d, moves, q, b, i + 1, Some(Kept(i, sc)));
        } else {
          SweepAgrees(e, s, d, moves, q, b, i + 1, Some(Kept(i, sc)));
        }
      } else {
        assert !(fc[p] > best.value.score[p]);
        SweepAgrees(e, s, d, moves, q, b, i + 1, best);
      }
    }
  }

  /**
   * Pruning soundness for the corrected cut: with no parent bound (at the root, or below a
   * parent that has kept nothing yet) the search returns the same score vector and the same
   * move as the search that looks at every move.
   */
  lemma SoundSearchIsFull(e: Setup, s: GameState, d: nat, q: nat)
    requires e.Ok() && e.EvalIsDistribution() && d <= e.depth
    requires s.toMove < e.config.numPlayers && q < e.config.numPlayers
    ensures SoundExplore(e, s, d, q, NegInf) == FullExplore(e, s, d)
  {
    SoundAgrees(e, s, d, q, NegInf);
  }

  /** The columns of the moves that led from the root to `s`, kept as the one row of its board. */
  function Path(s: GameState): seq<int>
  {
    if |s.board| > 0 then s.board[0] else []
  }

  /** The moves of the three-seat tree below: two at the root, at `B` and at `C`, one elsewhere above the leaves. */
  function TreeMoves(c: Config, s: GameState): seq<Move>
  {
    var path := Path(s);
    if path == [] || path == [1] || path == [1, 0] then [Move(0, 0), Move(0, 1)]
    else if path == [0] || path == [0, 0] || path == [1, 1] then [Move(0, 0)]
    else []
  }

  /** A move of the tree passes the turn round three seats and appends its column to the path. */
  function TreeStep(c: Config, s: GameState, m: Move): GameState
  {
    GameState((s.toMove + 1) % 3, s.moveNum + 1, [Path(s) + [m.col]])
  }

  /** The leaf values of the tree. */
  function TreeEval(s: GameState): seq<real>
  {
    var path := Path(s);
    if path == [0, 0, 0] then [0.5, 0.25, 0.25]
    else if path == [1, 0, 0] then [0.0, 0.3, 0.7]
    else if path == [1, 0, 1] then [0.0, 0.0, 1.0]
    else if path == [1, 1, 0] then [0.6, 0.2, 0.2]
    else [1.0 / 3.0, 1.0 / 3.0, 1.0 / 3.0]
  }

  /**
   * A three-seat game tree with no wins or ties, searched to depth 3. Seat 0 at the root
   * chooses between a line worth (0.5, 0.25, 0.25) and a seat 1 node `B`; under `B`, seat 2
   * chooses at `C` between (0, 0.3, 0.7) and (0, 0, 1), and at `Y` has only (0.6, 0.2, 0.2).
   */
  function ThreeSeatTree(): (e: Setup)
    ensures e.Ok()
  {
    Setup(Rules(TreeMoves, TreeStep, (c: Config, s: GameState, p: nat) => false, (c: Config, s: GameState) => false),
          Config(1, 2, 3, 3), TreeEval, 3)
  }

  /** Every state of the tree is ongoing: nobody wins and nobody ties. */
  lemma TreeOngoing(s: GameState)
    ensures Status(ThreeSeatTree().rules, ThreeSeatTree().config, s) == Ongoing
  {
    FirstWinnerNone(ThreeSeatTree().rules, ThreeSeatTree().config, s, 0);
  }

  /** A node of the tree with one move: `dfs` and the full search both keep its only child. */
  lemma TreeOneMove(s: GameState, d: nat, alphas: seq<ExtReal>, v: seq<real>)
    requires s.toMove < 3 && d < 3 && |alphas| == 3
    requires TreeMoves(Config(1, 2, 3, 3), s) == [Move(0, 0)]
    requires Explore(ThreeSeatTree(), TreeStep(Config(1, 2, 3, 3), s, Move(0, 0)), d + 1, alphas).score == v
    requires FullExplore(ThreeSeatTree(), TreeStep(Config(1, 2, 3, 3), s, Move(0, 0)), d + 1).score == v
    ensures Explore(ThreeSeatTree(), s, d, alphas) == Node(v, Some(Move(0, 0)))
    ensures FullExplore(ThreeSeatTree(), s, d) == Node(v, Some(Move(0, 0)))
  {
    var e := ThreeSeatTree();
    TreeOngoing(s);
    SweepStep(e, s, d, [Move(0, 0)], alphas, [], None);
    if !CanPrune(v, alphas, s.toMove) {
      var p := s.toMove;
      assert SweepMoves(e, s, d, [Move(0, 0)], alphas[p := Raise(alphas[p], v[p])], [v], Some(0)) == Sweep([v], Some(0));
    }
  }

  /** A leaf of the tree, at the depth limit, is worth what the evaluator says. */
  lemma TreeLeaf(s: GameState, alphas: seq<ExtReal>)
    requires s.toMove < 3 && |alphas| == 3
    ensures Explore(ThreeSeatTree(), s, 3, alphas) == Node(TreeEval(s), None)
    ensures FullExplore(ThreeSeatTree(), s, 3) == Node(TreeEval(s), None)
  {
    TreeOngoing(s);
  }

  /** The first line from the root: seat 1 and then seat 2 have one move each, to (0.5, 0.25, 0.25). */
  lemma TreeFirstLine()
    ensures Explore(ThreeSeatTree(), GameState(1, 1, [[0]]), 1, [NegInf, NegInf, NegInf]) ==
      Node([0.5, 0.25, 0.25], Some(Move(0, 0)))
    ensures FullExplore(ThreeSeatTree(), GameState(1, 1, [[0]]), 1) == Node([0.5, 0.25, 0.25], Some(Move(0, 0)))
  {
    var ni := [NegInf, NegInf, NegInf];
    var cf := Config(1, 2, 3, 3);
    var a1, b1, l := GameState(1, 1, [[0]]), GameState(2, 2, [[0, 0]]), GameState(0, 3, [[0, 0, 0]]);
    assert Path(b1) == [0, 0];
    assert Path(b1) + [0] == [0, 0, 0];
    assert TreeStep(cf, b1, Move(0, 0)) == l;
    assert Path(a1) == [0];
    assert Path(a1) + [0] == [0, 0];
    assert TreeStep(cf, a1, Move(0, 0)) == b1;
    TreeLeaf(l, ni);
    TreeOneMove(b1, 2, ni, [0.5, 0.25, 0.25]);
    TreeOneMove(a1, 1, ni, [0.5, 0.25, 0.25]);
  }

  /** `C` under the root's alpha 0.5: `dfs` cuts after (0, 0.3, 0.7), as 0.7 > 1 - 0.5. */
  lemma TreePrunedC()
    ensures Explore(ThreeSeatTree(), GameState(2, 2, [[1, 0]]), 2, [Fin(0.5), NegInf, NegInf]) ==
      Node([0.0, 0.3, 0.7], Some(Move(0, 0)))
  {
    var e := ThreeSeatTree();
    var half := [Fin(0.5), NegInf, NegInf];
    var c, c0 := GameState(2, 2, [[1, 0]]), GameState(0, 3, [[1, 0, 0]]);
    assert Path(c) == [1, 0];
    assert Path(c) + [0] == [1, 0, 0];
    assert TreeStep(e.config, c, Move(0, 0)) == c0;
    TreeOngoing(c);
    TreeLeaf(c0, half);
    assert MaxOther(half, 2) == Fin(0.5);
    SweepStep(e, c, 2, [Move(0, 0), Move(0, 1)], half, [], None);
  }

  /** `C` searched in full keeps (0, 0, 1). */
  lemma TreeFullC()
    ensures FullExplore(ThreeSeatTree(), GameState(2, 2, [[1, 0]]), 2) == Node([0.0, 0.0, 1.0], Some(Move(0, 1)))
  {
    var e := ThreeSeatTree();
    var ni := [NegInf, NegInf, NegInf];
    var c, c0, c1 := GameState(2, 2, [[1, 0]]), GameState(0, 3, [[1, 0, 0]]), GameState(0, 3, [[1, 0, 1]]);
    assert Path(c) == [1, 0];
    assert Path(c) + [0] == [1, 0, 0];
    assert TreeStep(e.config, c, Move(0, 0)) == c0;
    assert Path(c) + [1] == [1, 0, 1];
    assert TreeStep(e.config, c, Move(0, 1)) == c1;
    TreeOngoing(c);
    TreeLeaf(c0, ni);
    TreeLeaf(c1, ni);
    var ms, k1 := [Move(0, 0), Move(0, 1)], Kept(1, [0.0, 0.0, 1.0]);
    assert TreeMoves(e.config, c) == ms;
    assert FullSweep(e, c, 2, ms, 1, Some(Kept(0, [0.0, 0.3, 0.7]))) == FullSweep(e, c, 2, ms, 2, Some(k1));
    assert FullSweep(e, c, 2, ms, 0, None) == Some(k1);
  }

  /** `B` under the root's alpha 0.5: `dfs` keeps the cut value of `C` over `Y`'s (0.6, 0.2, 0.2). */
  lemma TreePrunedB()
    ensures Explore(ThreeSeatTree(), GameState(1, 1, [[1]]), 1, [Fin(0.5), NegInf, NegInf]) ==
      Node([0.0, 0.3, 0.7], Some(Move(0, 0)))
  {
    var e := ThreeSeatTree();
    var half, both := [Fin(0.5), NegInf, NegInf], [Fin(0.5), Fin(0.3), NegInf];
    var b, c, y, y0 := GameState(1, 1, [[1]]), GameState(2, 2, [[1, 0]]), GameState(2, 2, [[1, 1]]), GameState(0, 3, [[1, 1, 0]]);
    var ms := [Move(0, 0), Move(0, 1)];
    assert Path(b) == [1];
    assert Path(b) + [0] == [1, 0];
    assert TreeStep(e.config, b, Move(0, 0)) == c;
    assert Path(b) + [1] == [1, 1];
    assert TreeStep(e.config, b, Move(0, 1)) == y;
    assert Path(y) == [1, 1];
    assert Path(y) + [0] == [1, 1, 0];
    assert TreeStep(e.config, y, Move(0, 0)) == y0;
    TreeOngoing(b);
    TreePrunedC();
    TreeLeaf(y0, both);
    TreeFullY();
    TreeOneMove(y, 2, both, [0.6, 0.2, 0.2]);
    assert MaxOther(half, 1) == Fin(0.5);
    assert half[1 := Raise(half[1], 0.3)] == both;
    SweepStep(e, b, 1, ms, half, [], None);
    SweepStep(e, b, 1, ms, both, [[0.0, 0.3, 0.7]], Some(0));
  }

  /** `Y` searched in full is worth its one leaf. */
  lemma TreeFullY()
    ensures FullExplore(ThreeSeatTree(), GameState(2, 2, [[1, 1]]), 2) == Node([0.6, 0.2, 0.2], Some(Move(0, 0)))
  {
    var ni := [NegInf, NegInf, NegInf];
    var y, y0 := GameState(2, 2, [[1, 1]]), GameState(0, 3, [[1, 1, 0]]);
    assert Path(y) == [1, 1];
    assert Path(y) + [0] == [1, 1, 0];
    assert TreeStep(Config(1, 2, 3, 3), y, Move(0, 0)) == y0;
    TreeLeaf(y0, ni);
    TreeOneMove(y, 2, ni, [0.6, 0.2, 0.2]);
  }

  /** `B` searched in full keeps `Y`'s (0.6, 0.2, 0.2) over `C`'s (0, 0, 1). */
  lemma TreeFullB()
    ensures FullExplore(ThreeSeatTree(), GameState(1, 1, [[1]]), 1) == Node([0.6, 0.2, 0.2], Some(Move(0, 1)))
  {
    var e := ThreeSeatTree();
    var b, c, y := GameState(1, 1, [[1]]), GameState(2, 2, [[1, 0]]), GameState(2, 2, [[1, 1]]);
    assert Path(b) == [1];
    assert Path(b) + [0] == [1, 0];
    assert TreeStep(e.config, b, Move(0, 0)) == c;
    assert Path(b) + [1] == [1, 1];
    assert TreeStep(e.config, b, Move(0, 1)) == y;
    TreeOngoing(b);
    TreeFullC();
    TreeFullY();
    var ms, k1 := [Move(0, 0), Move(0, 1)], Kept(1, [0.6, 0.2, 0.2]);
    assert TreeMoves(e.config, b) == ms;
    assert FullSweep(e, b, 1, ms, 1, Some(Kept(0, [0.0, 0.0, 1.0]))) == FullSweep(e, b, 1, ms, 2, Some(k1));
    assert FullSweep(e, b, 1, ms, 0, None) == Some(k1);
  }

  /** The root as `dfs` searches it: after 0.5 on (0, 0), `B` comes back with (0, 0.3, 0.7) and the root keeps (0, 0). */
  lemma TreePrunedRoot()
    ensures Explore(ThreeSeatTree(), GameState(0, 0, [[]]), 0, [NegInf, NegInf, NegInf]) ==
      Node([0.5, 0.25, 0.25], Some(Move(0, 0)))
  {
    var e := ThreeSeatTree();
    var ni, half := [NegInf, NegInf, NegInf], [Fin(0.5), NegInf, NegInf];
    var a, a1, b := GameState(0, 0, [[]]), GameState(1, 1, [[0]]), GameState(1, 1, [[1]]);
    var ms := [Move(0, 0), Move(0, 1)];
    assert Path(a) == [];
    assert Path(a) + [0] == [0];
    assert TreeStep(e.config, a, Move(0, 0)) == a1;
    assert Path(a) + [1] == [1];
    assert TreeStep(e.config, a, Move(0, 1)) == b;
    TreeOngoing(a);
    TreeFirstLine();
    TreePrunedB();
    assert MaxOther(ni, 0) == NegInf;
    assert ni[0 := Raise(ni[0], 0.5)] == half;
    SweepStep(e, a, 0, ms, ni, [], None);
    SweepStep(e, a, 0, ms, half, [[0.5, 0.25, 0.25]], Some(0));
  }

  /** The root searched in full: `B`'s (0.6, 0.2, 0.2) beats (0.5, 0.25, 0.25) for seat 0. */
  lemma TreeFullRoot()
    ensures FullExplore(ThreeSeatTree(), GameState(0, 0, [[]]), 0) == Node([0.6, 0.2, 0.2], Some(Move(0, 1)))
  {
    var e := ThreeSeatTree();
    var a, a1, b := GameState(0, 0, [[]]), GameState(1, 1, [[0]]), GameState(1, 1, [[1]]);
    assert Path(a) == [];
    assert Path(a) + [0] == [0];
    assert TreeStep(e.config, a, Move(0, 0)) == a1;
    assert Path(a) + [1] == [1];
    assert TreeStep(e.config, a, Move(0, 1)) == b;
    TreeOngoing(a);
    TreeFirstLine();
    TreeFullB();
    var ms, k1 := [Move(0, 0), Move(0, 1)], Kept(1, [0.6, 0.2, 0.2]);
    assert TreeMoves(e.config, a) == ms;
    assert FullSweep(e, a, 0, ms, 1, Some(Kept(0, [0.5, 0.25, 0.25]))) == FullSweep(e, a, 0, ms, 2, Some(k1));
    assert FullSweep(e, a, 0, ms, 0, None) == Some(k1);
  }

  /**
   * The cut of `dfs` with three seats changes the root's choice. At `C`, seat 2's first
   * child (0, 0.3, 0.7) leaves less than 1 - 0.5 to seat 0, which has kept 0.5 at the
   * root, so `dfs` never looks at (0, 0, 1); `B` then keeps (0, 0.3, 0.7) over
   * (0.6, 0.2, 0.2) and the root keeps its first move with 0.5. Searched in full, `C` is
   * worth (0, 0, 1), `B` is worth (0.6, 0.2, 0.2) and the root takes its second move with
   * 0.6.
   */
  lemma DeepCutChangesRootChoice()
    ensures Explore(ThreeSeatTree(), GameState(0, 0, [[]]), 0, [NegInf, NegInf, NegInf]) ==
      Node([0.5, 0.25, 0.25], Some(Move(0, 0)))
    ensures FullExplore(ThreeSeatTree(), GameState(0, 0, [[]]), 0) == Node([0.6, 0.2, 0.2], Some(Move(0, 1)))
  {
    TreePrunedRoot();
    TreeFullRoot();
  }
}
