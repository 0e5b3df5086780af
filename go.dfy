/**
 * Go on the integer board of `GameState` (`-1` is an empty cell, a seat's stone is its
 * index): every empty cell is a move; a move puts the mover's stone down and then takes
 * off every stone of the opponent whose group has no liberty left. Scoring is not
 * implemented, so no state is a win or a tie.
 */
module Go {
  import opened Elements
  import opened GameStates
  import opened Grid
  import NewGame

  type Config = NewGame.Config

  const Empty: int := -1

  /** The neighbour offsets `is_captured` tries, in its order. */
  const Offsets: seq<(int, int)> := [(0, 1), (1, 0), (0, -1), (-1, 0)]

  /** The board has the configured number of rows, each `numCols` cells long. */
  predicate WellFormed(c: Config, s: GameState)
  {
    IsGrid(s.board, c.numRows, c.numCols)
  }

  predicate OnGrid(b: seq<seq<int>>, cols: nat, r: int, c: int)
  {
    0 <= r < |b| && 0 <= c < cols
  }

  /** Every cell of a `rows` by `cols` board. */
  ghost function Cells(rows: nat, cols: nat): set<Move>
  {
    set r: nat, c: nat | r < rows && c < cols :: Move(r, c)
  }

  /** `GoValidMoves`: every empty cell, row by row. */
  method ValidMoves(c: Config, s: GameState) returns (moves: seq<Move>)
    ensures RowMajor(moves)
    ensures forall m :: m in moves <==> m.row < |s.board| && m.col < |s.board[m.row]| && s.board[m.row][m.col] == Empty
  {
    moves := CellsEqual(s.board, Empty);
  }

  /** Neighbour `k` of `(r, c)` is empty. */
  predicate LibertyAt(b: seq<seq<int>>, cols: nat, r: int, c: int, k: nat)
    requires IsGrid(b, |b|, cols) && k < 4
  {
    OnGrid(b, cols, r + Offsets[k].0, c + Offsets[k].1) && b[r + Offsets[k].0][c + Offsets[k].1] == Empty
  }

  /** Some neighbour of `(r, c)` on the board is empty. */
  ghost predicate HasLiberty(b: seq<seq<int>>, cols: nat, r: int, c: int)
    requires IsGrid(b, |b|, cols)
  {
    exists k: nat :: k < 4 && LibertyAt(b, cols, r, c, k)
  }

  /** `q` is one of the four neighbours of `p`. */
  ghost predicate Adjacent(p: Move, q: Move)
  {
    exists k: nat :: k < 4 && q.row == p.row + Offsets[k].0 && q.col == p.col + Offsets[k].1
  }

  /** A path of neighbouring cells on the board, each holding `stone`. */
  ghost predicate Chain(b: seq<seq<int>>, cols: nat, path: seq<Move>, stone: int)
    requires IsGrid(b, |b|, cols)
    decreases |path|
  {
    && |path| >= 1
    && path[0].row < |b| && path[0].col < cols && b[path[0].row][path[0].col] == stone
    && (|path| == 1 || (Adjacent(path[0], path[1]) && Chain(b, cols, path[1..], stone)))
  }

  /**
   * The group of `(r, c)` has a liberty: a path of its own stone leads from `(r, c)` to a
   * cell next to an empty one.
   */
  ghost predicate Escapes(b: seq<seq<int>>, cols: nat, r: nat, c: nat)
    requires IsGrid(b, |b|, cols) && r < |b| && c < cols
  {
    exists path: seq<Move> ::
      && Chain(b, cols, path, b[r][c])
      && path[0] == Move(r, c)
      && HasLiberty(b, cols, path[|path| - 1].row, path[|path| - 1].col)
  }

  /**
   * What the search has settled about neighbour `k` of `(r, c)`: if it is on the board it is
   * not empty, and if it holds the same stone it has been visited.
   */
  ghost predicate NeighbourSettled(b: seq<seq<int>>, cols: nat, r: nat, c: nat, k: nat, visited: set<Move>)
    requires IsGrid(b, |b|, cols) && r < |b| && c < cols && k < 4
  {
    var nr, nc := r + Offsets[k].0, c + Offsets[k].1;
    OnGrid(b, cols, nr, nc) ==>
      b[nr][nc] != Empty && (b[nr][nc] == b[r][c] ==> Move(nr, nc) in visited)
  }

  /** Every neighbour of `m` is settled. */
  ghost predicate Enclosed(b: seq<seq<int>>, cols: nat, m: Move, visited: set<Move>)
    requires IsGrid(b, |b|, cols) && m.row < |b| && m.col < cols
  {
    forall k: nat :: k < 4 ==> NeighbourSettled(b, cols, m.row, m.col, k, visited)
  }

  /** A set of cells of `stone`, none next to an empty cell, that holds every same-stone neighbour of its members. */
  ghost predicate Sealed(b: seq<seq<int>>, cols: nat, cells: set<Move>, stone: int)
    requires IsGrid(b, |b|, cols)
  {
    forall m :: m in cells ==>
      m.row < |b| && m.col < cols && b[m.row][m.col] == stone && Enclosed(b, cols, m, cells)
  }

  /** No path of `stone` leaves a sealed set, so none reaches a liberty. */
  lemma {:induction false} SealedPathHasNoLiberty(b: seq<seq<int>>, cols: nat, cells: set<Move>, stone: int, path: seq<Move>)
    requires IsGrid(b, |b|, cols) && Sealed(b, cols, cells, stone)
    requires Chain(b, cols, path, stone) && path[0] in cells
    ensures !HasLiberty(b, cols, path[|path| - 1].row, path[|path| - 1].col)
    decreases |path|
  {
    var m := path[0];
    assert Enclosed(b, cols, m, cells);
    if |path| == 1 {
      forall k: nat | k < 4
        ensures !LibertyAt(b, cols, m.row, m.col, k)
      {
        assert NeighbourSettled(b, cols, m.row, m.col, k, cells);
      }
    } else {
      var k: nat :| k < 4 && path[1].row == m.row + Offsets[k].0 && path[1].col == m.col + Offsets[k].1;
      assert NeighbourSettled(b, cols, m.row, m.col, k, cells);
      assert path[1] == Move(m.row + Offsets[k].0, m.col + Offsets[k].1);
      SealedPathHasNoLiberty(b, cols, cells, stone, path[1..]);
    }
  }

  /** A cell of a sealed set does not escape. */
  lemma SealedCannotEscape(b: seq<seq<int>>, cols: nat, cells: set<Move>, r: nat, c: nat)
    requires IsGrid(b, |b|, cols) && r < |b| && c < cols
    requires Sealed(b, cols, cells, b[r][c]) && Move(r, c) in cells
    ensures !Escapes(b, cols, r, c)
  {
    forall path: seq<Move> | Chain(b, cols, path, b[r][c]) && path[0] == Move(r, c)
      ensures !HasLiberty(b, cols, path[|path| - 1].row, path[|path| - 1].col)
    {
      SealedPathHasNoLiberty(b, cols, cells, b[r][c], path);
    }
  }

  /** A cell next to an empty cell escapes on its own. */
  lemma LibertyEscapes(b: seq<seq<int>>, cols: nat, r: nat, c: nat, k: nat)
    requires IsGrid(b, |b|, cols) && r < |b| && c < cols && k < 4 && LibertyAt(b, cols, r, c, k)
    ensures Escapes(b, cols, r, c)
  {
    var path := [Move(r, c)];
    assert Chain(b, cols, path, b[r][c]);
    assert HasLiberty(b, cols, r, c);
  }

  /** A cell whose same-stone neighbour escapes escapes too, through that neighbour. */
  lemma NeighbourEscapes(b: seq<seq<int>>, cols: nat, r: nat, c: nat, k: nat)
    requires IsGrid(b, |b|, cols) && r < |b| && c < cols && k < 4
    requires OnGrid(b, cols, r + Offsets[k].0, c + Offsets[k].1)
    requires b[r + Offsets[k].0][c + Offsets[k].1] == b[r][c]
    requires Escapes(b, cols, r + Offsets[k].0, c + Offsets[k].1)
    ensures Escapes(b, cols, r, c)
  {
    var nr, nc := r + Offsets[k].0, c + Offsets[k].1;
    var rest: seq<Move> :| Chain(b, cols, rest, b[nr][nc]) && rest[0] == Move(nr, nc)
      && HasLiberty(b, cols, rest[|rest| - 1].row, rest[|rest| - 1].col);
    var path := [Move(r, c)] + rest;
    assert path[1..] == rest;
    assert Adjacent(path[0], path[1]);
    assert Chain(b, cols, path, b[r][c]);
    assert path[|path| - 1] == rest[|rest| - 1];
  }

  /**
   * `is_captured`: a depth-first search over the stones of `(row, col)`'s colour that
   * shares one visited set across all its calls. A visited cell counts as captured; an
   * empty neighbour, or a same-stone neighbour whose search fails, makes the answer false.
   * The search only grows the visited set. When it answers false, `(row, col)` escapes;
   * when it answers true, every cell it newly visited holds the stone of `(row, col)` and
   * has all its neighbours settled.
   */
  method IsCaptured(b: seq<seq<int>>, cols: nat, row: nat, col: nat, visited: set<Move>)
    returns (captured: bool, after: set<Move>)
    requires IsGrid(b, |b|, cols) && row < |b| && col < cols
    requires visited <= Cells(|b|, cols)
    ensures visited <= after <= Cells(|b|, cols)
    ensures Move(row, col) in after
    ensures Move(row, col) in visited ==> captured && after == visited
    ensures captured ==> forall m :: m in after - visited ==>
      m.row < |b| && m.col < cols && b[m.row][m.col] == b[row][col] && Enclosed(b, cols, m, after)
    ensures !captured ==> Escapes(b, cols, row, col)
    decreases Cells(|b|, cols) - visited
  {
    if Move(row, col) in visited {
      return true, visited;
    }
    after := visited + {Move(row, col)};
    var stone := b[row][col];
    for k := 0 to 4
      invariant visited <= after <= Cells(|b|, cols)
      invariant Move(row, col) in after && Move(row, col) !in visited
      invariant forall m :: m in after - visited && m != Move(row, col) ==>
        m.row < |b| && m.col < cols && b[m.row][m.col] == stone && Enclosed(b, cols, m, after)
      invariant forall j: nat :: j < k ==> NeighbourSettled(b, cols, row, col, j, after)
    {
      var (dx, dy) := Offsets[k];
      var newRow, newCol := row + dx, col + dy;
      if newRow >= 0 && newCol >= 0 && newRow < |b| && newCol < |b[row]| {
        if b[newRow][newCol] == Empty {
          LibertyEscapes(b, cols, row, col, k);
          return false, after;
        } else if b[newRow][newCol] == stone {
          ghost var before := after;
          var sub;
          sub, after := IsCaptured(b, cols, newRow, newCol, after);
          if !sub {
            NeighbourEscapes(b, cols, row, col, k);
            return false, after;
          }
          SearchedNeighbourSettles(b, cols, row, col, k, visited, before, after);
        }
      }
    }
    captured := true;
  }

  /**
   * After a same-stone neighbour's search answered true, the cells visited so far still
   * hold the stone and are enclosed, and that neighbour is settled too.
   */
  lemma SearchedNeighbourSettles(b: seq<seq<int>>, cols: nat, row: nat, col: nat, k: nat, visited: set<Move>, before: set<Move>, after: set<Move>)
    requires IsGrid(b, |b|, cols) && row < |b| && col < cols && k < 4
    requires visited <= before <= after
    requires forall m :: m in before - visited && m != Move(row, col) ==>
      m.row < |b| && m.col < cols && b[m.row][m.col] == b[row][col] && Enclosed(b, cols, m, before)
    requires forall j: nat :: j < k ==> NeighbourSettled(b, cols, row, col, j, before)
    requires OnGrid(b, cols, row + Offsets[k].0, col + Offsets[k].1)
    requires b[row + Offsets[k].0][col + Offsets[k].1] == b[row][col] != Empty
    requires Move(row + Offsets[k].0, col + Offsets[k].1) in after
    requires forall m :: m in after - before ==>
      m.row < |b| && m.col < cols && b[m.row][m.col] == b[row][col] && Enclosed(b, cols, m, after)
    ensures forall m :: m in after - visited && m != Move(row, col) ==>
      m.row < |b| && m.col < cols && b[m.row][m.col] == b[row][col] && Enclosed(b, cols, m, after)
    ensures forall j: nat :: j <= k ==> NeighbourSettled(b, cols, row, col, j, after)
  {
    SettledGrows(b, cols, row, col, before, after);
  }

  /** A neighbour settled against a visited set stays settled as the set grows. */
  lemma SettledGrows(b: seq<seq<int>>, cols: nat, r: nat, c: nat, before: set<Move>, after: set<Move>)
    requires IsGrid(b, |b|, cols) && r < |b| && c < cols && before <= after
    ensures forall j: nat :: j < 4 && NeighbourSettled(b, cols, r, c, j, before) ==> NeighbourSettled(b, cols, r, c, j, after)
    ensures forall m: Move :: m.row < |b| && m.col < cols && Enclosed(b, cols, m, before) ==> Enclosed(b, cols, m, after)
  {
    forall m: Move | m.row < |b| && m.col < cols && Enclosed(b, cols, m, before)
      ensures Enclosed(b, cols, m, after)
    {
      forall k: nat | k < 4
        ensures NeighbourSettled(b, cols, m.row, m.col, k, after)
      {
        assert NeighbourSettled(b, cols, m.row, m.col, k, before);
      }
    }
  }

  /**
   * Started from an empty visited set, `is_captured` answers true exactly when the group of
   * `(row, col)` has no liberty: what it visited is then a sealed set around `(row, col)`.
   */
  lemma FreshSearchDecides(b: seq<seq<int>>, cols: nat, row: nat, col: nat, captured: bool, after: set<Move>)
    requires IsGrid(b, |b|, cols) && row < |b| && col < cols && Move(row, col) in after
    requires captured ==> forall m :: m in after - {} ==>
      m.row < |b| && m.col < cols && b[m.row][m.col] == b[row][col] && Enclosed(b, cols, m, after)
    requires !captured ==> Escapes(b, cols, row, col)
    ensures captured <==> !Escapes(b, cols, row, col)
  {
    if captured {
      assert Sealed(b, cols, after, b[row][col]) by {
        assert after - {} == after;
      }
      SealedCannotEscape(b, cols, after, row, col);
    }
  }

  /** A stone of `player` whose group has no liberty. */
  ghost predicate Doomed(b: seq<seq<int>>, cols: nat, player: int, r: nat, c: nat)
    requires IsGrid(b, |b|, cols) && r < |b| && c < cols
  {
    b[r][c] == player && !Escapes(b, cols, r, c)
  }

  /** The board `remove_captured_stones` leaves: every doomed stone of `player` is taken off. */
  ghost function Cleared(b: seq<seq<int>>, cols: nat, player: int): (nb: seq<seq<int>>)
    requires IsGrid(b, |b|, cols)
    ensures IsGrid(nb, |b|, cols)
  {
    seq(|b|, r requires 0 <= r < |b| =>
      seq(cols, c requires 0 <= c < cols => if Doomed(b, cols, player, r, c) then Empty else b[r][c]))
  }

  /**
   * The first half of `remove_captured_stones`: every cell is checked in row-major order,
   * and a stone of `player` whose fresh `is_captured` search answers true is noted. The
   * noted cells are exactly the doomed stones of `player`.
   */
  method CapturedCells(board: seq<seq<int>>, cols: nat, player: int) returns (toRemove: set<Move>)
    requires IsGrid(board, |board|, cols)
    ensures forall m :: m in toRemove <==> m.row < |board| && m.col < cols && Doomed(board, cols, player, m.row, m.col)
  {
    toRemove := {};
    var boardSize := |board|;
    for row := 0 to boardSize
      invariant forall m :: m in toRemove <==> m.row < row && m.col < cols && Doomed(board, cols, player, m.row, m.col)
    {
      for col := 0 to |board[row]|
        invariant forall m :: m in toRemove <==>
          && (m.row < row || (m.row == row && m.col < col))
          && m.col < cols && Doomed(board, cols, player, m.row, m.col)
      {
        if board[row][col] == player {
          var captured, seen := IsCaptured(board, cols, row, col, {});
          FreshSearchDecides(board, cols, row, col, captured, seen);
          if captured {
            toRemove := toRemove + {Move(row, col)};
          }
        }
      }
    }
  }

  /**
   * `remove_captured_stones`: the doomed stones are found on the board as it was, then
   * emptied one by one, taken from the set in any order.
   */
  method RemoveCapturedStones(board: seq<seq<int>>, cols: nat, player: int) returns (nb: seq<seq<int>>)
    requires IsGrid(board, |board|, cols)
    ensures nb == Cleared(board, cols, player)
  {
    var toRemove := CapturedCells(board, cols, player);
    nb := board;
    var remaining := toRemove;
    while remaining != {}
      invariant remaining <= toRemove
      invariant IsGrid(nb, |board|, cols)
      invariant forall r, c :: 0 <= r < |board| && 0 <= c < cols ==>
        nb[r][c] == if Move(r, c) in toRemove && Move(r, c) !in remaining then Empty else board[r][c]
      decreases |remaining|
    {
      var m :| m in remaining;
      nb := nb[m.row := nb[m.row][m.col := Empty]];
      remaining := remaining - {m};
    }
    ClearedByCells(board, cols, player, nb);
  }

  /** A board that agrees with the clearing cell by cell is the clearing. */
  lemma ClearedByCells(board: seq<seq<int>>, cols: nat, player: int, nb: seq<seq<int>>)
    requires IsGrid(board, |board|, cols) && IsGrid(nb, |board|, cols)
    requires forall r, c :: 0 <= r < |board| && 0 <= c < cols ==>
      nb[r][c] == if Doomed(board, cols, player, r, c) then Empty else board[r][c]
    ensures nb == Cleared(board, cols, player)
  {
    var cleared := Cleared(board, cols, player);
    forall r | 0 <= r < |board|
      ensures nb[r] == cleared[r]
    {
      assert forall c :: 0 <= c < cols ==> nb[r][c] == cleared[r][c];
    }
  }

  /**
   * A path of `player`'s stones that ends next to an empty cell survives the clearing: each
   * of its stones escapes along the rest of the path, and the empty cell stays empty.
   */
  lemma {:induction false} ChainSurvives(b: seq<seq<int>>, cols: nat, player: int, path: seq<Move>)
    requires IsGrid(b, |b|, cols) && player != Empty
    requires Chain(b, cols, path, player) && HasLiberty(b, cols, path[|path| - 1].row, path[|path| - 1].col)
    ensures Chain(Cleared(b, cols, player), cols, path, player)
    ensures HasLiberty(Cleared(b, cols, player), cols, path[|path| - 1].row, path[|path| - 1].col)
    decreases |path|
  {
    var nb := Cleared(b, cols, player);
    var m := path[0];
    assert Escapes(b, cols, m.row, m.col);
    assert nb[m.row][m.col] == player;
    if |path| == 1 {
      var k: nat :| k < 4 && LibertyAt(b, cols, m.row, m.col, k);
      assert LibertyAt(nb, cols, m.row, m.col, k);
    } else {
      ChainSurvives(b, cols, player, path[1..]);
      assert path[1..][|path[1..]| - 1] == path[|path| - 1];
    }
  }

  /**
   * After the clearing no group of `player` is left without a liberty: every stone of
   * `player` still on the board escapes on the new board.
   */
  lemma ClearedLeavesNoCapturedGroup(b: seq<seq<int>>, cols: nat, player: int, r: nat, c: nat)
    requires IsGrid(b, |b|, cols) && player != Empty && r < |b| && c < cols
    requires Cleared(b, cols, player)[r][c] == player
    ensures Escapes(Cleared(b, cols, player), cols, r, c)
  {
    var path: seq<Move> :| Chain(b, cols, path, b[r][c]) && path[0] == Move(r, c)
      && HasLiberty(b, cols, path[|path| - 1].row, path[|path| - 1].col);
    ChainSurvives(b, cols, player, path);
  }

  /** Clearing only ever empties stones of `player`; every other cell keeps its value. */
  lemma ClearedOnlyRemovesPlayer(b: seq<seq<int>>, cols: nat, player: int, r: nat, c: nat)
    requires IsGrid(b, |b|, cols) && r < |b| && c < cols
    ensures var nb := Cleared(b, cols, player);
      nb[r][c] == b[r][c] || (b[r][c] == player && nb[r][c] == Empty)
    ensures b[r][c] != player ==> Cleared(b, cols, player)[r][c] == b[r][c]
  {
  }

  /** Clearing twice is clearing once: what survives the first pass has a liberty. */
  lemma ClearedIdempotent(b: seq<seq<int>>, cols: nat, player: int)
    requires IsGrid(b, |b|, cols) && player != Empty
    ensures Cleared(Cleared(b, cols, player), cols, player) == Cleared(b, cols, player)
  {
    var nb := Cleared(b, cols, player);
    var nnb := Cleared(nb, cols, player);
    forall r | 0 <= r < |b|
      ensures nnb[r] == nb[r]
    {
      forall c | 0 <= c < cols
        ensures nnb[r][c] == nb[r][c]
      {
        if nb[r][c] == player {
          ClearedLeavesNoCapturedGroup(b, cols, player, r, c);
        }
      }
    }
  }

  /** The seat whose stones a move by `p` can capture: seat 1 for seat 0, seat 0 for everyone else. */
  function Opponent(p: nat): (q: int)
    ensures q != p && (q == 0 || q == 1)
    ensures p != 0 ==> q == 0
  {
    if p == 0 then 1 else 0
  }

  /**
   * `GoTransitionFunction`: the mover's stone goes down at `m`, the opponent's doomed stones
   * come off, the turn passes to the next seat and the counter grows.
   */
  method Transition(c: Config, s: GameState, m: Move) returns (next: GameState)
    requires WellFormed(c, s) && m.row < c.numRows && m.col < c.numCols && c.numPlayers >= 1
    ensures next.toMove == (s.toMove + 1) % c.numPlayers && next.moveNum == s.moveNum + 1
    ensures IsGrid(Place(s.board, m, s.toMove), c.numRows, c.numCols)
    ensures next.board == Cleared(Place(s.board, m, s.toMove), c.numCols, Opponent(s.toMove))
  {
    var boardCopy := s.board;
    var currentPlayer := s.toMove;
    boardCopy := boardCopy[m.row := boardCopy[m.row][m.col := currentPlayer]];
    var opponent := if currentPlayer == 0 then 1 else 0;
    boardCopy := RemoveCapturedStones(boardCopy, c.numCols, opponent);
    next := GameState((currentPlayer + 1) % c.numPlayers, s.moveNum + 1, boardCopy);
  }

  /**
   * A move keeps the stone it placed, and every cell that did not hold an opponent stone;
   * no opponent group is left without a liberty.
   */
  lemma TransitionSpec(c: Config, s: GameState, m: Move)
    requires WellFormed(c, s) && m.row < c.numRows && m.col < c.numCols
    ensures var placed := Place(s.board, m, s.toMove);
      IsGrid(placed, c.numRows, c.numCols) &&
      var nb := Cleared(placed, c.numCols, Opponent(s.toMove));
      && nb[m.row][m.col] == s.toMove
      && (forall r, col :: 0 <= r < c.numRows && 0 <= col < c.numCols && placed[r][col] != Opponent(s.toMove) ==>
            nb[r][col] == placed[r][col])
      && (forall r: nat, col: nat :: r < c.numRows && col < c.numCols && nb[r][col] == Opponent(s.toMove) ==>
            Escapes(nb, c.numCols, r, col))
  {
    var placed := Place(s.board, m, s.toMove);
    var opp := Opponent(s.toMove);
    forall r: nat, col: nat | r < c.numRows && col < c.numCols && Cleared(placed, c.numCols, opp)[r][col] == opp
      ensures Escapes(Cleared(placed, c.numCols, opp), c.numCols, r, col)
    {
      ClearedLeavesNoCapturedGroup(placed, c.numCols, opp, r, col);
    }
  }

  /** `GoWinCondition`: scoring is not implemented, so no seat ever wins. */
  function IsWin(c: Config, s: GameState, player: nat): (w: bool)
    ensures !w
  {
    false
  }

  /** `GoTieCondition`: scoring is not implemented, so no state is a tie. */
  function IsTie(c: Config, s: GameState): (t: bool)
    ensures !t
  {
    false
  }
}
