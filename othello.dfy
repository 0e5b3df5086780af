/**
 * `OthelloSpec` on the fixed 8 by 8 board. A disc placed on an empty cell outflanks, in
 * each of the eight directions, the run of opponent discs that ends at one of the mover's
 * own discs, and those discs change colour. A player wins when the player to move has no
 * legal move and the player has more discs than the opponent; the game is a tie when the
 * player to move has no legal move and seats 0 and 1 have equally many discs.
 */
module Othello {
  import opened Elements
  import opened Grid
  import opened SpecGame

  /** The side of the board; every loop runs up to it whatever the game's dimensions. */
  const Size: nat := 8

  /** The eight neighbour offsets, in the order both scans visit them. */
  const Directions: seq<(int, int)> := [(-1, -1), (-1, 0), (-1, 1), (0, -1), (0, 1), (1, -1), (1, 0), (1, 1)]

  predicate IsBoard(b: seq<seq<BoardCell>>)
  {
    IsGrid(b, Size, Size)
  }

  predicate OnBoard(r: int, c: int)
  {
    0 <= r < Size && 0 <= c < Size
  }

  predicate IsDirection(dr: int, dc: int)
  {
    -1 <= dr <= 1 && -1 <= dc <= 1 && (dr != 0 || dc != 0)
  }

  lemma DirectionsAreDirections()
    ensures |Directions| == 8
    ensures forall k :: 0 <= k < |Directions| ==> IsDirection(Directions[k].0, Directions[k].1)
  {
  }

  /** `i` steps along one axis in direction `d` (which is -1, 0 or 1). */
  function Along(i: int, d: int): int
  {
    if d > 0 then i else if d < 0 then -i else 0
  }

  /** The cells left between `x` and the edge of the board, walking in direction `d`. */
  function Room(x: int, d: int): nat
  {
    if d > 0 then (if x < Size then Size - x else 0)
    else if d < 0 then (if x >= 0 then x + 1 else 0)
    else 0
  }

  /** A disc of some player other than `player`. */
  predicate IsOpponent(cell: BoardCell, player: Player)
  {
    cell.Some? && cell.value != player
  }

  /**
   * What a walk from a cell meets: the opponent discs passed over, and whether the walk
   * stopped at one of the mover's own discs (rather than at an empty cell or the edge).
   */
  datatype Ray = Ray(run: seq<Move>, closed: bool)

  /**
   * The walk from `(r, c)` in direction `(dr, dc)` that both scans make: the opponent discs
   * passed over until the first cell that is not one, and whether that cell is the mover's.
   */
  function Walk(b: seq<seq<BoardCell>>, player: Player, r: int, c: int, dr: int, dc: int): Ray
    requires IsBoard(b) && IsDirection(dr, dc)
    decreases Room(r, dr) + Room(c, dc)
  {
    if !OnBoard(r, c) then Ray([], false)
    else match b[r][c]
      case None => Ray([], false)
      case Some(p) =>
        if p == player then Ray([], true)
        else
          var rest := Walk(b, player, r + dr, c + dc, dr, dc);
          Ray([Move(r, c)] + rest.run, rest.closed)
  }

  /** One step of a walk over an opponent disc: the disc, then the walk from the next cell. */
  lemma WalkStep(b: seq<seq<BoardCell>>, player: Player, r: int, c: int, dr: int, dc: int)
    requires IsBoard(b) && IsDirection(dr, dc) && OnBoard(r, c) && IsOpponent(b[r][c], player)
    ensures Walk(b, player, r, c, dr, dc).run == [Move(r, c)] + Walk(b, player, r + dr, c + dc, dr, dc).run
    ensures Walk(b, player, r, c, dr, dc).closed == Walk(b, player, r + dr, c + dc, dr, dc).closed
  {
  }

  /** A walk that does not start on an opponent disc is empty, and closed exactly at the mover's own disc. */
  lemma WalkStop(b: seq<seq<BoardCell>>, player: Player, r: int, c: int, dr: int, dc: int)
    requires IsBoard(b) && IsDirection(dr, dc) && !(OnBoard(r, c) && IsOpponent(b[r][c], player))
    ensures Walk(b, player, r, c, dr, dc).run == []
    ensures Walk(b, player, r, c, dr, dc).closed == (OnBoard(r, c) && b[r][c] == Some(player))
  {
  }

  lemma AppendOne<T>(prefix: seq<T>, x: T, rest: seq<T>)
    ensures prefix + ([x] + rest) == (prefix + [x]) + rest
  {
  }

  /** The cell at `(r, c)`, or None off the board. */
  function Cell(b: seq<seq<BoardCell>>, r: int, c: int): BoardCell
    requires IsBoard(b)
  {
    if OnBoard(r, c) then b[r][c] else None
  }

  /** The cell `i` steps from `(r, c)` in direction `(dr, dc)`, or None off the board. */
  function StepCell(b: seq<seq<BoardCell>>, r: int, c: int, dr: int, dc: int, i: nat): BoardCell
    requires IsBoard(b)
    decreases i
  {
    if i == 0 then Cell(b, r, c) else StepCell(b, r + dr, c + dc, dr, dc, i - 1)
  }

  /** `i` steps in direction `(dr, dc)` lead to `(r + i * dr, c + i * dc)`. */
  lemma {:induction false} StepCellAt(b: seq<seq<BoardCell>>, r: int, c: int, dr: int, dc: int, i: nat)
    requires IsBoard(b) && IsDirection(dr, dc)
    ensures StepCell(b, r, c, dr, dc, i) == Cell(b, r + Along(i, dr), c + Along(i, dc))
    decreases i
  {
    if i > 0 {
      StepCellAt(b, r + dr, c + dc, dr, dc, i - 1);
      AlongStep(i - 1, dr);
      AlongStep(i - 1, dc);
    }
  }

  /** The `i`-th cell of a walk's run is `i` steps from where the walk starts. */
  lemma {:induction false} WalkRunAt(b: seq<seq<BoardCell>>, player: Player, r: int, c: int, dr: int, dc: int, i: nat)
    requires IsBoard(b) && IsDirection(dr, dc) && i < |Walk(b, player, r, c, dr, dc).run|
    ensures Walk(b, player, r, c, dr, dc).run[i].row == r + Along(i, dr)
    ensures Walk(b, player, r, c, dr, dc).run[i].col == c + Along(i, dc)
    decreases Room(r, dr) + Room(c, dc)
  {
    if !(OnBoard(r, c) && IsOpponent(b[r][c], player)) {
      WalkStop(b, player, r, c, dr, dc);
    }
    WalkStep(b, player, r, c, dr, dc);
    var rest := Walk(b, player, r + dr, c + dc, dr, dc).run;
    var run := Walk(b, player, r, c, dr, dc).run;
    if i == 0 {
      assert run[0] == Move(r, c);
    } else {
      RoomShrinks(r, c, dr, dc);
      WalkRunAt(b, player, r + dr, c + dc, dr, dc, i - 1);
      assert run[i] == rest[i - 1];
      AlongStep(i - 1, dr);
      AlongStep(i - 1, dc);
    }
  }

  predicate AllOnBoard(cells: seq<Move>)
  {
    forall i :: 0 <= i < |cells| ==> OnBoard(cells[i].row, cells[i].col)
  }

  predicate WalkOnBoardAll(b: seq<seq<BoardCell>>, player: Player, r: int, c: int, dr: int, dc: int)
    requires IsBoard(b) && IsDirection(dr, dc)
  {
    AllOnBoard(Walk(b, player, r, c, dr, dc).run)
  }

  /** Every cell of a walk's run is on the board. */
  lemma {:induction false} WalkOnBoard(b: seq<seq<BoardCell>>, player: Player, r: int, c: int, dr: int, dc: int)
    requires IsBoard(b) && IsDirection(dr, dc)
    ensures WalkOnBoardAll(b, player, r, c, dr, dc)
    decreases Room(r, dr) + Room(c, dc)
  {
    if OnBoard(r, c) && IsOpponent(b[r][c], player) {
      RoomShrinks(r, c, dr, dc);
      WalkOnBoard(b, player, r + dr, c + dc, dr, dc);
      WalkStep(b, player, r, c, dr, dc);
      var rest := Walk(b, player, r + dr, c + dc, dr, dc).run;
      assert AllOnBoard(rest);
      assert forall i :: 1 <= i < 1 + |rest| ==> ([Move(r, c)] + rest)[i] == rest[i - 1];
    }
  }

  /** Every cell a walk's run passes over holds an opponent disc. */
  lemma {:induction false} WalkRunOpponent(b: seq<seq<BoardCell>>, player: Player, r: int, c: int, dr: int, dc: int, i: nat)
    requires IsBoard(b) && IsDirection(dr, dc) && i < |Walk(b, player, r, c, dr, dc).run|
    ensures IsOpponent(StepCell(b, r, c, dr, dc, i), player)
    decreases Room(r, dr) + Room(c, dc)
  {
    assert OnBoard(r, c) && IsOpponent(b[r][c], player);
    if i > 0 {
      RoomShrinks(r, c, dr, dc);
      WalkRunOpponent(b, player, r + dr, c + dc, dr, dc, i - 1);
    }
  }

  /**
   * The cell after a walk's run is not an opponent disc, and it is the mover's disc exactly
   * when the ray is closed.
   */
  lemma {:induction false} WalkEndSpec(b: seq<seq<BoardCell>>, player: Player, r: int, c: int, dr: int, dc: int)
    requires IsBoard(b) && IsDirection(dr, dc)
    ensures var ray := Walk(b, player, r, c, dr, dc);
      && !IsOpponent(StepCell(b, r, c, dr, dc, |ray.run|), player)
      && (ray.closed <==> StepCell(b, r, c, dr, dc, |ray.run|) == Some(player))
    decreases Room(r, dr) + Room(c, dc)
  {
    var ray := Walk(b, player, r, c, dr, dc);
    if OnBoard(r, c) && IsOpponent(b[r][c], player) {
      WalkStep(b, player, r, c, dr, dc);
      RoomShrinks(r, c, dr, dc);
      WalkEndSpec(b, player, r + dr, c + dc, dr, dc);
    }
  }

  lemma AlongStep(n: int, d: int)
    ensures Along(n + 1, d) == d + Along(n, d) || !(-1 <= d <= 1)
  {
  }

  /** Every cell of `cells` set to `v`, in order. */
  function SetCells(b: seq<seq<BoardCell>>, cells: seq<Move>, v: BoardCell): (nb: seq<seq<BoardCell>>)
    requires IsBoard(b) && forall i :: 0 <= i < |cells| ==> OnBoard(cells[i].row, cells[i].col)
    ensures IsBoard(nb)
  {
    if cells == [] then b
    else
      var last := cells[|cells| - 1];
      var prefix := SetCells(b, cells[..|cells| - 1], v);
      assert OnBoard(last.row, last.col);
      prefix[last.row := prefix[last.row][last.col := v]]
  }

  /** The listed cells hold `v` and every other cell is as it was. */
  lemma {:induction false} SetCellsSpec(b: seq<seq<BoardCell>>, cells: seq<Move>, v: BoardCell, r: nat, c: nat)
    requires IsBoard(b) && forall i :: 0 <= i < |cells| ==> OnBoard(cells[i].row, cells[i].col)
    requires OnBoard(r, c)
    ensures SetCells(b, cells, v)[r][c] == if Move(r, c) in cells then v else b[r][c]
  {
    if cells != [] {
      var prefix := cells[..|cells| - 1];
      SetCellsSpec(b, prefix, v, r, c);
      assert Move(r, c) in cells <==> Move(r, c) in prefix || Move(r, c) == cells[|cells| - 1];
    }
  }

  /** A closed ray's discs turn to the mover; an open ray changes nothing. */
  function FlipRay(b: seq<seq<BoardCell>>, ray: Ray, player: Player): (nb: seq<seq<BoardCell>>)
    requires IsBoard(b) && forall i :: 0 <= i < |ray.run| ==> OnBoard(ray.run[i].row, ray.run[i].col)
    ensures IsBoard(nb)
  {
    if ray.closed then SetCells(b, ray.run, Some(player)) else b
  }

  /** The ray of direction `k` from the cell next to `(row, col)`. */
  function DirectionRay(b: seq<seq<BoardCell>>, row: nat, col: nat, player: Player, k: nat): (ray: Ray)
    requires IsBoard(b) && k < 8
    ensures forall i :: 0 <= i < |ray.run| ==> OnBoard(ray.run[i].row, ray.run[i].col)
  {
    DirectionsAreDirections();
    var (dr, dc) := Directions[k];
    WalkOnBoard(b, player, row + dr, col + dc, dr, dc);
    Walk(b, player, row + dr, col + dc, dr, dc)
  }

  lemma DirectionRayIs(b: seq<seq<BoardCell>>, row: nat, col: nat, player: Player, k: nat)
    requires IsBoard(b) && k < 8
    ensures IsDirection(Directions[k].0, Directions[k].1)
    ensures DirectionRay(b, row, col, player, k) ==
      Walk(b, player, row + Directions[k].0, col + Directions[k].1, Directions[k].0, Directions[k].1)
  {
    DirectionsAreDirections();
  }

  /** The board after the first `k` directions have been flipped, each on the board the previous ones left. */
  function FlipFrom(b: seq<seq<BoardCell>>, row: nat, col: nat, player: Player, k: nat): (nb: seq<seq<BoardCell>>)
    requires IsBoard(b) && k <= 8
    ensures IsBoard(nb)
  {
    if k == 0 then b
    else
      var prev := FlipFrom(b, row, col, player, k - 1);
      FlipRay(prev, DirectionRay(prev, row, col, player, k - 1), player)
  }

  /** The board `flip_discs` leaves: all eight directions flipped. */
  function Flipped(b: seq<seq<BoardCell>>, row: nat, col: nat, player: Player): seq<seq<BoardCell>>
    requires IsBoard(b)
  {
    FlipFrom(b, row, col, player, 8)
  }

  /** The inner loop of `flip_discs` at the mover's own disc: every collected cell gets the mover's disc. */
  method FlipPieces(board: seq<seq<BoardCell>>, piecesToFlip: seq<Move>, player: Player) returns (flipped: seq<seq<BoardCell>>)
    requires IsBoard(board) && AllOnBoard(piecesToFlip)
    ensures flipped == SetCells(board, piecesToFlip, Some(player))
  {
    flipped := board;
    for i := 0 to |piecesToFlip|
      invariant flipped == SetCells(board, piecesToFlip[..i], Some(player))
    {
      assert piecesToFlip[..i + 1][..i] == piecesToFlip[..i];
      flipped := flipped[piecesToFlip[i].row := flipped[piecesToFlip[i].row][piecesToFlip[i].col := Some(player)]];
    }
    assert piecesToFlip[..|piecesToFlip|] == piecesToFlip;
  }

  /**
   * The state of the collecting walk at `(r, c)`: `pieces`, all on the board, followed by
   * the walk from `(r, c)` make up `ray`.
   */
  ghost predicate Collecting(b: seq<seq<BoardCell>>, player: Player, ray: Ray, pieces: seq<Move>, r: int, c: int, dr: int, dc: int)
    requires IsBoard(b) && IsDirection(dr, dc)
  {
    && AllOnBoard(pieces)
    && ray.run == pieces + Walk(b, player, r, c, dr, dc).run
    && ray.closed == Walk(b, player, r, c, dr, dc).closed
  }

  lemma CollectingAdvances(b: seq<seq<BoardCell>>, player: Player, ray: Ray, pieces: seq<Move>, r: int, c: int, dr: int, dc: int)
    requires IsBoard(b) && IsDirection(dr, dc) && OnBoard(r, c) && IsOpponent(b[r][c], player)
    requires Collecting(b, player, ray, pieces, r, c, dr, dc)
    ensures Collecting(b, player, ray, pieces + [Move(r, c)], r + dr, c + dc, dr, dc)
  {
    WalkStep(b, player, r, c, dr, dc);
    AppendOne(pieces, Move(r, c), Walk(b, player, r + dr, c + dc, dr, dc).run);
  }

  /** Where the walk stops, the pieces collected are the whole run, and the ray is closed exactly at the mover's disc. */
  lemma CollectingStops(b: seq<seq<BoardCell>>, player: Player, ray: Ray, pieces: seq<Move>, r: int, c: int, dr: int, dc: int)
    requires IsBoard(b) && IsDirection(dr, dc) && !(OnBoard(r, c) && IsOpponent(b[r][c], player))
    requires Collecting(b, player, ray, pieces, r, c, dr, dc)
    ensures AllOnBoard(pieces) && ray.run == pieces
    ensures ray.closed == (OnBoard(r, c) && b[r][c] == Some(player))
  {
    WalkStop(b, player, r, c, dr, dc);
    assert ray.run == pieces + [];
  }

  /** A step from a cell on the board leaves less room ahead. */
  lemma RoomShrinks(r: int, c: int, dr: int, dc: int)
    requires OnBoard(r, c) && IsDirection(dr, dc)
    ensures Room(r + dr, dr) + Room(c + dc, dc) < Room(r, dr) + Room(c, dc)
  {
  }

  /**
   * The inner loop of `flip_discs`: from `(r, c)` on, collect opponent discs while on the
   * board; stop at the mover's disc (closed) or at an empty cell or the edge (open).
   */
  method CollectRun(board: seq<seq<BoardCell>>, player: Player, r0: int, c0: int, dr: int, dc: int)
    returns (piecesToFlip: seq<Move>, closed: bool)
    requires IsBoard(board) && IsDirection(dr, dc)
    ensures AllOnBoard(piecesToFlip)
    ensures piecesToFlip == Walk(board, player, r0, c0, dr, dc).run
    ensures closed == Walk(board, player, r0, c0, dr, dc).closed
  {
    var r, c := r0, c0;
    ghost var ray := Walk(board, player, r, c, dr, dc);
    piecesToFlip := [];
    while 0 <= r < Size && 0 <= c < Size
      invariant Collecting(board, player, ray, piecesToFlip, r, c, dr, dc)
      decreases Room(r, dr) + Room(c, dc)
    {
      var cell := board[r][c];
      if cell.None? {
        CollectingStops(board, player, ray, piecesToFlip, r, c, dr, dc);
        return piecesToFlip, false;
      } else if cell.value == player {
        CollectingStops(board, player, ray, piecesToFlip, r, c, dr, dc);
        return piecesToFlip, true;
      }
      CollectingAdvances(board, player, ray, piecesToFlip, r, c, dr, dc);
      piecesToFlip := piecesToFlip + [Move(r, c)];
      RoomShrinks(r, c, dr, dc);
      r, c := r + dr, c + dc;
    }
    CollectingStops(board, player, ray, piecesToFlip, r, c, dr, dc);
    closed := false;
  }

  /**
   * One direction of `flip_discs`: walk away from `(row, col)` collecting opponent discs; at
   * the mover's own disc flip them all and stop; at an empty cell or the edge stop.
   */
  method FlipDirection(board: seq<seq<BoardCell>>, row: nat, col: nat, player: Player, k: nat)
    returns (nb: seq<seq<BoardCell>>)
    requires IsBoard(board) && k < 8
    ensures nb == FlipRay(board, DirectionRay(board, row, col, player, k), player)
  {
    DirectionRayIs(board, row, col, player, k);
    var (dr, dc) := Directions[k];
    var piecesToFlip, closed := CollectRun(board, player, row + dr, col + dc, dr, dc);
    if closed {
      nb := FlipPieces(board, piecesToFlip, player);
    } else {
      nb := board;
    }
  }


  /** `flip_discs`: the eight directions in order, each on the board the previous ones left. */
  method FlipDiscs(b: seq<seq<BoardCell>>, row: nat, col: nat, player: Player) returns (board: seq<seq<BoardCell>>)
    requires IsBoard(b)
    ensures board == Flipped(b, row, col, player)
  {
    DirectionsAreDirections();
    board := b;
    for k := 0 to 8
      invariant board == FlipFrom(b, row, col, player, k)
    {
      board := FlipDirection(board, row, col, player, k);
    }
  }

  /** A flip only turns opponent discs into the mover's; every other cell is as it was. */
  ghost predicate OnlyCaptures(b: seq<seq<BoardCell>>, nb: seq<seq<BoardCell>>, player: Player)
    requires IsBoard(b) && IsBoard(nb)
  {
    forall r, c :: 0 <= r < Size && 0 <= c < Size ==>
      nb[r][c] == b[r][c] || (IsOpponent(b[r][c], player) && nb[r][c] == Some(player))
  }

  lemma OnlyCapturesTransitive(b0: seq<seq<BoardCell>>, b1: seq<seq<BoardCell>>, b2: seq<seq<BoardCell>>, player: Player)
    requires IsBoard(b0) && IsBoard(b1) && IsBoard(b2)
    requires OnlyCaptures(b0, b1, player) && OnlyCaptures(b1, b2, player)
    ensures OnlyCaptures(b0, b2, player)
  {
    forall r, c | 0 <= r < Size && 0 <= c < Size
      ensures b2[r][c] == b0[r][c] || (IsOpponent(b0[r][c], player) && b2[r][c] == Some(player))
    {
      assert b1[r][c] == b0[r][c] || (IsOpponent(b0[r][c], player) && b1[r][c] == Some(player));
      assert b2[r][c] == b1[r][c] || (IsOpponent(b1[r][c], player) && b2[r][c] == Some(player));
    }
  }

  /** The cell `i + 1` steps from `(row, col)` is never `(row, col)` itself. */
  lemma AwayFromStart(row: int, col: int, dr: int, dc: int, i: nat)
    requires IsDirection(dr, dc)
    ensures row + dr + Along(i, dr) != row || col + dc + Along(i, dc) != col
  {
  }

  /** A cell a closed ray turns over held an opponent disc, and is not `(row, col)`. */
  lemma RunCellCaptured(b: seq<seq<BoardCell>>, row: nat, col: nat, player: Player, dr: int, dc: int, r: nat, c: nat)
    requires IsBoard(b) && IsDirection(dr, dc) && OnBoard(r, c)
    requires Move(r, c) in Walk(b, player, row + dr, col + dc, dr, dc).run
    ensures IsOpponent(b[r][c], player) && (r != row || c != col)
  {
    var i := IndexOf(Walk(b, player, row + dr, col + dc, dr, dc).run, Move(r, c));
    WalkRunCell(b, player, row + dr, col + dc, dr, dc, i);
    AwayFromStart(row, col, dr, dc, i);
  }

  /** The `i`-th cell of a walk's run is `i` steps from its start, on the board, and holds an opponent disc. */
  lemma WalkRunCell(b: seq<seq<BoardCell>>, player: Player, r: int, c: int, dr: int, dc: int, i: nat)
    requires IsBoard(b) && IsDirection(dr, dc) && i < |Walk(b, player, r, c, dr, dc).run|
    ensures OnBoard(r + Along(i, dr), c + Along(i, dc))
    ensures Walk(b, player, r, c, dr, dc).run[i] == Move(r + Along(i, dr), c + Along(i, dc))
    ensures IsOpponent(b[r + Along(i, dr)][c + Along(i, dc)], player)
  {
    WalkRunAt(b, player, r, c, dr, dc, i);
    WalkRunOpponent(b, player, r, c, dr, dc, i);
    StepCellAt(b, r, c, dr, dc, i);
  }

  lemma IndexOf<T>(s: seq<T>, x: T) returns (i: nat)
    requires x in s
    ensures i < |s| && s[i] == x
  {
    i :| i < |s| && s[i] == x;
  }

  /**
   * Flipping the ray of one direction from `(row, col)` only captures opponent discs and
   * leaves `(row, col)` alone.
   */
  lemma FlipRayCaptures(b: seq<seq<BoardCell>>, row: nat, col: nat, player: Player, k: nat)
    requires IsBoard(b) && k < 8
    ensures var nb := FlipRay(b, DirectionRay(b, row, col, player, k), player);
      OnlyCaptures(b, nb, player) && (OnBoard(row, col) ==> nb[row][col] == b[row][col])
  {
    DirectionRayIs(b, row, col, player, k);
    var (dr, dc) := Directions[k];
    var ray := Walk(b, player, row + dr, col + dc, dr, dc);
    var nb := FlipRay(b, ray, player);
    if ray.closed {
      forall r: nat, c: nat | r < Size && c < Size
        ensures nb[r][c] == b[r][c] || (IsOpponent(b[r][c], player) && nb[r][c] == Some(player))
        ensures r == row && c == col ==> nb[r][c] == b[r][c]
      {
        SetCellsSpec(b, ray.run, Some(player), r, c);
        if Move(r, c) in ray.run {
          RunCellCaptured(b, row, col, player, dr, dc, r, c);
        }
      }
    }
  }

  /** The first `k` directions together only capture opponent discs and leave `(row, col)` alone. */
  lemma {:induction false} FlipFromCaptures(b: seq<seq<BoardCell>>, row: nat, col: nat, player: Player, k: nat)
    requires IsBoard(b) && k <= 8
    ensures OnlyCaptures(b, FlipFrom(b, row, col, player, k), player)
    ensures OnBoard(row, col) ==> FlipFrom(b, row, col, player, k)[row][col] == b[row][col]
  {
    if k > 0 {
      var prev := FlipFrom(b, row, col, player, k - 1);
      FlipFromCaptures(b, row, col, player, k - 1);
      FlipRayCaptures(prev, row, col, player, k - 1);
      OnlyCapturesTransitive(b, prev, FlipFrom(b, row, col, player, k), player);
    } else {
      assert OnlyCaptures(b, b, player);
    }
  }

  /**
   * `flip_discs` only turns opponent discs into the mover's and never touches the placed
   * disc, so empty cells stay empty and discs stay discs: the number of empty cells is kept.
   */
  lemma FlippedCaptures(b: seq<seq<BoardCell>>, row: nat, col: nat, player: Player)
    requires IsBoard(b)
    ensures OnlyCaptures(b, Flipped(b, row, col, player), player)
    ensures OnBoard(row, col) ==> Flipped(b, row, col, player)[row][col] == b[row][col]
    ensures GridCount(Flipped(b, row, col, player), None) == GridCount(b, None)
  {
    FlipFromCaptures(b, row, col, player, 8);
    GridCountSameCells(b, Flipped(b, row, col, player), Size, None);
  }

  /** `get_player_disc_count`: the cells of the board that hold `player`'s disc. */
  function DiscCount(b: seq<seq<BoardCell>>, player: Player): nat
  {
    GridCount(b, Some(player))
  }

  /** The disc that starts on `(r, c)`: seat 0 on d4 and e5, seat 1 on e4 and d5. */
  function StartDisc(r: nat, c: nat): BoardCell
  {
    if (r == 3 && c == 3) || (r == 4 && c == 4) then Some(Player0)
    else if (r == 3 && c == 4) || (r == 4 && c == 3) then Some(Player1)
    else None
  }

  /** `get_initial_board`: the dimensions asked for are ignored; the board is 8 by 8 with the four centre discs. */
  function InitialBoard(): (b: seq<seq<BoardCell>>)
    ensures IsBoard(b)
    ensures b[3][3] == b[4][4] == Some(Player0) && b[3][4] == b[4][3] == Some(Player1)
    ensures forall r, c :: 0 <= r < Size && 0 <= c < Size && !(3 <= r <= 4 && 3 <= c <= 4) ==> b[r][c] == None
  {
    seq(Size, r requires 0 <= r < Size => seq(Size, c requires 0 <= c < Size => StartDisc(r, c)))
  }

  /**
   * `transition`: the mover's disc goes on the chosen cell, the discs it outflanks are
   * flipped, the turn passes on and the counter grows.
   */
  method Transition(g: CellGame, m: Move) returns (next: CellState)
    requires IsBoard(g.state.board) && OnBoard(m.row, m.col) && ValidSeats(g)
    ensures next.toMove == NextPlayer(g) && next.moveNum == g.state.moveNum + 1
    ensures next.board == Flipped(g.state.board[m.row := g.state.board[m.row][m.col := Some(g.state.toMove)]],
                                  m.row, m.col, g.state.toMove)
  {
    var boardCopy := g.state.board[m.row := g.state.board[m.row][m.col := Some(g.state.toMove)]];
    boardCopy := FlipDiscs(boardCopy, m.row, m.col, g.state.toMove);
    next := CellState(NextPlayer(g), g.state.moveNum + 1, boardCopy);
  }

  /**
   * A move onto an empty cell leaves the mover's disc there, fills exactly one empty cell,
   * and otherwise only turns opponent discs into the mover's.
   */
  lemma TransitionPlacesOneDisc(b: seq<seq<BoardCell>>, m: Move, player: Player)
    requires IsBoard(b) && OnBoard(m.row, m.col) && b[m.row][m.col] == None
    ensures var placed := b[m.row := b[m.row][m.col := Some(player)]];
      var nb := Flipped(placed, m.row, m.col, player);
      && nb[m.row][m.col] == Some(player)
      && GridCount(nb, None) + 1 == GridCount(b, None)
      && OnlyCaptures(placed, nb, player)
  {
    var placed := b[m.row := b[m.row][m.col := Some(player)]];
    FlippedCaptures(placed, m.row, m.col, player);
    GridCountUpdate(b, m.row, m.col, Some(player), None);
  }

  /** Direction `k` from `(row, col)` outflanks: at least one opponent disc, then one of the mover's. */
  predicate Outflanks(b: seq<seq<BoardCell>>, row: nat, col: nat, player: Player, k: nat)
    requires IsBoard(b) && k < 8
  {
    var ray := DirectionRay(b, row, col, player, k);
    ray.closed && |ray.run| > 0
  }

  /** A legal Othello move: an empty cell from which some direction outflanks opponent discs. */
  predicate IsLegal(b: seq<seq<BoardCell>>, row: nat, col: nat, player: Player)
    requires IsBoard(b) && OnBoard(row, col)
  {
    b[row][col] == None && exists k :: 0 <= k < 8 && Outflanks(b, row, col, player, k)
  }

  /**
   * The verdict of `is_valid_move` from direction `k` on: the first direction whose walk
   * ends at one of the mover's discs decides, by whether an opponent disc came first.
   */
  function FirstClosedDecides(b: seq<seq<BoardCell>>, row: nat, col: nat, player: Player, k: nat): bool
    requires IsBoard(b) && k <= 8
    decreases 8 - k
  {
    if k == 8 then false
    else
      var ray := DirectionRay(b, row, col, player, k);
      if ray.closed then |ray.run| > 0 else FirstClosedDecides(b, row, col, player, k + 1)
  }

  /** `is_valid_move` as written: an empty cell, and the first closed direction has an opponent disc in it. */
  predicate ValidAsWritten(b: seq<seq<BoardCell>>, row: nat, col: nat, player: Player)
    requires IsBoard(b) && OnBoard(row, col)
  {
    b[row][col] == None && FirstClosedDecides(b, row, col, player, 0)
  }

  /**
   * One direction of the legality scan: walk away from `(row, col)` while on the board,
   * noting opponent discs; stop at the mover's disc (closed) or at an empty cell.
   */
  method ScanRun(b: seq<seq<BoardCell>>, player: Player, r0: int, c0: int, dr: int, dc: int)
    returns (closed: bool, hasOpponentBetween: bool)
    requires IsBoard(b) && IsDirection(dr, dc)
    ensures closed == Walk(b, player, r0, c0, dr, dc).closed
    ensures hasOpponentBetween == (|Walk(b, player, r0, c0, dr, dc).run| > 0)
  {
    var r, c := r0, c0;
    ghost var ray := Walk(b, player, r, c, dr, dc);
    ghost var seen: seq<Move> := [];
    hasOpponentBetween := false;
    while 0 <= r < Size && 0 <= c < Size
      invariant Collecting(b, player, ray, seen, r, c, dr, dc)
      invariant hasOpponentBetween == (seen != [])
      decreases Room(r, dr) + Room(c, dc)
    {
      var cell := b[r][c];
      if cell.None? {
        CollectingStops(b, player, ray, seen, r, c, dr, dc);
        return false, hasOpponentBetween;
      } else if cell.value == player {
        CollectingStops(b, player, ray, seen, r, c, dr, dc);
        return true, hasOpponentBetween;
      }
      CollectingAdvances(b, player, ray, seen, r, c, dr, dc);
      seen := seen + [Move(r, c)];
      hasOpponentBetween := true;
      RoomShrinks(r, c, dr, dc);
      r, c := r + dr, c + dc;
    }
    CollectingStops(b, player, ray, seen, r, c, dr, dc);
    closed := false;
  }

  /** The scan of direction `k` from `(row, col)`: whether its ray is closed and whether it holds an opponent disc. */
  method ScanDirection(b: seq<seq<BoardCell>>, row: nat, col: nat, player: Player, k: nat)
    returns (closed: bool, hasOpponentBetween: bool)
    requires IsBoard(b) && k < 8
    ensures closed == DirectionRay(b, row, col, player, k).closed
    ensures hasOpponentBetween == (|DirectionRay(b, row, col, player, k).run| > 0)
  {
    DirectionRayIs(b, row, col, player, k);
    var (dr, dc) := Directions[k];
    closed, hasOpponentBetween := ScanRun(b, player, row + dr, col + dc, dr, dc);
  }


  /**
   * `is_valid_move` as written: a filled cell is refused; then the directions are scanned
   * in order and the first one that reaches a disc of the mover's returns whether an
   * opponent disc lay in between, without looking at the remaining directions.
   */
  method IsValidMove(b: seq<seq<BoardCell>>, row: nat, col: nat, player: Player) returns (valid: bool)
    requires IsBoard(b) && OnBoard(row, col)
    ensures valid == ValidAsWritten(b, row, col, player)
  {
    if b[row][col].Some? {
      return false;
    }
    DirectionsAreDirections();
    for k := 0 to 8
      invariant FirstClosedDecides(b, row, col, player, k) == FirstClosedDecides(b, row, col, player, 0)
    {
      var closed, hasOpponentBetween := ScanDirection(b, row, col, player, k);
      if closed {
        return hasOpponentBetween;
      }
    }
    return false;
  }

  /** The corrected scan: a closed direction with no opponent disc in it moves on to the next direction. */
  method IsLegalMove(b: seq<seq<BoardCell>>, row: nat, col: nat, player: Player) returns (legal: bool)
    requires IsBoard(b) && OnBoard(row, col)
    ensures legal == IsLegal(b, row, col, player)
  {
    if b[row][col].Some? {
      return false;
    }
    DirectionsAreDirections();
    for k := 0 to 8
      invariant forall j :: 0 <= j < k ==> !Outflanks(b, row, col, player, j)
    {
      var closed, hasOpponentBetween := ScanDirection(b, row, col, player, k);
      if closed && hasOpponentBetween {
        assert Outflanks(b, row, col, player, k);
        return true;
      }
    }
    return false;
  }

  /** Whatever `is_valid_move` accepts is legal: the first closed direction that decides it outflanks. */
  lemma {:induction false} FirstClosedOutflanks(b: seq<seq<BoardCell>>, row: nat, col: nat, player: Player, k: nat)
    requires IsBoard(b) && k <= 8 && FirstClosedDecides(b, row, col, player, k)
    ensures exists j :: k <= j < 8 && Outflanks(b, row, col, player, j)
    decreases 8 - k
  {
    if !DirectionRay(b, row, col, player, k).closed {
      FirstClosedOutflanks(b, row, col, player, k + 1);
    } else {
      assert Outflanks(b, row, col, player, k);
    }
  }

  lemma AsWrittenIsLegal(b: seq<seq<BoardCell>>, row: nat, col: nat, player: Player)
    requires IsBoard(b) && OnBoard(row, col) && ValidAsWritten(b, row, col, player)
    ensures IsLegal(b, row, col, player)
  {
    FirstClosedOutflanks(b, row, col, player, 0);
  }

  /**
   * On the opening board, seat 0 playing (2, 4) outflanks the seat 1 disc on (3, 4) by
   * looking down, but the first direction that meets a disc of seat 0 is down-left, onto
   * (3, 3), with nothing in between: `is_valid_move` refuses a legal opening move.
   */
  lemma AsWrittenRefusesOpening()
    ensures IsBoard(InitialBoard()) && OnBoard(2, 4)
    ensures !ValidAsWritten(InitialBoard(), 2, 4, Player0)
    ensures IsLegal(InitialBoard(), 2, 4, Player0)
  {
    var b := InitialBoard();
    DirectionsAreDirections();
    assert Walk(b, Player0, 1, 3, -1, -1) == Ray([], false);
    assert Walk(b, Player0, 1, 4, -1, 0) == Ray([], false);
    assert Walk(b, Player0, 1, 5, -1, 1) == Ray([], false);
    assert Walk(b, Player0, 2, 3, 0, -1) == Ray([], false);
    assert Walk(b, Player0, 2, 5, 0, 1) == Ray([], false);
    assert Walk(b, Player0, 3, 3, 1, -1) == Ray([], true);
    assert Walk(b, Player0, 4, 4, 1, 0) == Ray([], true);
    assert Walk(b, Player0, 3, 4, 1, 0) == Ray([Move(3, 4)], true);
    assert Outflanks(b, 2, 4, Player0, 6);
  }

  /** The inner loop of `get_valid_moves`: the cells of one row that `is_valid_move`, as written, accepts, left to right. */
  method RowValidMoves(b: seq<seq<BoardCell>>, row: nat, player: Player) returns (rowMoves: seq<Move>)
    requires IsBoard(b) && row < Size
    ensures RowMajor(rowMoves)
    ensures forall m :: m in rowMoves <==> m.row == row && m.col < Size && ValidAsWritten(b, row, m.col, player)
  {
    rowMoves := [];
    for col := 0 to Size
      invariant RowMajor(rowMoves)
      invariant forall m :: m in rowMoves ==> Before(m, Move(row, col))
      invariant forall m :: m in rowMoves <==> m.row == row && m.col < col && ValidAsWritten(b, row, m.col, player)
    {
      var ok := IsValidMove(b, row, col, player);
      if ok {
        rowMoves := rowMoves + [Move(row, col)];
      }
    }
  }

  /**
   * `get_valid_moves`: every cell of the 8 by 8 board in row-major order, kept when
   * `is_valid_move`, as written, accepts it for the player to move.
   */
  method GetValidMoves(g: CellGame) returns (validMoves: seq<Move>)
    requires IsBoard(g.state.board)
    ensures RowMajor(validMoves)
    ensures forall m :: m in validMoves <==> OnBoard(m.row, m.col) && ValidAsWritten(g.state.board, m.row, m.col, g.state.toMove)
  {
    var b, player := g.state.board, g.state.toMove;
    validMoves := [];
    for row := 0 to Size
      invariant RowMajor(validMoves)
      invariant forall m :: m in validMoves ==> m.row < row
      invariant forall m :: m in validMoves <==> m.row < row && m.col < Size && ValidAsWritten(b, m.row, m.col, player)
    {
      var rowMoves := RowValidMoves(b, row, player);
      RowMajorAppend(validMoves, rowMoves);
      validMoves := validMoves + rowMoves;
    }
  }

  /** The inner loop of `get_valid_moves` on the corrected test: the legal cells of one row, left to right. */
  method RowLegalMoves(b: seq<seq<BoardCell>>, row: nat, player: Player) returns (rowMoves: seq<Move>)
    requires IsBoard(b) && row < Size
    ensures RowMajor(rowMoves)
    ensures forall m :: m in rowMoves <==> m.row == row && m.col < Size && IsLegal(b, row, m.col, player)
  {
    rowMoves := [];
    for col := 0 to Size
      invariant RowMajor(rowMoves)
      invariant forall m :: m in rowMoves ==> Before(m, Move(row, col))
      invariant forall m :: m in rowMoves <==> m.row == row && m.col < col && IsLegal(b, row, m.col, player)
    {
      var ok := IsLegalMove(b, row, col, player);
      if ok {
        rowMoves := rowMoves + [Move(row, col)];
      }
    }
  }

  /** `get_valid_moves` on the corrected test: the legal cells for the player to move, in row-major order. */
  method GetLegalMoves(g: CellGame) returns (legalMoves: seq<Move>)
    requires IsBoard(g.state.board)
    ensures RowMajor(legalMoves)
    ensures forall m :: m in legalMoves <==> OnBoard(m.row, m.col) && IsLegal(g.state.board, m.row, m.col, g.state.toMove)
  {
    var b, player := g.state.board, g.state.toMove;
    legalMoves := [];
    for row := 0 to Size
      invariant RowMajor(legalMoves)
      invariant forall m :: m in legalMoves ==> m.row < row
      invariant forall m :: m in legalMoves <==> m.row < row && m.col < Size && IsLegal(b, m.row, m.col, player)
    {
      var rowMoves := RowLegalMoves(b, row, player);
      RowMajorAppend(legalMoves, rowMoves);
      legalMoves := legalMoves + rowMoves;
    }
  }

  /** No cell of the board passes `is_valid_move`, as written, for `player`. */
  predicate NoMoveAsWritten(b: seq<seq<BoardCell>>, player: Player)
    requires IsBoard(b)
  {
    forall r: nat, c: nat :: r < Size && c < Size ==> !ValidAsWritten(b, r, c, player)
  }

  /** `player` has no legal move anywhere on the board. */
  predicate NoLegalMove(b: seq<seq<BoardCell>>, player: Player)
    requires IsBoard(b)
  {
    forall r: nat, c: nat :: r < Size && c < Size ==> !IsLegal(b, r, c, player)
  }

  /** A player without a legal move has no move as written either (the converse fails: `AsWrittenEndsEarly`). */
  lemma NoLegalMoveAsWritten(b: seq<seq<BoardCell>>, player: Player)
    requires IsBoard(b) && NoLegalMove(b, player)
    ensures NoMoveAsWritten(b, player)
  {
    forall r: nat, c: nat | r < Size && c < Size
      ensures !ValidAsWritten(b, r, c, player)
    {
      if ValidAsWritten(b, r, c, player) {
        AsWrittenIsLegal(b, r, c, player);
      }
    }
  }

  /** `is_win`'s opponent: seat 1 for seat 0, seat 0 for every other seat; always one of seats 0 and 1. */
  function Opponent(player: Player): (q: Player)
    ensures ToUsize(q) < 2
    ensures ToUsize(player) < 2 ==> q != player
    ensures ToUsize(player) >= 2 ==> q == Player0
  {
    if player == Player0 then Player1 else Player0
  }

  /** `is_win` as written: the move list of the player to move is empty and `player` has more discs than its opponent. */
  predicate WinsAsWritten(b: seq<seq<BoardCell>>, toMove: Player, player: Player)
    requires IsBoard(b)
  {
    NoMoveAsWritten(b, toMove) && DiscCount(b, player) > DiscCount(b, Opponent(player))
  }

  /** `is_tie` as written: the move list of the player to move is empty and seats 0 and 1 have as many discs. */
  predicate TiesAsWritten(b: seq<seq<BoardCell>>, toMove: Player)
    requires IsBoard(b)
  {
    NoMoveAsWritten(b, toMove) && DiscCount(b, Player0) == DiscCount(b, Player1)
  }

  /** The intended win: the player to move has no legal move and `player` has more discs than its opponent. */
  predicate Wins(b: seq<seq<BoardCell>>, toMove: Player, player: Player)
    requires IsBoard(b)
  {
    NoLegalMove(b, toMove) && DiscCount(b, player) > DiscCount(b, Opponent(player))
  }

  /** The intended tie: the player to move has no legal move and seats 0 and 1 have as many discs. */
  predicate Ties(b: seq<seq<BoardCell>>, toMove: Player)
    requires IsBoard(b)
  {
    NoLegalMove(b, toMove) && DiscCount(b, Player0) == DiscCount(b, Player1)
  }

  /** `get_valid_moves(game).is_empty()`, as written. */
  method NoValidMoves(g: CellGame) returns (none: bool)
    requires IsBoard(g.state.board)
    ensures none == NoMoveAsWritten(g.state.board, g.state.toMove)
  {
    var moves := GetValidMoves(g);
    none := moves == [];
    if none {
      forall r: nat, c: nat | r < Size && c < Size
        ensures !ValidAsWritten(g.state.board, r, c, g.state.toMove)
      {
        assert Move(r, c) !in moves;
      }
    } else {
      assert moves[0] in moves;
    }
  }

  /** The move list on the corrected test is empty. */
  method NoLegalMoves(g: CellGame) returns (none: bool)
    requires IsBoard(g.state.board)
    ensures none == NoLegalMove(g.state.board, g.state.toMove)
  {
    var moves := GetLegalMoves(g);
    none := moves == [];
    if none {
      forall r: nat, c: nat | r < Size && c < Size
        ensures !IsLegal(g.state.board, r, c, g.state.toMove)
      {
        assert Move(r, c) !in moves;
      }
    } else {
      assert moves[0] in moves;
    }
  }

  /** `is_win`: as written, over the move list of `get_valid_moves`. */
  method IsWin(g: CellGame, player: Player) returns (w: bool)
    requires IsBoard(g.state.board)
    ensures w == WinsAsWritten(g.state.board, g.state.toMove, player)
  {
    var none := NoValidMoves(g);
    w := none && DiscCount(g.state.board, player) > DiscCount(g.state.board, Opponent(player));
  }

  /** `is_tie`: as written, over the move list of `get_valid_moves`. */
  method IsTie(g: CellGame) returns (t: bool)
    requires IsBoard(g.state.board)
    ensures t == TiesAsWritten(g.state.board, g.state.toMove)
  {
    var none := NoValidMoves(g);
    t := none && DiscCount(g.state.board, Player0) == DiscCount(g.state.board, Player1);
  }

  /** `is_win` over the corrected move list: the game is only over when the player to move has no legal move. */
  method IsWinCorrected(g: CellGame, player: Player) returns (w: bool)
    requires IsBoard(g.state.board)
    ensures w == Wins(g.state.board, g.state.toMove, player)
  {
    var none := NoLegalMoves(g);
    w := none && DiscCount(g.state.board, player) > DiscCount(g.state.board, Opponent(player));
  }

  /** `is_tie` over the corrected move list. */
  method IsTieCorrected(g: CellGame) returns (t: bool)
    requires IsBoard(g.state.board)
    ensures t == Ties(g.state.board, g.state.toMove)
  {
    var none := NoLegalMoves(g);
    t := none && DiscCount(g.state.board, Player0) == DiscCount(g.state.board, Player1);
  }

  /**
   * Between seats 0 and 1 there is at most one outcome, as written and as intended: they
   * cannot both win, a tie excludes a win of either, and every outcome needs the player
   * to move to be out of moves. An intended outcome is also one as written.
   */
  lemma OneOutcome(b: seq<seq<BoardCell>>, toMove: Player)
    requires IsBoard(b)
    ensures !(WinsAsWritten(b, toMove, Player0) && WinsAsWritten(b, toMove, Player1))
    ensures TiesAsWritten(b, toMove) ==> !WinsAsWritten(b, toMove, Player0) && !WinsAsWritten(b, toMove, Player1)
    ensures WinsAsWritten(b, toMove, Player0) || WinsAsWritten(b, toMove, Player1) || TiesAsWritten(b, toMove) ==>
      NoMoveAsWritten(b, toMove)
    ensures !(Wins(b, toMove, Player0) && Wins(b, toMove, Player1))
    ensures Ties(b, toMove) ==> !Wins(b, toMove, Player0) && !Wins(b, toMove, Player1)
    ensures forall p :: Wins(b, toMove, p) ==> WinsAsWritten(b, toMove, p)
    ensures Ties(b, toMove) ==> TiesAsWritten(b, toMove)
  {
    if NoLegalMove(b, toMove) {
      NoLegalMoveAsWritten(b, toMove);
    }
  }

  /** The disc on `(r, c)` of `CornerBoard`. */
  function CornerDisc(r: nat, c: nat): BoardCell
  {
    if (r == 0 && c == 1) || (r == 2 && c == 1) || (r == 2 && c == 2) then Some(Player0)
    else if r == 1 && c == 1 then Some(Player1)
    else None
  }

  /** Seat 0 on (0, 1), (2, 1) and (2, 2), seat 1 on (1, 1), every other cell empty. */
  function CornerBoard(): (b: seq<seq<BoardCell>>)
    ensures IsBoard(b)
    ensures forall r, c :: 0 <= r < Size && 0 <= c < Size ==> b[r][c] == CornerDisc(r, c)
  {
    seq(Size, r requires 0 <= r < Size => seq(Size, c requires 0 <= c < Size => CornerDisc(r, c)))
  }

  /** On `CornerBoard`, seat 0's one legal move is (0, 0), outflanking (1, 1) down the diagonal to (2, 2). */
  lemma CornerOnlyLegal(r: nat, c: nat)
    requires r < Size && c < Size && IsLegal(CornerBoard(), r, c, Player0)
    ensures r == 0 && c == 0
  {
    var b := CornerBoard();
    var k :| 0 <= k < 8 && Outflanks(b, r, c, Player0, k);
    DirectionRayIs(b, r, c, Player0, k);
    var dr, dc := Directions[k].0, Directions[k].1;
    if !(OnBoard(r + dr, c + dc) && IsOpponent(b[r + dr][c + dc], Player0)) {
      WalkStop(b, Player0, r + dr, c + dc, dr, dc);
    }
    assert r + dr == 1 && c + dc == 1;
    WalkStep(b, Player0, 1, 1, dr, dc);
    WalkStop(b, Player0, 1 + dr, 1 + dc, dr, dc);
  }

  /** The board `CornerBoard` is built from: its four discs placed on an empty 8 by 8 board. */
  function CornerPlaced(): (b: seq<seq<BoardCell>>)
    ensures IsBoard(b) && forall r, c :: 0 <= r < Size && 0 <= c < Size ==> b[r][c] == CornerBoard()[r][c]
  {
    var empty: seq<seq<BoardCell>> := seq(Size, _ => seq(Size, _ => None));
    Place(Place(Place(Place(empty, Move(0, 1), Some(Player0)), Move(2, 1), Some(Player0)), Move(2, 2), Some(Player0)), Move(1, 1), Some(Player1))
  }

  /** Placing the discs of `CornerBoard` one by one: the count of `v` grows by one for each disc equal to `v`. */
  lemma CornerCount(v: BoardCell)
    requires v.Some?
    ensures GridCount(CornerBoard(), v) ==
      (if v == Some(Player0) then 3 else 0) + (if v == Some(Player1) then 1 else 0)
  {
    var empty: seq<seq<BoardCell>> := seq(Size, _ => seq(Size, _ => None));
    var b1 := Place(empty, Move(0, 1), Some(Player0));
    var b2 := Place(b1, Move(2, 1), Some(Player0));
    var b3 := Place(b2, Move(2, 2), Some(Player0));
    GridCountZero(empty, v);
    GridCountUpdate(empty, 0, 1, Some(Player0), v);
    GridCountUpdate(b1, 2, 1, Some(Player0), v);
    GridCountUpdate(b2, 2, 2, Some(Player0), v);
    GridCountUpdate(b3, 1, 1, Some(Player1), v);
    GridCountSameCells(CornerPlaced(), CornerBoard(), Size, v);
  }

  /** Seat 0's move (0, 0) on `CornerBoard` outflanks (1, 1) down the diagonal. */
  lemma CornerIsLegal()
    ensures IsLegal(CornerBoard(), 0, 0, Player0)
  {
    var b := CornerBoard();
    DirectionsAreDirections();
    assert Walk(b, Player0, 1, 1, 1, 1) == Ray([Move(1, 1)], true) by {
      assert Walk(b, Player0, 2, 2, 1, 1) == Ray([], true);
    }
    assert Outflanks(b, 0, 0, Player0, 7);
  }

  /** `is_valid_move` refuses (0, 0) on `CornerBoard`: the ray to the right is closed by (0, 1) with an empty run. */
  lemma CornerRefused()
    ensures !ValidAsWritten(CornerBoard(), 0, 0, Player0)
  {
    var b := CornerBoard();
    DirectionsAreDirections();
    assert Walk(b, Player0, -1, -1, -1, -1) == Ray([], false);
    assert Walk(b, Player0, -1, 0, -1, 0) == Ray([], false);
    assert Walk(b, Player0, -1, 1, -1, 1) == Ray([], false);
    assert Walk(b, Player0, 0, -1, 0, -1) == Ray([], false);
    assert Walk(b, Player0, 0, 1, 0, 1) == Ray([], true);
  }

  /**
   * As written, the game on `CornerBoard` is over with seat 0 to move: the only legal move
   * (0, 0) is refused because the first direction that meets a disc of seat 0 is the one to
   * the right, onto (0, 1), with nothing in between. So `is_win(Player0)` holds, three discs
   * to one, although seat 0 can still move; the intended test keeps the game going.
   * The position does not arise in play from the opening, since discs are only placed and
   * flipped and the four centre cells stay filled; a game reaches it through `set_state`.
   */
  lemma AsWrittenEndsEarly()
    ensures IsLegal(CornerBoard(), 0, 0, Player0)
    ensures NoMoveAsWritten(CornerBoard(), Player0)
    ensures WinsAsWritten(CornerBoard(), Player0, Player0)
    ensures !Wins(CornerBoard(), Player0, Player0) && !Ties(CornerBoard(), Player0)
  {
    var b := CornerBoard();
    CornerIsLegal();
    CornerRefused();
    forall r: nat, c: nat | r < Size && c < Size
      ensures !ValidAsWritten(b, r, c, Player0)
    {
      if ValidAsWritten(b, r, c, Player0) {
        AsWrittenIsLegal(b, r, c, Player0);
        CornerOnlyLegal(r, c);
      }
    }
    CornerCount(Some(Player0));
    CornerCount(Some(Player1));
  }
}
