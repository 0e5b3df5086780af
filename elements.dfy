/** Shared vocabulary of the engine: players, game status, board cells and moves. */
module Elements {

  datatype Option<+T> = None | Some(value: T)

  /** The four seats a game can have. */
  datatype Player = Player0 | Player1 | Player2 | Player3

  /** `Player::to_usize`: the seat's index. */
  function ToUsize(p: Player): (n: nat)
    ensures n < 4
  {
    match p
    case Player0 => 0
    case Player1 => 1
    case Player2 => 2
    case Player3 => 3
  }

  /** `Player::from(usize)`; any index from 4 on panics in the source, hence the precondition. */
  function FromUsize(n: nat): (p: Player)
    requires n < 4
    ensures ToUsize(p) == n
  {
    if n == 0 then Player0
    else if n == 1 then Player1
    else if n == 2 then Player2
    else Player3
  }

  /** Converting a seat to its index and back gives the same seat. */
  lemma {:induction false} FromToUsize(p: Player)
    ensures FromUsize(ToUsize(p)) == p
  {
    match p
    case Player0 =>
    case Player1 =>
    case Player2 =>
    case Player3 =>
  }

  /** Distinct seats have distinct indices. */
  lemma ToUsizeInjective(p: Player, q: Player)
    ensures ToUsize(p) == ToUsize(q) ==> p == q
  {
    FromToUsize(p);
    FromToUsize(q);
  }

  /** The status of a game: a win for one of the four seats, still going, or a tie. */
  datatype GameStatus = Player0Win | Player1Win | Player2Win | Player3Win | Ongoing | Tie
  {
    predicate IsWin() {
      !Ongoing? && !Tie?
    }
  }

  /** The win status of seat `p`. */
  function WinStatus(p: Player): (st: GameStatus)
    ensures st.IsWin()
  {
    match p
    case Player0 => Player0Win
    case Player1 => Player1Win
    case Player2 => Player2Win
    case Player3 => Player3Win
  }

  /** The seat a win status belongs to. */
  function Winner(st: GameStatus): (p: Player)
    requires st.IsWin()
    ensures WinStatus(p) == st
  {
    match st
    case Player0Win => Player0
    case Player1Win => Player1
    case Player2Win => Player2
    case Player3Win => Player3
  }

  /** Every status is Ongoing, Tie, or the win of exactly one seat. */
  lemma StatusCases(st: GameStatus)
    ensures st.Ongoing? || st.Tie? || st == WinStatus(Winner(st))
    ensures forall p, q :: WinStatus(p) == WinStatus(q) ==> p == q
  {
  }

  /** A board cell: empty, or holding a player's piece (`BoardCell = Option<Player>`). */
  type BoardCell = Option<Player>

  /** A move, as the (row, col) coordinate the rule sets produce and accept. */
  datatype Move = Move(row: nat, col: nat)

  /** How many seats in `[from, n)` satisfy `f`: `(0..n).filter(f).count()` from `from` on. */
  function CountSeats(f: nat -> bool, from: nat, n: nat): nat
    decreases n - from
  {
    if from >= n then 0 else (if f(from) then 1 else 0) + CountSeats(f, from + 1, n)
  }

  /** Some seat counts exactly when the count is positive. */
  lemma {:induction false} CountSeatsSome(f: nat -> bool, from: nat, n: nat)
    ensures CountSeats(f, from, n) >= 1 <==> exists q :: from <= q < n && f(q)
    decreases n - from
  {
    if from < n {
      CountSeatsSome(f, from + 1, n);
    }
  }

  /** More than one seat counts exactly when two different seats satisfy `f`. */
  lemma {:induction false} CountSeatsTwo(f: nat -> bool, from: nat, n: nat)
    ensures CountSeats(f, from, n) > 1 <==> exists p, q :: from <= p < q < n && f(p) && f(q)
    decreases n - from
  {
    if from < n {
      CountSeatsTwo(f, from + 1, n);
      CountSeatsSome(f, from + 1, n);
      if exists p, q :: from <= p < q < n && f(p) && f(q) {
        var p, q :| from <= p < q < n && f(p) && f(q);
        if p > from {
          assert from + 1 <= p < q < n;
        }
      }
    }
  }
}
