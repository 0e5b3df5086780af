# NPlayerMinimax in Dafny

This project models the core of NPlayerMinimax, a game engine for board games with up to
four players. It models these parts:

- the multiplayer minimax search with pruning (`minimax_move`, `dfs`, `can_prune`);
- the game object that derives a status and a score vector from injected rule objects;
- the `GameState` record and the `Player` and `GameStatus` vocabulary;
- the concrete rule sets: push-up four in two variants, Othello, and Go in two variants;
- the placeholder evaluator, which turns random draws into a score vector.

The modules follow the source files:

| module | file | what it holds |
|---|---|---|
| `Elements` | `elements.dfy` | `Player` with `to_usize`/`from`, `GameStatus`, `BoardCell`, moves, seat counting |
| `Scores` | `scores.dfy` | score vectors, sums, the distribution invariant, uniform and indicator vectors |
| `GameStates` | `game_state.dfy` | `GameState` (the move counter, the player to move, an integer board) |
| `SpecGame` | `spec_game.dfy` | the game that `GameSpec` rule sets read: dimensions, seats, current and previous state, `get_next_player` |
| `NewGame` | `newgame.dfy` | the game object (`class Game`): status, score, `set_state`, the transition through its rule object |
| `Opt` | `opt.dfy` | the search: `Explore`/`SweepMoves` state what `dfs` computes, and `Dfs`/`SearchMoves` are the imperative search proved against them |
| `Pruning` | `pruning.dfy` | the unpruned reference search, a search cut only against the parent's bound proved equal to it, and a three-seat tree on which the cut of `dfs` changes the root's move |
| `Eval` | `eval.dfy` | the evaluator, with an in-place sort and the gaps between sorted points |
| `Grid` | `grid.dfy` | board helpers the rule sets share: windows, counts, the push-up shift, row-major enumeration |
| `PushUpFourInt` | `pushupfour.dfy` | push-up four on `i32` boards with a configurable line length |
| `PushUpFour` | `push_up_four.dfy` | push-up four on `BoardCell` boards with lines of four |
| `Othello` | `othello.dfy` | Othello: disc flipping, move legality, disc counts, win and tie |
| `Go` | `go.dfy` | Go on `i32` boards: capture by flood fill, and the transition that removes captured stones |
| `UserGame` | `user_game.dfy` | the 9 by 9 Go variant: valid moves, a transition that records a history, stone-count win and tie |

Each rule set's entry points keep their source's form. Loops that build a result are
methods with loop invariants, proved against a specification function. Iterator
expressions are functions. The rule object that keeps a mutable history is a class.
Scores are `real`s. An alpha of minus infinity is the `NegInf` constructor of `Opt.ExtReal`.

## Model

| member | source | states |
|---|---|---|
| Elements.ToUsize | src/game_elements.rs:27-34 | a seat's index is below four |
| Elements.FromUsize | src/game_elements.rs:14-24 | `Player::from(n)` is defined for `n < 4` (the source panics above) and `to_usize` of it is `n` |
| Elements.FromToUsize | src/game_elements.rs:14-34 | `from(to_usize(p)) == p` for every seat |
| Elements.ToUsizeInjective | src/game_elements.rs:27-34 | distinct seats have distinct indices |
| Elements.WinStatus | src/game_elements.rs:39-46 | each seat has a win status, and it is neither Ongoing nor Tie |
| Elements.Winner | src/game_elements.rs:39-46 | every win status belongs to a seat whose win status it is |
| Elements.StatusCases | src/game_elements.rs:39-46 | a status is Ongoing, Tie, or the win of exactly one seat |
| Elements.CountSeatsSome | src/pushupfour.rs:114-118 | a count of seats satisfying a test is positive iff some seat satisfies it |
| Elements.CountSeatsTwo | src/pushupfour.rs:114-118 | the count of winners exceeds one iff two different seats win |
| Scores.Zeros | src/opt.rs:60 | the fallback vector has `n` entries, all zero |
| Scores.UniformIsDistribution | src/newgame.rs:73-74 | the uniform vector has every entry `1/n`, and the entries lie in [0, 1] and sum to 1 |
| Scores.IndicatorIsDistribution | src/newgame.rs:76-79 | the winner's vector is 1 at the winner and 0 elsewhere, and it is a distribution |
| SpecGame.NextPlayer | src/push_up_four.rs:46 | the seat after the mover is a seat of the game: the next index when there is one, and the turn wraps to seat 0 exactly after the last seat |
| NewGame.FirstWinner | src/newgame.rs:63-68 | the scan of win tests never yields Tie, and any winner it yields is a seat of the game at or after the scan's start |
| NewGame.FirstWinnerIsFirst | src/newgame.rs:63-66 | the scan yields seat `q` iff `q` wins and no earlier seat wins |
| NewGame.FirstWinnerNone | src/newgame.rs:63-68 | the scan yields Ongoing iff no seat wins |
| NewGame.StatusSpec | src/newgame.rs:59-69 | the status is Tie iff the tie test holds, even when a seat also wins; it is the win of `q` iff there is no tie and `q` is the lowest winning seat; otherwise it is Ongoing |
| NewGame.ScoreSpec | src/newgame.rs:71-80 | the score is a distribution: uniform for a tie or an ongoing game, 1 at the winner and 0 elsewhere for a win |
| NewGame.Game.constructor | src/newgame.rs:36-57 | a new game has seat 0 to move, move number 0, and a `numRows` by `numCols` board of `-1` |
| NewGame.Game.GetGameStatus | src/newgame.rs:59-69 | the scan with early return computes the status that `StatusSpec` characterises |
| NewGame.Game.GetScore | src/newgame.rs:71-80 | the built vector is the score that `ScoreSpec` characterises |
| NewGame.Game.SetState | src/newgame.rs:86-104 | the state is replaced, and the getters then return the new state's fields |
| NewGame.Game.Transition | src/newgame.rs:111-126 | the state becomes the transition rule's result, and the player to move stays a seat of the game |
| Opt.Raise | src/opt.rs:53 | `max` with a score never lowers an alpha, and the result is finite and at least the score |
| Opt.MaxOther | src/opt.rs:66-71 | the fold bounds every other seat's alpha, and a finite result is one of those alphas |
| Opt.CanPruneSpec | src/opt.rs:65-74 | pruning happens iff some other seat's finite alpha `a` has `score[p] > 1 - a`; with all other alphas at minus infinity it never happens |
| Opt.ExploreSpec | src/opt.rs:29-62 | a terminal node returns its score and no move; a node at the depth limit returns the evaluator's vector; an ongoing node with no moves returns zeros; otherwise the move is one of the valid moves, namely the first strictly best child for the mover, with that child's score |
| Opt.SweepFirstBest | src/opt.rs:42-48 | the kept child is the first strict maximum for the mover: every earlier child is strictly worse, and no later child is better |
| Opt.SweepChildren | src/opt.rs:42-45 | every child score the loop records is the search value of that child, searched with the mover's alpha at least its value on entry |
| Opt.SweepStopsOnPrune | src/opt.rs:46-52 | the loop stops before the last move only right after a new best that passes the pruning test |
| Opt.ExploreShares | src/opt.rs:29-62 | when the evaluator returns distributions, every score the search returns is a distribution or the zero fallback, with entries in [0, 1] |
| Opt.Dfs | src/opt.rs:22-63 | `dfs` returns what `Explore` describes, and on every exit path the game state and the whole alpha vector are as on entry |
| Opt.SearchMoves | src/opt.rs:37-57 | the move loop restores the state, only raises the mover's alpha, leaves the other alphas untouched, and keeps the best score and move of `SweepMoves` |
| Opt.ScanStep | src/opt.rs:42-54 | one turn of the move loop: a child not strictly better for the mover is only recorded; a strictly better one becomes the best and either ends the sweep when it passes the pruning test or raises the mover's alpha, and the rest of the loop still yields the sweep of the whole node |
| Opt.ScanDone | src/opt.rs:42-57 | after the last move the kept score and move are the best child and move of the whole sweep, and there is none exactly when the sweep keeps none |
| Opt.SearchChild | src/opt.rs:43-45 | applying a move and searching one level deeper returns the child's search value and hands the alphas back unchanged |
| Pruning.FullSweepKeepsBest | src/opt.rs:42-48 | the unpruned sweep keeps a best child at least as good for the mover as the best one on entry |
| Pruning.SharesBound | src/opt.rs:65-74 | in a score vector that is a distribution or zero, another seat's entry is at most `1 - score[p]` |
| Pruning.SoundAgrees | src/opt.rs:46-52 | a search cut only against its parent's bound either equals the unpruned search, or both are below that bound for the parent's seat; both return distributions or zero |
| Pruning.SweepAgrees | src/opt.rs:42-57 | the same for the move loop: the cut sweep keeps the unpruned sweep's best child, or both are below the parent's bound |
| Pruning.SoundSearchIsFull | src/opt.rs:46-52 | from the root, with no bound, the search cut only against the parent equals the unpruned search in score and move |
| Pruning.DeepCutChangesRootChoice | src/opt.rs:65-74 | on the three-seat tree, `dfs` as written returns `[0.5, 0.25, 0.25]` with move (0, 0), while the unpruned search returns `[0.6, 0.2, 0.2]` with move (0, 1) |
| Opt.MinimaxMove | src/opt.rs:6-20 | all alphas start at minus infinity; the result is the root mover's entry and the move of the search; the game is left as found; a depth limit of 0 chooses no move |
| Eval.Gaps | src/eval.rs:36 | `n + 1` points give `n` differences |
| Eval.GapsSum | src/eval.rs:36 | the differences telescope to the last point minus the first |
| Eval.GapsAt | src/eval.rs:36 | the `i`-th difference is point `i + 1` minus point `i` |
| Eval.SortedUnique | src/eval.rs:33 | two sorted arrangements of the same points are equal, so the unstable sort's result is determined |
| Eval.SortAscending | src/eval.rs:33 | the array ends up sorted ascending and a permutation of its old contents |
| Eval.GapsIsDistribution | src/eval.rs:30-36 | for draws in [0, 1], the gaps of the sorted points 0, draws, 1 are each in [0, 1] and sum to 1 |
| Eval.Evaluate | src/eval.rs:20-39 | the result has `numPlayers` entries, is a distribution, and depends on the draws alone, not on the state |
| Grid.CountOf | src/push_up_four.rs:62-68 | a count of matching cells never exceeds the length |
| Grid.CountOfConcat | src/push_up_four.rs:62-68 | counting distributes over concatenation |
| Grid.CountOfAll | src/push_up_four.rs:62-68 | the count equals the length iff every cell matches |
| Grid.CountOfZero | src/othello.rs:83-89 | the count is zero iff no cell matches |
| Grid.CountOfUpdate | src/user_game.rs:52-53 | overwriting one cell changes the count by that cell alone |
| Grid.WindowWinIffRun | src/pushupfour.rs:53-55 | on a window of exactly `n` cells, "at least `n` of the player's" means "all of them the player's" |
| Grid.Column | src/pushupfour.rs:77 | a column has one cell per row, taken from that column |
| Grid.Diagonal | src/pushupfour.rs:95 | the `k`-th cell of a diagonal window is `board[i + k][j + k]` |
| Grid.AntiDiagonal | src/pushupfour.rs:105 | the `k`-th cell of a counter-diagonal window is `board[i + k][j - k]` |
| Grid.RowWindow | src/pushupfour.rs:63 | the `k`-th cell of a row window is `row[i + k]` |
| Grid.ColWindow | src/pushupfour.rs:79 | the `k`-th cell of a column window is `column[i + k]` |
| Grid.IsRowWin | src/pushupfour.rs:57-69 | the row scan with early return finds a win exactly when some row window wins |
| Grid.IsColWin | src/pushupfour.rs:71-85 | the column scan finds a win exactly when some column window wins |
| Grid.IsDiagWin | src/pushupfour.rs:87-112 | the diagonal scan finds a win exactly when some diagonal or counter-diagonal window wins |
| Grid.RowWinIffRun | src/pushupfour.rs:57-69 | a row win is exactly `n` consecutive cells of the player across some row |
| Grid.ColWinIffRun | src/pushupfour.rs:71-85 | a column win is exactly `n` consecutive cells of the player down some column |
| Grid.MainDiagWinIffRun | src/pushupfour.rs:92-100 | a diagonal win is exactly `n` consecutive cells of the player down-right |
| Grid.AntiDiagWinIffRun | src/pushupfour.rs:102-110 | a counter-diagonal win is exactly `n` consecutive cells of the player down-left |
| Grid.PushUp | src/pushupfour.rs:23-29 | the shifted board keeps the board's shape |
| Grid.PushUpSpec | src/pushupfour.rs:23-29 | after the push, `new[r][col] == old[r + 1][col]` above the bottom, the bottom cell holds the chip, and every other column is unchanged |
| Grid.PushChip | src/pushupfour.rs:23-29 | the in-place shift loop on the copied board yields `PushUp` |
| Grid.GridCountUpdate | src/user_game.rs:52-53 | writing one cell changes the board's count by that cell alone |
| Grid.GridCountSameCells | src/othello.rs:83-89 | boards that match the value in the same cells have the same count |
| Grid.GridCountUniform | src/push_up_four.rs:16-18 | a `rows` by `cols` board that is uniformly `v` has `rows * cols` cells of `v` |
| Grid.GridCountZero | src/pushupfour.rs:48-50 | a board has no cell of `v` iff its count of `v` is zero |
| Grid.PushUpCount | src/push_up_four.rs:36-47 | the push drops the top cell and adds the chip, and counts change accordingly |
| Grid.OpenColumns | src/pushupfour.rs:6-17 | the bottom-row moves of exactly the columns whose top cell is empty, in increasing column order |
| Grid.CellsEqual | src/go.rs:7-19 | the nested scan returns, in row-major order, exactly the cells holding the value |
| Grid.Place | src/user_game.rs:52-53 | placing a value writes that cell only and keeps the board's shape |
| PushUpFourInt.ValidMoves | src/pushupfour.rs:5-18 | moves are `(rows - 1, c)` for exactly the columns `c` whose top cell is `-1`, in increasing `c` |
| PushUpFourInt.Transition | src/pushupfour.rs:20-37 | the chip pushes its column up from below; the turn passes to `(toMove + 1) % numPlayers` and the counter grows |
| PushUpFourInt.InitialCounted | src/newgame.rs:46-47 | the empty board at move 0 satisfies "move counter + empty cells == cells" |
| PushUpFourInt.TransitionKeepsCounted | src/pushupfour.rs:23-35 | a valid move fills exactly one empty cell, so the counter and the empty cells stay in step |
| PushUpFourInt.FullWhenCounted | src/pushupfour.rs:46-51 | while in step, the counter reaches `rows * cols` iff no cell is empty |
| PushUpFourInt.WinsIffRun | src/pushupfour.rs:121-123 | a win is `nInARow` consecutive chips across, down, or along either diagonal |
| PushUpFourInt.IsWin | src/pushupfour.rs:121-123 | row, column, then diagonal checks compute the win test |
| PushUpFourInt.IsTie | src/pushupfour.rs:46-51 | a tie iff the counter equals `rows * cols` or two different seats win |
| PushUpFour.InitialBoard | src/push_up_four.rs:16-18 | `rows` by `cols` cells, all empty |
| SpecGame.InitialToMove | src/push_up_four.rs:20-22 | seat 0 opens; `src/othello.rs:102-104` and `src/user_game.rs:33-35` return the same seat and share this one definition |
| PushUpFour.ValidMoves | src/push_up_four.rs:24-34 | moves are `(rows - 1, c)` for exactly the columns whose top cell is `None`, in increasing `c` |
| PushUpFour.Transition | src/push_up_four.rs:36-47 | the chip pushes its column up from below; `get_next_player` moves next and the counter grows |
| PushUpFour.TransitionFillsOneCell | src/push_up_four.rs:36-47 | a valid move fills one empty cell and adds exactly one chip of the mover |
| PushUpFour.WinsIffRun | src/push_up_four.rs:49-53 | a win is four consecutive chips of the player in some direction |
| PushUpFour.IsWin | src/push_up_four.rs:49-53 | the row, column and diagonal scans compute the win test |
| PushUpFour.IsTie | src/push_up_four.rs:55-58 | a tie iff the counter equals `rows * cols` or two different seats win |
| Othello.DirectionsAreDirections | src/othello.rs:9-18 | the eight offsets are eight nonzero unit steps |
| Othello.WalkStep | src/othello.rs:26-28 | an opponent disc joins the run and the walk goes on |
| Othello.WalkStop | src/othello.rs:29-35 | a walk stops at a non-opponent cell, and it is closed exactly at the mover's disc |
| Othello.StepCellAt | src/othello.rs:38-39 | `i` steps lead to `(r + i * dr, c + i * dc)` |
| Othello.WalkRunAt | src/othello.rs:21-40 | the `i`-th collected cell is `i` steps from the start |
| Othello.WalkOnBoard | src/othello.rs:26 | every collected cell is on the board |
| Othello.WalkRunOpponent | src/othello.rs:28 | every collected cell holds an opponent disc |
| Othello.WalkEndSpec | src/othello.rs:26-36 | the cell after the run is no opponent disc, and it is the mover's exactly when the ray is closed |
| Othello.SetCellsSpec | src/othello.rs:30-32 | the listed cells hold the value, and every other cell is unchanged |
| Othello.FlipPieces | src/othello.rs:30-32 | the loop over the collected pieces sets each to the mover's disc |
| Othello.CollectingAdvances | src/othello.rs:28 | collecting an opponent disc keeps the collected cells plus the rest of the walk equal to the run |
| Othello.CollectingStops | src/othello.rs:29-35 | at the end of the walk the collected cells are the whole run, and the closed flag is right |
| Othello.CollectRun | src/othello.rs:24-40 | the collecting loop returns the run and whether it is closed by the mover's disc |
| Othello.FlipDirection | src/othello.rs:21-40 | one direction flips its run exactly when it is closed; an open ray changes nothing |
| Othello.FlipDiscs | src/othello.rs:8-42 | the eight directions in order, each on the board the previous ones left |
| Othello.OnlyCapturesTransitive | src/othello.rs:20-41 | "only opponent discs turned to the mover" composes across directions |
| Othello.RunCellCaptured | src/othello.rs:26-32 | a cell a closed ray turns held an opponent disc and is not the placed cell |
| Othello.WalkRunCell | src/othello.rs:21-40 | the `i`-th cell of a run is `i` steps out, on the board, and an opponent disc |
| Othello.FlipRayCaptures | src/othello.rs:20-41 | one direction only turns opponent discs and never touches the placed cell |
| Othello.FlipFromCaptures | src/othello.rs:20-41 | the first `k` directions together only turn opponent discs and leave the placed cell alone |
| Othello.FlippedCaptures | src/othello.rs:27-35 | `flip_discs` never empties a cell, never changes an empty cell or the mover's own disc, and keeps the number of empty cells |
| Othello.InitialBoard | src/othello.rs:93-100 | 8 by 8 whatever dimensions are asked for, with seat 0 on (3,3) and (4,4), seat 1 on (3,4) and (4,3), and all else empty |
| Othello.Transition | src/othello.rs:118-123 | the mover's disc goes on the cell, the discs it outflanks are flipped, `get_next_player` moves next and the counter grows |
| Othello.TransitionPlacesOneDisc | src/othello.rs:118-123 | on an empty cell, the placed disc stays, exactly one empty cell is filled, and otherwise only opponent discs change |
| Othello.ScanRun | src/othello.rs:61-77 | the scan loop returns whether the ray is closed and whether an opponent disc came first |
| Othello.ScanDirection | src/othello.rs:60-77 | the scan of direction `k` reports that direction's ray |
| Othello.IsValidMove | src/othello.rs:44-81 | as written: an occupied cell is refused, and the first direction closed by the mover's disc decides, by whether an opponent disc came first |
| Othello.IsLegalMove | src/othello.rs:44-81 | corrected: the cell is empty and some direction outflanks opponent discs |
| Othello.FirstClosedOutflanks | src/othello.rs:60-80 | the direction that decides `is_valid_move` positively outflanks |
| Othello.AsWrittenIsLegal | src/othello.rs:44-81 | whatever `is_valid_move` accepts is legal |
| Othello.AsWrittenRefusesOpening | src/othello.rs:60-80 | on the opening board `is_valid_move` refuses seat 0's legal move (2, 4) |
| Othello.RowValidMoves | src/othello.rs:109-113 | as written: the inner loop keeps exactly the cells of one row that `is_valid_move` accepts, left to right |
| Othello.RowLegalMoves | src/othello.rs:109-113 | corrected: the inner loop keeps exactly the legal cells of one row, left to right |
| Othello.GetValidMoves | src/othello.rs:106-116 | as written: exactly the cells of the 8 by 8 board that `is_valid_move` accepts for the player to move, in row-major order |
| Othello.GetLegalMoves | src/othello.rs:106-116 | corrected: exactly the legal cells for the player to move, in row-major order |
| Othello.NoLegalMoveAsWritten | src/othello.rs:106-116 | a player with no legal move has an empty move list as written too |
| Othello.Opponent | src/othello.rs:127-131 | the opponent is seat 0 or 1: seat 1 for seat 0, seat 0 for every other seat, so for seats 0 and 1 it is the other one |
| Othello.NoValidMoves | src/othello.rs:132 | as written: the move list is empty iff `is_valid_move` accepts no cell for the player to move |
| Othello.IsWin | src/othello.rs:125-138 | as written: a win iff `is_valid_move` accepts no cell for the player to move and `player` has more discs than its opponent |
| Othello.IsTie | src/othello.rs:140-145 | as written: a tie iff `is_valid_move` accepts no cell for the player to move and seats 0 and 1 have as many discs |
| Othello.NoLegalMoves | src/othello.rs:132 | corrected: the move list is empty iff the player to move has no legal move |
| Othello.IsWinCorrected | src/othello.rs:125-138 | corrected: a win iff the player to move has no legal move and `player` has more discs than its opponent |
| Othello.IsTieCorrected | src/othello.rs:140-145 | corrected: a tie iff the player to move has no legal move and seats 0 and 1 have as many discs |
| Othello.OneOutcome | src/othello.rs:125-145 | as written and corrected, seats 0 and 1 never both win, a tie excludes either win, and every outcome needs an empty move list; a corrected outcome is also one as written |
| Othello.AsWrittenEndsEarly | src/othello.rs:125-138 | on a board where seat 0 to move can still play (0, 0), the move list as written is empty and seat 0 wins three discs to one, while the corrected game goes on |
| Go.ValidMoves | src/go.rs:5-19 | exactly the cells holding `-1`, in row-major order |
| Go.SealedPathHasNoLiberty | src/go.rs:76-103 | no same-stone path from a sealed set reaches a cell with a liberty |
| Go.SealedCannotEscape | src/go.rs:76-103 | a cell of a sealed set does not escape |
| Go.LibertyEscapes | src/go.rs:89-92 | a stone next to an empty cell escapes |
| Go.NeighbourEscapes | src/go.rs:93-97 | a stone whose same-stone neighbour escapes escapes too |
| Go.IsCaptured | src/go.rs:76-103 | the search only grows the visited set and always visits its cell; a cell already visited answers true and adds nothing; false means the group escapes; true means every newly visited cell holds the stone and has all its neighbours settled |
| Go.SettledGrows | src/go.rs:76-103 | what is settled against a visited set stays settled as the set grows |
| Go.FreshSearchDecides | src/go.rs:65 | from an empty visited set, `is_captured` is true iff the group has no liberty |
| Go.Cleared | src/go.rs:59-74 | clearing keeps the board's shape |
| Go.CapturedCells | src/go.rs:60-69 | the cells noted are exactly the stones of `player` whose group has no liberty on the board as it was |
| Go.RemoveCapturedStones | src/go.rs:59-74 | the result is the clearing of those stones, whatever order the set is emptied in |
| Go.ClearedByCells | src/go.rs:71-73 | a board that agrees with the clearing cell by cell is the clearing |
| Go.ChainSurvives | src/go.rs:59-74 | a path of `player`'s stones ending next to an empty cell survives the clearing |
| Go.ClearedLeavesNoCapturedGroup | src/go.rs:59-74 | after the clearing, every remaining stone of `player` escapes |
| Go.ClearedOnlyRemovesPlayer | src/go.rs:59-74 | clearing only turns stones of `player` into `-1`; every other cell is unchanged |
| Go.ClearedIdempotent | src/go.rs:59-74 | clearing twice is clearing once |
| Go.Opponent | src/go.rs:30 | the opponent is seat 1 for seat 0 and seat 0 for every other seat, so it is 0 or 1 and differs from the mover |
| Go.Transition | src/go.rs:22-39 | the mover's stone goes down, the opponent's doomed stones come off, the turn passes to `(toMove + 1) % numPlayers` and the counter grows |
| Go.TransitionSpec | src/go.rs:24-31 | the placed stone stays, every cell without an opponent stone is kept, and no opponent group is left without a liberty |
| Go.IsWin | src/go.rs:41-48 | no seat ever wins |
| Go.IsTie | src/go.rs:50-57 | no state is a tie |
| UserGame.InitialBoard | src/user_game.rs:13-31 | nine rows of nine cells, all 81 empty |
| UserGame.CountTerritory | src/user_game.rs:69-76 | the two tallies are seat 0's and seat 1's stone counts |
| UserGame.UserGameSpec.constructor | src/user_game.rs:21-25 | the history starts empty |
| UserGame.UserGameSpec.GetValidMoves | src/user_game.rs:37-49 | exactly the empty cells that are neither suicide nor ko, in row-major order |
| UserGame.UserGameSpec.Transition | src/user_game.rs:51-62 | the mover's stone goes on the cell, `get_next_player` moves next, the counter grows, and the new board joins the history |
| UserGame.TransitionFillsOneCell | src/user_game.rs:51-62 | a move on an empty cell fills one cell and adds one stone of the mover |
| UserGame.UserGameSpec.IsWin | src/user_game.rs:64-84 | as written: false unless the state repeats the previous move counter; then `player` has more stones than the seat to move next |
| UserGame.UserGameSpec.IsWinCorrected | src/user_game.rs:64-84 | corrected: `player` has more stones than the other seat |
| UserGame.UserGameSpec.IsTie | src/user_game.rs:86-104 | false unless the counter repeats; then seats 0 and 1 have as many stones |
| UserGame.Other | src/user_game.rs:79 | for seats 0 and 1, the other seat is the other one of the two |
| UserGame.OutcomeTrichotomy | src/user_game.rs:64-104 | with the corrected test, a settled game is exactly one of: seat 0 wins, seat 1 wins, tie; an unsettled game is none |
| UserGame.AsWrittenNextPlayerCannotWin | src/user_game.rs:79 | on the 9 by 9 board, a settled game where seat 0 leads and seat 0 moves next is neither a win nor a tie as written, though the intended test makes it a win for seat 0 |
| UserGame.SeatIndex | src/user_game.rs:73 | the two tallies are indexed by seats 0 and 1 |

## Left out

- `src/lib.rs`, `src/main.rs` and the JavaScript front end: host bindings, a terminal loop, timing and printing.
- The traits in `src/game_traits.rs`, `src/gametraits.rs` and `src/game_spec.rs` declare no behaviour. The injected rule objects of `newgame.rs` are `NewGame.Rules`, a datatype of function values.
- Floating point. Scores and alphas are `real`, and `f64::NEG_INFINITY` is `Opt.ExtReal.NegInf`. Rounding, NaN and `partial_cmp` failures are not modelled.
- The random draws of `src/eval.rs`: `Eval.Evaluate` takes them as a parameter, each in [0, 1].
- Eval.SortAscending: `sort_unstable_by` is modelled as an insertion sort. This is enough because `Eval.SortedUnique` shows that every sorted permutation is the same sequence.
- SpecGame.NextPlayer: the `Game` type that `GameSpec` rule sets read is not part of this model. `get_next_player` is taken to be round robin over the game's seats, as the integer-board rules compute it. `SpecGame.CellGame` stands in for that game.
- The `Game` object that `opt.rs` calls is not part of this model. `NewGame.Game` (`src/newgame.rs`) plays that role with `(row, col)` moves.
- Opt.Dfs and Opt.MinimaxMove: they require that the evaluator returns one entry per seat and that transitions keep the player to move a seat of the game. Otherwise the source's `alphas[player_idx]` and `score[player_idx]` panic.
- PushUpFourInt.IsWin, PushUpFourInt.IsTie, PushUpFour.IsWin and PushUpFour.IsTie require the line length to fit the board. The source subtracts it from the dimensions in `usize`, which underflows otherwise.
- Boards are rectangular in every rule set. A ragged board is excluded by `Grid.IsGrid` in the requires.
- Go.Transition: the `as i32` cast of the player to move is the identity here, since seats are below four.
- Go.RemoveCapturedStones: `HashSet` iteration order is modelled by an arbitrary choice from the remaining set. The result does not depend on it.
- UserGame.UserGameSpec.Transition: the source inserts into `history` through `&self`. Here `history` is a field that the method may modify. No rule reads the history, because suicide and ko are not implemented (`UserGame.IsSuicide` and `UserGame.IsKo` are always false).
- UserGame.UserGameSpec.IsWin requires, once the counter repeats, that only seats 0 and 1 have stones and that the seats compared are 0 or 1. Otherwise the two-entry `territory` vector panics on its index (`src/user_game.rs:73-79`).
- UserGame.UserGameSpec.IsTie requires that only seats 0 and 1 have stones once the counter repeats. Otherwise `territory[player.to_usize()]` panics (`src/user_game.rs:94`).
- NewGame.Game.Transition: `src/newgame.rs:143-145` calls the rule object's `transition` and drops the `GameState` it returns, and that call does not match the signature in `src/gametraits.rs:10`. The model stores the returned state, as the earlier version at `src/newgame.rs:111-126` does and as the search in `src/opt.rs` needs.
- Othello.IsWin and Othello.IsTie check only the move list of the player to move, as the code does; the comment at `src/othello.rs:141` speaks of neither player being able to move, and passing is not modelled.
- Opt.ExploreSpec states what `dfs` computes, cut included; with three or more seats that cut is not sound (see Findings), so no lemma relates `Opt.Explore` to `Pruning.FullExplore` beyond `Pruning.DeepCutChangesRootChoice`.

## Findings

| source | as written | input that shows it | evidently intended | confidence | as-written member | corrected member |
|---|---|---|---|---|---|---|
| src/othello.rs:60-80 | `is_valid_move` returns at the first direction that reaches one of the mover's discs, even when no opponent disc lies between; later directions are never looked at | the opening board, seat 0 playing (2, 4): the down-left ray meets seat 0's disc on (3, 3) at once and the move is refused, though the downward ray outflanks seat 1's disc on (3, 4) | a cell is a valid move when some direction outflanks opponent discs | not executed | Othello.AsWrittenRefusesOpening | Othello.IsLegalMove |
| src/othello.rs:125-138 | `is_win` and `is_tie` read the move list of `get_valid_moves`, which filters with `is_valid_move` as written, so a player who can still move may be declared out of moves | seat 0 on (0, 1), (2, 1) and (2, 2), seat 1 on (1, 1), seat 0 to move: (0, 0) outflanks (1, 1) diagonally, but the ray to the right meets (0, 1) first and the cell is refused; no other cell is legal, so seat 0 wins three discs to one (a position set through `set_state`: play from the opening keeps the centre four cells filled) | the game ends only when the player to move has no legal move | not executed | Othello.AsWrittenEndsEarly | Othello.IsWinCorrected |
| src/opt.rs:65-74 | `can_prune` compares a new best with the alphas of every other seat along the whole path, not only the parent's; with three seats a cut below a grandparent can discard the move the root would choose | three seats, depth limit 3: the root (seat 0) has moves (0, 0), whose line ends at `[0.5, 0.25, 0.25]`, and (0, 1) to a seat 1 node whose first child (seat 2) has leaves `[0, 0.3, 0.7]` and `[0, 0, 1]` and whose second child (seat 2) has the leaf `[0.6, 0.2, 0.2]`; the cut at the first child discards the second, and the root chooses (0, 0) with 0.5 instead of (0, 1) with 0.6 | pruning never changes the root's score or move | not executed | Pruning.DeepCutChangesRootChoice | Pruning.SoundSearchIsFull |
| src/user_game.rs:79 | `is_win(player)` compares `player`'s stones with those of `get_next_player()`, so the seat to move next is compared with itself and never wins | two seats, the 9 by 9 board with one stone of seat 0 on (0, 0), seat 1 to move (seat 0 next), previous state with the same move counter: seat 0 leads, yet neither seat wins and it is no tie | `player` wins with more stones than the other seat | not executed | UserGame.AsWrittenNextPlayerCannotWin | UserGame.UserGameSpec.IsWinCorrected |
