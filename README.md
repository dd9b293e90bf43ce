# Isolation agent: move-selection engine

A Dafny model of the move-selection engine of a two-player Isolation agent
(`CustomPlayer` in `ai-nano-degree/project3/my_custom_player.py`): the
depth-limited alpha-beta search with its static evaluator, the opening-book
statistics, the self-play training context and the per-turn decision policy.

Modules, one per component:

- `Values` (values.dfy): search values, reals extended with -inf and +inf, and their order; Python's `max`/`min` on them.
- `Game` (game.dfy): the game engine's position seen as a finite game tree. A `Tree` node carries the ply count, the board key, the terminal flag, both players' utilities, locations and liberties, and the legal moves in engine order, each with the position it produces.
- `Heuristic` (heuristic.dfy): `ind2xy`, `distance_from_the_center`, `score_liberties`, `score_distance_from_center` and `score`.
- `Search` (search.dfy): the reference depth-limited minimax (`Minimax`, `Backup`). The pruning search `alpha`/`beta` is written as the methods `Alpha`/`Beta` with their loops and early returns, and is proved fail-soft against the reference. The root `alpha_beta` (`AlphaBeta`) is proved to return the first move of maximal minimax value.
- `Book` (book.dfy): `use_action`, `get_ratio`, and the `max(..., key=get_ratio)` over a book entry. It also holds the fold of one game's context into the counters (`FoldContext`, specified by `Record`).
- `Player` (player.dfy): class `CustomPlayer` with the fields `data` (the book), `context` (the training context) and `queue` (the result channel, as the sequence of pushed moves). Its methods are `get_action`, `get_simulated_action`, `find_actions`, `random_action` and `store_book`.

Modelling choices:

- Python's `%` and `//` with the positive divisor 13 agree with Dafny's Euclidean `%` and `/`. So `Ind2Xy` holds for every integer index.
- The evaluator uses exact reals (`/ 5.0` is real division). `float("inf")` is the `PosInf`/`NegInf` of `Values.Value`.
- The search player (`self.player_id`) is passed as a parameter `p`.
- `random.choice` is a nondeterministic pick of a legal move.
- Python dictionary iteration order is left open. `store_book` visits the context's boards in any order; the result does not depend on it. `max` over a book entry returns some action of highest ratio.
- Exceptions become `Turn.Raised(error)` with the state left unchanged. These are: `random.choice`/`max` on an empty action list, a write into a missing context, a lookup in a book that was never loaded, and `max` over an empty book entry.

Behaviour of the code that the model keeps, though a reader might expect otherwise:

- `get_ratio` is non-increasing in losses only once `MIN_NR_OF_GAMES` games are recorded. Below the threshold the ratio is 0, so one more loss can raise it: {2,0} rates 0 and {2,1} rates 2/3 (`Book.RatioNotAntitoneBelowThreshold`).
- Self-play records the random moves of plies 0 and 1 in the context too. Ply 0 and ply 1 each start a fresh context holding just that move.
- When no book was loaded, `store_book` counts into a fresh book that is written out but not kept in `self.data`.
- The search bottoms out at `depth <= 0`, not only at `depth == 0`. The root does not check for a terminal position; it raises when there is no legal move.

## Model

| member | source | states |
|---|---|---|
| Values.Max | ai-nano-degree/project3/my_custom_player.py:182 | the result is an upper bound of both arguments and is one of them |
| Values.Min | ai-nano-degree/project3/my_custom_player.py:196 | the result is a lower bound of both arguments and is one of them |
| Heuristic.Ind2Xy | ai-nano-degree/project3/my_custom_player.py:224-231 | 0 <= x < 13 and index == y * 13 + x, for every integer index |
| Heuristic.Ind2XyInverse | ai-nano-degree/project3/my_custom_player.py:224-231 | decoding y * 13 + x gives back (x, y) for every column 0 <= x < 13 |
| Heuristic.DistanceFromTheCenter | ai-nano-degree/project3/my_custom_player.py:234-237 | the distance is >= 0, and it is 0 exactly at the centre cell (5, 4) |
| Heuristic.ScoreLiberties | ai-nano-degree/project3/my_custom_player.py:213-214 | positive iff we have more liberties than the opponent, zero iff equally many |
| Heuristic.ScoreDistanceFromCenter | ai-nano-degree/project3/my_custom_player.py:217-220 | positive iff we are closer to the centre than the opponent, zero iff equally close |
| Heuristic.ScoreLibertiesAntisymmetric | ai-nano-degree/project3/my_custom_player.py:213-214 | swapping the two liberty lists negates the mobility term |
| Heuristic.ScoreDistanceFromCenterAntisymmetric | ai-nano-degree/project3/my_custom_player.py:217-220 | swapping the two locations negates the centre term |
| Heuristic.ScoreAntisymmetric | ai-nano-degree/project3/my_custom_player.py:203-209 | the evaluator is zero-sum: the two players score a position with opposite signs |
| Search.Alpha | ai-nano-degree/project3/my_custom_player.py:175-186 | a terminal position gives its utility; the depth limit gives the heuristic; otherwise the result is exact inside the window (alpha, beta), an upper bound of the minimax value when it fails low, and a lower bound when it fails high |
| Search.Beta | ai-nano-degree/project3/my_custom_player.py:189-200 | the same fail-soft guarantee for the min node |
| Search.FailSoftWindow | ai-nano-degree/project3/my_custom_player.py:175-200 | a minimax value strictly inside the window is returned exactly; at or below alpha the result is at or below alpha; at or above beta the result is at or above beta; the full window gives the exact value |
| Search.MaxNodeStep | ai-nano-degree/project3/my_custom_player.py:181-185 | one iteration of the max loop keeps its invariant: the running value is exact, or bounds the true maximum when it failed low, and a cutoff returns a lower bound |
| Search.MinNodeStep | ai-nano-degree/project3/my_custom_player.py:195-199 | the mirror image for the min loop |
| Search.BackupPrefix | ai-nano-degree/project3/my_custom_player.py:181-182 | the running max (min) over the first moves never exceeds (falls below) the value over all moves |
| Search.BackupIsMaximum | ai-nano-degree/project3/my_custom_player.py:180-186 | the backed-up value of a max node is the largest child value and is attained by some child |
| Search.BestIndex | ai-nano-degree/project3/my_custom_player.py:172 | the index `max(actions, key=...)` picks is a valid index of the move list |
| Search.BestIndexIsFirstMaximum | ai-nano-degree/project3/my_custom_player.py:172 | the picked move's child value is at least every other child's, and strictly above every earlier move's (first maximum wins ties) |
| Search.BestMoveIsMinimax | ai-nano-degree/project3/my_custom_player.py:169-172 | the root has a move iff there is a legal move; that move is legal; its child value equals the depth-limited minimax value of the root |
| Search.AlphaBeta | ai-nano-degree/project3/my_custom_player.py:169-172 | searching every child with the full window returns the first move of maximal minimax value, or none when there is no move |
| Book.UseAction | ai-nano-degree/project3/my_custom_player.py:91-99 | true iff wins + losses >= 3 and wins >= losses |
| Book.UseActionExamples | ai-nano-degree/project3/my_custom_player.py:91-99 | {2,0} is not used, {3,0} is used, {1,2} is not used |
| Book.GetRatio | ai-nano-degree/project3/my_custom_player.py:103-108 | the ratio lies in [0, 1]; it is 0 below 3 games; otherwise ratio * (wins + losses) == wins |
| Book.UseActionIffRatio | ai-nano-degree/project3/my_custom_player.py:91-108 | an action is used iff it has enough games and a ratio of at least 1/2 |
| Book.RatioMonotoneInWins | ai-nano-degree/project3/my_custom_player.py:103-108 | more wins never lower the ratio |
| Book.RatioAntitoneInLosses | ai-nano-degree/project3/my_custom_player.py:103-108 | once 3 games are recorded, more losses never raise the ratio |
| Book.RatioNotAntitoneBelowThreshold | ai-nano-degree/project3/my_custom_player.py:103-108 | below the threshold one more loss can raise the ratio: {2,0} rates below {2,1} |
| Book.BestRated | ai-nano-degree/project3/my_custom_player.py:58 | nothing on an empty entry (where `max` raises); otherwise an action of the entry whose ratio is at least every other action's |
| Book.Bump | ai-nano-degree/project3/my_custom_player.py:160-163 | one more game is counted: wins + 1 when won, losses + 1 when lost, the other counter unchanged |
| Book.RecordStep | ai-nano-degree/project3/my_custom_player.py:154-163 | recording one more board of the context, whose entry is still untouched, keeps the fold's invariant |
| Book.RecordDone | ai-nano-degree/project3/my_custom_player.py:154-163 | once every board is visited the fold equals `Record` |
| Book.FoldContext | ai-nano-degree/project3/my_custom_player.py:154-163 | the loop over the context, in any visiting order, yields `Record(data, context, won)` |
| Book.RecordSpec | ai-nano-degree/project3/my_custom_player.py:154-163 | after recording, (board, action) has counters iff it had them before or is a recorded pair; each recorded pair's counters are its old ones (or {0,0}) plus one won or lost game; all other counters are unchanged |
| Book.RecordMonotone | ai-nano-degree/project3/my_custom_player.py:154-163 | no counter ever decreases |
| Player.Deepening | ai-nano-degree/project3/my_custom_player.py:115-117 | iterative deepening pushes exactly one move per depth, each a legal move: the j-th is the alpha-beta move at depth `MIN_DEPTH + j`, in increasing depth order |
| Player.CustomPlayer.RandomAction | ai-nano-degree/project3/my_custom_player.py:111-112 | with a legal move, exactly one legal move is pushed; without one, nothing is pushed and the call fails |
| Player.CustomPlayer.FindActions | ai-nano-degree/project3/my_custom_player.py:115-117 | the queue grows by the alpha-beta move of each depth from MIN_DEPTH to MAX_DEPTH, in increasing order; with no legal move nothing is pushed |
| Player.CustomPlayer.PlayWithoutBook | ai-nano-degree/project3/my_custom_player.py:48-53 | before ply 2 one random legal move is pushed, from ply 2 on the iterative-deepening moves |
| Player.CustomPlayer.GetSimulatedAction | ai-nano-degree/project3/my_custom_player.py:120-139 | before ply 2 a random legal move starts a fresh context holding just it; later the depth-3 alpha-beta move is added to the existing context before ply 8 and the context is untouched from ply 8 on; errors leave the context unchanged |
| Player.CustomPlayer.StoreBook | ai-nano-degree/project3/my_custom_player.py:145-163 | without a context nothing happens; otherwise the book written out is `Record(loaded book or empty, context, won)`, kept in `data` only when a book was loaded |
| Player.CustomPlayer.GetAction | ai-nano-degree/project3/my_custom_player.py:29-77 | self-play returns the simulated move and leaves the queue alone. In play the context is unchanged. With the book before ply 8, a missing book raises; a board in the book pushes its best-rated action when usable and otherwise falls back. Every other case plays without the book |
| Player.NormalTurnQueues | ai-nano-degree/project3/my_custom_player.py:29-77 | every turn in play that does not raise pushes at least one move and keeps the earlier pushes |
| Player.WithoutBookQueues | ai-nano-degree/project3/my_custom_player.py:48-53 | without the book every pushed move is legal, and a search turn pushes MAX_DEPTH - MIN_DEPTH + 1 moves |
| Player.SimulationTurnContext | ai-nano-degree/project3/my_custom_player.py:134-139 | the returned move is legal; before ply 8 it is stored in the context under the board (a fresh context before ply 2); from ply 8 on the context is unchanged |

## Left out

- Persistence: the `pickle.dump` to `data.pickle` is not modelled. `StoreBook` returns the book that would be written instead. Loading the book at start-up is outside this file; the loaded book is the constructor's argument.
- The `print` logging in `get_action`, because it is output only.
- `get_best_first_actions`, because it only sorts and prints and it depends on the engine's `DebugState`.
- The random generator: `random.choice` is a nondeterministic pick among the legal moves, with no claim of uniformity.
- The game engine (`actions`, `result`, `terminal_test`, `utility`, `locs`, `liberties`, `board`) and the `DataPlayer` base class with its queue are not part of this model. Each position is given as a `Game.Tree` with the engine's answers, and the queue as the sequence of pushed moves. So board-key turn-invariance and the book's serialisation round-trip, both engine and I/O properties, are not stated.
- IEEE floating point: the scores and the ratio are exact reals, and infinities are the two extra values of `Values.Value`.
- The caller's time limit that cuts `get_action` off mid-search. The model runs every call to completion.
- Book.BestRated: Python's `max` returns the first action of highest ratio in the dictionary's insertion order. The model promises only some action of highest ratio, because insertion order is not modelled.
