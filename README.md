# Reversi rules engine, modelled and verified in Dafny

This project models the rules engine of a console Reversi (Othello) game written in
C++ (`reversi.cpp`, `reversi.h`) and proves what it does:

- the **board**: an 8x8 grid of cells, changed in place by `put`, which
  range-checks the target, rejects an occupied square, collects the adjacent
  squares of the opposite colour (`get_enemy_positions`), scans each of those
  directions outward and flips the run bracketed by a piece of the mover's own
  colour (`flip_cells`), and succeeds only when something was flipped;
  `get` is a range-checked read, `score` counts one colour and `==` compares
  cell by cell;
- the **game**: a turn state machine (`next_move`) that rejects out-of-turn and
  illegal moves without changing anything, counts a successful move, hands the
  turn to the opponent, and detects a forced pass and the end of the game by
  trial placements on copies of the board (`calculate_valid_moves`);
- the **computer player** (`CpuPlayer::get_next_move`): a greedy choice of the
  first square, in row-major order, whose trial placement leaves the player the
  most pieces, or the sentinel move `(Black, -1, -1)`.

Layout:

| file | module | contents |
|---|---|---|
| `types.dfy` | `ReversiTypes` | the enums, `Move` and its sentinel, the 8x8 `Grid` value, error results |
| `rules.dfy` | `Rules` | the rules as pure functions of a grid: enemy directions, the ray scan, flipping, the outcome and grid of a placement, counting, legal-move counts, the opening position |
| `rules_proofs.dfy` | `RulesProofs` | what those functions mean: the bracketing rule, which squares a placement changes, score bookkeeping, legality |
| `board.dfy` | `Boards` | `get_enemy_positions`, `flip_cells` and class `Board` over an `array2<Cell>`, each proved against `Rules` |
| `game.dfy` | `Games` | `calculate_valid_moves` and class `Game` |
| `cpu.dfy` | `Cpu` | class `CpuPlayer`, the greedy strategy, and a game played to the end by two computer players |

The imperative code keeps the source's form: the board is a `const` 8x8 array updated in
place, the game's turn, move counter and status are fields that `NextMove`
reassigns, and the loops of `score`, `calculate_valid_moves`, `get_enemy_positions`,
`flip_cells` and `get_next_move` are `for`/`while` loops with invariants. Each
method's postcondition ties its result and the new state to a function of `Rules`
(`PutOutcome`, `PutGrid`, `EnemyDirs`, `RunLength`, `FlipAll`, `FlipCount`, `Count`,
`ValidMoveCount`); the lemmas of `RulesProofs` then say what those functions mean.
A `Board` carries a ghost `grid` (the cells as a value) that its methods keep equal to the array.

Greedy start at 0: `get_next_move` starts its best score at 0, so a legal move
whose resulting score were 0 or less could never be chosen. This cannot happen: every
legal placement leaves the mover at least two pieces, the placed one and at least one flipped
one (`RulesProofs.LegalScoreAtLeastTwo`). So the sentinel comes back exactly when the
side has no legal move (`Cpu.CpuPlayer.GetNextMove`).

## Model

| member | source | states |
|---|---|---|
| ReversiTypes.PieceCell | reversi.cpp:134-140 | the colour a side places is never Empty |
| ReversiTypes.Opponent | reversi.cpp:214-218 | the other side is different and places the other colour |
| Rules.BracketAtEnd | reversi.cpp:64-83 | a nonzero scan result n is at least the starting distance minus one, and square n + 1 is on the board and holds the mover's colour |
| Rules.BracketAtRun | reversi.cpp:64-83 | a nonzero scan result n passed only on-board squares of the opposite colour from the starting distance to n |
| Rules.BracketAtSpec | reversi.cpp:64-83 | a nonzero scan result n: squares 1..n + 1 are on the board, squares from the start to n hold the opposite colour, square n + 1 holds the mover's |
| Rules.RunLength | reversi.cpp:63-83 | the run flipped along one direction lies entirely on the board |
| Rules.EnemyPrefixMembers | reversi.cpp:34-48 | after the first k of the nine offsets, the list holds exactly the visited offsets whose square is an on-board enemy, in visiting order |
| Rules.EnemyDirs | reversi.cpp:30-51 | the enemy list holds each compass direction at most once, and holds a direction exactly when its adjacent square is on the board and holds the opposite colour |
| RulesProofs.BracketAtIff | reversi.cpp:64-83 | once past enemy squares 1..i-1, the scan returns k exactly when squares 1..k are enemies and square k + 1 holds the mover's colour |
| RulesProofs.RunLengthIsBracket | reversi.cpp:63-83 | a direction flips k >= 1 squares exactly when it is bracketed at distance k + 1 (both directions) |
| RulesProofs.BracketAtFrame | reversi.cpp:64-83 | the scan of a ray depends only on the squares of that ray |
| RulesProofs.NonEnemyRunIsEmpty | reversi.cpp:65-72 | a direction whose adjacent square is off the board, empty or the mover's own flips nothing |
| RulesProofs.FlipRayAt | reversi.cpp:75-78 | flipping a run of n sets exactly squares 1..n of the ray to the mover's colour; every other square is unchanged |
| RulesProofs.FlipAllAt | reversi.cpp:62-84 | after all enemy directions, a square holds the mover's colour if it lies in the run of one of them (judged on the original grid), and is unchanged otherwise |
| RulesProofs.CapturedIffInRun | reversi.cpp:62-84 | the squares in the runs the scans flip are exactly the squares the capture rule names: on a line bracketed beyond them |
| RulesProofs.RunAfterFlips | reversi.cpp:62-84 | flipping earlier directions does not change the run of a later, different direction |
| RulesProofs.NoFlipNoWrite | reversi.cpp:62-84 | when the flip count is zero, the grid is unchanged |
| RulesProofs.FlipCountIsSum | reversi.cpp:60-86 | the count flip_cells returns is the sum of the runs of its directions, each measured on the original grid |
| RulesProofs.SumRunsPositive | reversi.cpp:148-152 | the sum of the runs of the directions is positive exactly when some direction's run is; with `FlipCountIsSum` and `RunLengthIsBracket` this makes the flip count positive exactly when some direction is bracketed |
| RulesProofs.CountSet | reversi.cpp:159-179 | overwriting one square adds one to the count of the new content and removes one from the count of the old content (no change when they are equal) |
| RulesProofs.CountConservation | reversi.cpp:159-179 | Black, White and Empty counts sum to 64 |
| RulesProofs.FlipAllCount | reversi.cpp:53-87 | flipping adds the flip count to the mover's colour, removes it from the opponent's and leaves Empty unchanged |
| RulesProofs.PutCells | reversi.cpp:121-157 | after a legal put, the target holds the mover's colour, so does every square on a line from the target bracketed beyond it, and every other square is unchanged |
| RulesProofs.PutErrorUnchanged | reversi.cpp:121-152 | proof step (unfolds PutGrid): a failed put changes no square and flips nothing; on the array this is `Boards.Board.Put` with `NoFlipNoWrite` |
| RulesProofs.PutScore | reversi.cpp:148-156 | a legal put flips k >= 1 squares: own count + k + 1, opponent count - k, Empty count - 1 |
| RulesProofs.LegalScoreAtLeastTwo | reversi.cpp:148-179 | after a legal put the mover has at least two pieces |
| RulesProofs.LegalIsBracketed | reversi.cpp:121-157 | a legal put targets an empty on-board square and has a bracketed direction |
| RulesProofs.BracketedIsLegal | reversi.cpp:121-157 | an empty on-board square with a bracketed direction is a legal put |
| RulesProofs.LegalIffBracketed | reversi.cpp:121-157 | a put is legal exactly when its square is on the board and empty and some direction is bracketed |
| RulesProofs.CountInRowZero | reversi.cpp:15-23 | the count of valid squares in a row prefix is zero exactly when none of them is valid |
| RulesProofs.CountBeforeZero | reversi.cpp:14-24 | the count over the first i rows is zero exactly when none of their squares is valid |
| RulesProofs.ValidMoveCountZero | reversi.cpp:11-27 | the valid-move count is zero exactly when the side has no legal move |
| RulesProofs.InitialPosition | reversi.cpp:90-95 | the default board is Empty except White at (3,3) and (4,4) and Black at (3,4) and (4,3) |
| RulesProofs.StartingCounts | reversi.cpp:90-95 | the four centre pieces on an empty board give two of each colour and 60 Empty squares |
| RulesProofs.InitialScores | reversi.cpp:90-95 | each side scores 2 on the default board, and 60 squares are Empty |
| RulesProofs.OpeningHasMove | reversi.cpp:90-95 | Black has a legal move on the default board (at (2, 3)) |
| Boards.IsEnemyAt | reversi.cpp:36-44 | the three tests at one offset: on the board, not the placed square, and holding the opposite colour |
| Boards.GetEnemyPositions | reversi.cpp:30-51 | returns the enemy directions in the order of the nine offsets (row offset outer) |
| Boards.ScanRay | reversi.cpp:63-83 | the outward while-loop scan returns the run length of the direction |
| Boards.FlipRun | reversi.cpp:75-78 | the inner loop writes the mover's colour to squares 1..n of the ray, nearest first |
| Boards.FlipDirection | reversi.cpp:63-83 | one direction: returns its run length and leaves the array holding the grid with that run flipped |
| Boards.FlipAllStep | reversi.cpp:62-84 | one more direction extends the flipped grid and the count by that direction's run |
| Boards.FlipCells | reversi.cpp:53-87 | the array ends holding FlipAll of the original grid, and the result is FlipCount |
| Boards.SameGridIff | reversi.cpp:181-183 | two arrays hold the same grid exactly when they agree on all 64 squares |
| Boards.Board.constructor | reversi.cpp:90-95 | a fresh board holding the opening position |
| Boards.Board.FromCells | reversi.cpp:97 | a fresh board holding the given 8x8 cells |
| Boards.Board.Copy | reversi.cpp:17 | a fresh board with its own array, holding the same grid as the original |
| Boards.Board.Create | reversi.cpp:97-107 | WrongRowCount unless 8 rows, then WrongColumnCount unless every row has 8 cells; otherwise a board holding the cells |
| Boards.Board.Get | reversi.cpp:109-119 | succeeds exactly on the board, returning the square; otherwise the row error before the column error, never clamped |
| Boards.Board.Put | reversi.cpp:121-157 | the result is PutOutcome and the new grid is PutGrid of the old grid (see PutCells, PutErrorUnchanged, PutScore) |
| Boards.Board.Score | reversi.cpp:159-179 | the number of squares holding the side's colour |
| Boards.Board.Equals | reversi.cpp:181-183 | true exactly when both boards hold the same grid |
| Games.CalculateValidMoves | reversi.cpp:11-27 | counts the squares where a trial put succeeds; zero exactly when the side has no legal move; the board is not changed |
| Games.Game.constructor | reversi.cpp:185 | the opening position, Black to move, no moves made, status Continue; Black has a legal move |
| Games.Game.WithBoard | reversi.cpp:187 | its own copy of the given board, Black to move, no moves made, status Continue |
| Games.Game.NextMove | reversi.cpp:205-242 | Error exactly when out of turn or illegal, changing nothing; otherwise the board is put, the move counted, and Continue / ContinueWithSkip / GameOver exactly as the opponent / only the mover / neither can move, with the turn and status to match |
| Cpu.ScanStep | reversi.cpp:255-271 | examining one square keeps the scan invariant: a legal square that beats the best so far becomes the choice |
| Cpu.ScanDone | reversi.cpp:250-276 | after the whole board the move is the sentinel exactly when no put is legal, and the greedy choice otherwise |
| Cpu.GreedyChoiceUnique | reversi.cpp:268-270 | at most one move is the first square of highest score |
| Cpu.CpuPlayer.constructor | reversi.cpp:244 | the player is for the given side |
| Cpu.CpuPlayer.GetNextMove | reversi.cpp:250-276 | the sentinel exactly when the side has no legal move; otherwise the legal square of highest resulting score, the first in row-major order among ties; the game is not changed |
| Cpu.PlayTurn | tests.cpp:676-686 | when the side to move has a legal move, the greedy move of the player for that side is accepted (never Error) and counted; unless the game is now over, the side to move again has a legal move |
| Cpu.PlayToEnd | tests.cpp:676-687 | playing on from such a position, no move returns Error, only the last returns GameOver, and the game ends over |
| Cpu.PlayCpuGame | tests.cpp:668-693 | two computer players playing a new game never get Error and reach GameOver within 60 moves |

## Left out

- main.cpp (board printing, player selection, the result printout) and `HumanPlayer::get_next_move` (reversi.cpp:285-323): console input and output, not part of this model.
- The `Player` interface (reversi.h:91-122): `CpuPlayer` is a plain class, and its `piece()` accessor is the constant field `piece`.
- The `Game` accessors `board()`, `status()`, `current_turn()` and `move_count()` (reversi.cpp:189-203) are read directly as the fields `board`, `status`, `currentTurn` and `moveCount`. Read-only access is not enforced: `board()` returns a `const Board &`, but a Dafny caller can call `game.board.Put` directly and bypass `NextMove`.
- C++ exceptions: `get` returns a `Fallible` with `RowOutOfRange` or `ColumnOutOfRange`. The checking constructor `Board(cells)` is the static method `Board.Create`, which returns `WrongRowCount` or `WrongColumnCount`. `Board.FromCells` is the constructor for a grid already known to be 8x8.
- Value semantics of `Board`: the C++ copies (`Board copy_board = board`, `Game(Board)`) are the constructor `Board.Copy`, which allocates a new array.
- `int` overflow is not modelled; integers are unbounded. No counter can overflow anyway: scores and move counts are at most 64, because `Game.Valid` ties `moveCount` to the number of filled squares.
- flip_cells: each iteration of the per-direction loop is split into `ScanRay` (the outward scan) and `FlipRun` (the writes), joined by `FlipDirection`. `flipped_cell_count` grows by the whole run at once rather than one square at a time; the total is the same.
- get_enemy_positions: the tests at one offset are the helper `IsEnemyAt`. `RelativePosition` is `Rules.Dir`.
- Squares along a ray are computed as `Step(row, dr, i)`, which is `row + i * dr` (`Boards.StepIsProduct`), without the multiplication.
- The concrete boards of tests.cpp are not restated as lemmas. Its computer-against-computer game is restated as `Cpu.PlayCpuGame`; the printing of the final scores is left out.
