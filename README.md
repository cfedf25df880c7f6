# 2048 game logic in Dafny

This project models the game logic of `Game2048.java`, a single-file Swing
version of the sliding-tile puzzle 2048, and proves properties of it.

The model covers these parts of the game:

- **Tiles.** Each tile has a value and a per-move `merged` flag, with the
  merge rule `canMergeWith` and the doubling `mergeWith`.
- **`move`.** Every tile is visited in the order `j = |countDownFrom - i|`.
  Each tile is pushed step by step through empty cells and merges at most
  once. With `checkingAvailableMoves` set, `move` is a dry run that only asks
  whether some tile could take a first step.
- **The four direction moves** and the dry-run query `movesAvailable`.
- **`clearMerged`.**
- **`addRandomTile`.** It probes from a random start index with wrap-around:
  first `(pos + 1) % 16`, then onwards, with the start cell probed last. It
  fills the first empty cell it meets with a 2, or with a 4 on a one-in-ten
  draw.
- **The post-move policy.** After a change, while `highest` is below 2048:
  the flags are cleared, one tile spawns, and the game is over when no
  direction can move. At exactly 2048 the game is won.
- **`startGame`.** It does nothing while a game is running. Otherwise it
  resets both counters, creates a fresh grid and spawns two tiles.

The model has two layers:

- **Specification.** Pure functions over a 16-cell row-major board
  (`seq<Cell>`, cell (r, c) at index `4 * r + c`): `Engine.Push`,
  `Engine.Sweep`, `Engine.SlideAll`, `Engine.CanMove`, `Spawning.Spawn`,
  `Game2048.Policy`, `Game2048.MoveOutcome` and `Game2048.StartBoard`. The
  lemmas about them are the properties of the game.
- **`Game2048.Game`.** An imperative class with the source's fields: the
  grid as an array of 16 cells (null before the first start), `score`,
  `highest`, the state and the dry-run flag. Its methods update the array in
  place and are proved to do exactly what the specification functions say.

The game invariant `GameInv` holds from the first start on
(`StartEstablishesInv`) and every move keeps it (`MovePreservesInv`).
Together these show that `highest` never passes 2048, so the policy's
branch for `highest > 2048` is never taken. The model still keeps that
branch, as the source does.

The score is bounded too. Building a tile of value 2^k out of 2s earns
(k - 1) * 2^k points. Each merge adds to the score exactly what it adds to
that build score, and a spawn never lowers it. So the score never exceeds the
build score of the board (`ScoreBounded`: `StartScoreBounded`,
`MovePreservesScoreBounded`). With every tile at most 2048, the score stays at
most 327680 (`ScoreFitsInt`). This holds after a win too, when moves go on
without spawns.

Files:

- `tile.dfy`: module `Tiles`.
- `board.dfy`: module `Boards`.
- `engine.dfy`: module `Engine`.
- `spawn.dfy`: module `Spawning`.
- `game.dfy`: module `Game2048`.

## Model

| member | source | states |
|---|---|---|
| Tiles.NewTile | Game2048.java:382-384 | a new tile carries the given value and is not marked merged |
| Tiles.SetMerged | Game2048.java:390-392 | sets the merged flag to the given value and keeps the tile's value |
| Tiles.MergeWith | Game2048.java:398-405 | when `canMergeWith` holds, the tile doubles, becomes merged and the new value is returned; otherwise the tile is unchanged and -1 is returned |
| Tiles.CanMergeWith | Game2048.java:394-396 | a tile may absorb another exactly when neither merged during this move, the other cell holds a tile, and the values agree; what follows from that is proved by `CanMergeSymmetric`, `MergedTileIsFinal` and `MergeResultIsFinal` |
| Tiles.CanMergeSymmetric | Game2048.java:394-396 | two tiles may merge in either order or in neither |
| Tiles.MergedTileIsFinal | Game2048.java:394-396 | a tile merged during this move can neither absorb nor be absorbed again |
| Tiles.MergeResultIsFinal | Game2048.java:398-405 | the tile a merge yields can neither absorb another tile nor be absorbed in the same move; a failed merge leaves the tile as it was |
| Tiles.DoubleIsTileValue | Game2048.java:400 | doubling a power of two (at least 2) gives a power of two |
| Tiles.MergeKeepsTileValue | Game2048.java:398-402 | a merge of tile values yields a tile value, strictly larger than before |
| Tiles.SpawnValuesAreTileValues | Game2048.java:229 | the two spawn values 2 and 4 are tile values |
| Tiles.Log2 | Game2048.java:400 | the exponent of a power of two, zero exactly for 1 |
| Tiles.Log2Double | Game2048.java:400 | doubling a power of two raises its exponent by one |
| Tiles.Log2Monotone | Game2048.java:400 | a smaller power of two has no larger exponent |
| Tiles.BuildScore | Game2048.java:278-281 | the score a tile of value 2^k would have earned if built out of 2s, (k - 1) * 2^k, is never negative |
| Tiles.BuildScoreDouble | Game2048.java:398-402 | merging two tiles of value v adds exactly 2v, the value `mergeWith` returns, to what they were worth |
| Tiles.BuildScoreBelowTarget | Game2048.java:278-281 | a tile of value at most 2048 is worth at most 2048 * 10 |
| Boards.EmptyBoard | Game2048.java:144 | a fresh grid has 16 cells, all empty |
| Boards.EmptyBoardTotals | Game2048.java:144 | a fresh grid has no tile, so every total over it is zero |
| Boards.CountBounds | Game2048.java:223-227 | the number of tiles is at most 16, and less than 16 exactly when some cell is empty (the probe's stopping condition) |
| Boards.Unmark | Game2048.java:338-339 | resetting one cell's flag keeps it empty or keeps its tile's value, and leaves the tile unmerged |
| Boards.ClearFlags | Game2048.java:335-340 | every cell becomes its unmarked version, and the board keeps its size |
| Boards.ClearFlagsKeepsTiles | Game2048.java:335-340 | clearing the flags keeps the sum of values, the number of tiles, the empty cells and the tile values, and leaves no tile merged |
| Boards.BuildTotalBounds | Game2048.java:278-281 | on a board whose tiles are at most 2048, building every tile out of 2s earns between 0 and 16 * 2048 * 10 |
| Engine.DirOf | Game2048.java:309-333 | the pair (yIncr, xIncr) passed by a direction move is that direction's unit vector |
| Engine.Ahead | Game2048.java:252-255 | the next cell in a direction lies on the grid and is strictly nearer the edge, or there is none |
| Engine.AheadIsNeighbour | Game2048.java:252-255 | `Ahead` is the cell (r + yIncr, c + xIncr) exactly when that cell is inside the grid |
| Engine.Order | Game2048.java:244 | the cell visited at step i of a traversal from either origin lies on the grid; `TraversalVisitsEachCellOnce` proves the order is a permutation |
| Engine.OriginFor | Game2048.java:309-333 | each direction's move passes 0 (up, left) or 15 (down, right) as its traversal origin |
| Engine.FarthestFirst | Game2048.java:243-247 | with the origin each move passes, of two cells on one line of motion the one nearer the edge the tiles move towards is visited first |
| Engine.Slide | Game2048.java:265-271 | a slide moves the tile into the empty cell ahead, empties its old cell and sets the change flag |
| Engine.Merge | Game2048.java:278-284 | a merge empties the absorbed tile's cell and sets the change flag |
| Engine.PushSlides | Game2048.java:260-271 | a push onto an empty neighbour is a slide, and the push goes on from the new cell |
| Engine.PushMerges | Game2048.java:273-284 | a push onto a neighbour that can absorb the tile is exactly one merge, and the push ends |
| Engine.PushStops | Game2048.java:255-286 | at the edge, or facing a tile it cannot merge with, a push changes nothing |
| Engine.Push | Game2048.java:255-287 | its own contract says only that a push leaves a 16-cell board; its branches are `PushSlides`, `PushMerges` and `PushStops`, and its effects `PushConservesTotals`, `PushCounters`, `PushKeepsMerged`, `PushMoved`, `PushBounds` and `PushBuildScore` |
| Engine.Visit | Game2048.java:244-250 | its own contract says only that a traversal step leaves a 16-cell board; its effects are `VisitConservesTotals`, `VisitCounters` and `VisitMoved` |
| Engine.Sweep | Game2048.java:243-288 | its own contract says only that the first n traversal steps leave a 16-cell board; its effects are the `Sweep...` lemmas |
| Engine.SlideAll | Game2048.java:241-288 | its own contract says only that the slide/merge phase leaves a 16-cell board; its effects are `SlideAllKeeps`, `SlideAllReports` and `DryRunMatchesMove` |
| Engine.CanStep | Game2048.java:255-276 | the dry-run test of one cell: it holds a tile whose neighbour ahead is empty or can absorb it; `PushMoved` proves a push changes something exactly then |
| Engine.CanMove | Game2048.java:243-276 | some tile can take a first step; `DryRunMatchesMove` proves this is exactly when the real slide/merge phase reports a change, and `NoStepMeansNoMove` that a traversal finding no such tile decides it |
| Engine.AnyMove | Game2048.java:346-351 | one of the four directions can move, tried up, down, left, right; `GapGivesMove` proves it holds on every board with a tile and an empty cell |
| Engine.TraversalVisitsEachCellOnce | Game2048.java:243-247 | for both origins 0 and 15, the distance from `countDownFrom` to `i` visits each of the 16 cells exactly once |
| Engine.SlideFacts | Game2048.java:265-270 | a slide keeps the sum of values, the numbers of tiles and of merged tiles, the merged sum and the build score, keeps tile values, loses no merged tile and leaves an empty cell |
| Engine.MergeFacts | Game2048.java:278-283 | a merge keeps the sum of values, lowers the tile count by one and marks one more tile merged; the score grows by exactly twice the absorbing tile's value, as does the merged sum, and `highest` becomes the larger of its old value and that new value |
| Engine.PushConservesTotals | Game2048.java:255-287 | one push keeps the sum of values and tiles plus merged tiles, and the score grows by the values newly merged |
| Engine.PushCounters | Game2048.java:278-281 | one push never lowers `highest`, which either stays or equals a merged tile's value, and keeps `0 <= highest <= score` |
| Engine.PushKeepsMerged | Game2048.java:273-284 | a push never consumes a merged tile |
| Engine.PushMoved | Game2048.java:255-287 | a push reports a change exactly when the tile can take a first step; without one nothing changes; after a change an empty cell exists |
| Engine.PushBounds | Game2048.java:273-283 | a push creates no unmerged tile above a bound, and keeps `highest` within twice that bound |
| Engine.VisitConservesTotals | Game2048.java:244-250 | one traversal step keeps what a push keeps: the sum of values, tiles plus merged tiles, the score against the merged sum, and tile values (the skip of an empty cell is stated by `VisitMoved`) |
| Engine.SweepConservesTotals | Game2048.java:243-288 | the whole slide/merge phase keeps the sum of values, frees one cell per merge, adds exactly the merged values to the score and keeps tile values |
| Engine.VisitCounters | Game2048.java:244-250 | one traversal step keeps what a push keeps about `highest` and the score |
| Engine.SweepCounters | Game2048.java:278-281 | over the slide/merge phase `highest` never drops, either stays or is a merged tile's value, and `0 <= highest <= score` is kept |
| Engine.SweepKeepsMerged | Game2048.java:243-288 | the slide/merge phase consumes no merged tile |
| Engine.SweepBounds | Game2048.java:243-288 | the slide/merge phase keeps a bound on the unmerged tiles, and keeps `highest` within twice it |
| Engine.PushBuildScore | Game2048.java:278-281 | one push raises the score by exactly what it raises the score of building the board's tiles out of 2s |
| Engine.SweepBuildScore | Game2048.java:243-288 | the slide/merge phase raises the score by exactly what it raises the score of building the board's tiles out of 2s |
| Engine.VisitMoved | Game2048.java:260-286 | one traversal step reports a change exactly when the flag was set or the visited tile can step |
| Engine.SweepMoved | Game2048.java:241-288 | the slide/merge phase reports a change exactly when some visited tile could step on the original board; without a change the board and counters are unchanged; with one an empty cell exists |
| Engine.DryRunMatchesMove | Game2048.java:255-290 | the dry run says a direction can move exactly when the real slide/merge phase would report a change |
| Engine.NoStepMeansNoMove | Game2048.java:243-276 | a dry traversal that finds no tile able to step proves that the direction cannot move |
| Engine.SweepOverEmpty | Game2048.java:247-248 | traversal steps that meet only empty cells change nothing |
| Engine.ExamplePairMerges | Game2048.java:273-284 | two 2s in the top row moved left become a merged 4 in the corner, and score and `highest` become 4 |
| Engine.ExampleNoDoubleMerge | Game2048.java:273-284 | the top row 2 2 4 4 moved left becomes 4 8 and two empty cells, so the new 4 does not merge again; the score grows by 12 |
| Engine.RowGapGivesMove | Game2048.java:346-351 | an empty cell and a tile in the same row give a left or right move |
| Engine.ColumnGapGivesMove | Game2048.java:346-351 | an empty cell and a tile in the same column give an up or down move |
| Engine.GapGivesMove | Game2048.java:346-351 | a board with a tile and an empty cell always has a move, so a board without moves that holds a tile is full |
| Spawning.ProbeCell | Game2048.java:224 | the cell probed after k steps lies on the grid |
| Spawning.ProbeCellIsRemainder | Game2048.java:224 | the probed cell is `(pos + k) % 16` |
| Spawning.ProbeNext | Game2048.java:224 | each probe step moves on to `(pos + 1) % 16` |
| Spawning.ProbeDistance | Game2048.java:223-227 | every cell is reached after between 1 and 16 probe steps; the start cell is probed last |
| Spawning.FirstEmptyFrom | Game2048.java:223-227 | the probe loop from step k on stops at an empty cell |
| Spawning.FirstEmptyFromIsFirst | Game2048.java:223-227 | the probe finds an empty cell, and every cell it passes on the way holds a tile |
| Spawning.SpawnIndex | Game2048.java:221-227 | on a board with an empty cell, the probe ends at an empty cell |
| Spawning.SpawnIndexIsFirst | Game2048.java:223-227 | every cell probed before the spawn cell holds a tile |
| Spawning.ProbePassesTile | Game2048.java:227 | a probe that meets a tile before the spawn cell goes on |
| Spawning.ProbeStopsAtSpawn | Game2048.java:227 | a probe that meets an empty cell has reached the spawn cell |
| Spawning.SpawnValue | Game2048.java:229 | the new value is 2 or 4 |
| Spawning.Spawn | Game2048.java:220-231 | a spawn leaves a 16-cell board |
| Spawning.SpawnAddsOneTile | Game2048.java:229-230 | a spawn fills exactly the spawn cell with an unmerged 2 or 4 and leaves every other cell as it was; one more tile, the sum grows by the new value, and the build score by what the new tile is worth |
| Spawning.SpawnTakesNextFreeCell | Game2048.java:223-227 | when the cell after the start index is empty, the tile lands there |
| Spawning.SpawnFindsOnlyGap | Game2048.java:223-227 | with a single empty cell the tile lands there, whatever the start index |
| Game2048.Policy | Game2048.java:290-299 | the post-move policy returns a 16-cell board and returns the slide/merge phase's change flag |
| Game2048.MoveOutcome | Game2048.java:240-302 | its own contract says only that a move leaves a 16-cell board; what a move does is proved about it by `MoveReportsChange`, `MoveScore`, `MovePreservesInv` and `MovePreservesScoreBounded` |
| Game2048.StartBoard | Game2048.java:144-146 | its own contract says only that a start leaves a 16-cell board; `StartSpawns` proves it is two spawns on the empty grid, and `StartBoardTiles` what those leave |
| Game2048.StartSpawns | Game2048.java:144-146 | both spawns of a start find an empty cell |
| Game2048.GameInv | Game2048.java:290-299 | what holds of every game from its first start on: tile values, the 1024 bound on unmerged and the `highest` bound on merged tiles, `0 <= highest <= score` and `highest <= 2048`, no merged tile while running or over, a full and stuck board when over, a merged 2048 when won; it holds by `StartEstablishesInv` and `MovePreservesInv` |
| Game2048.SlideAllKeeps | Game2048.java:243-288 | the slide/merge phase keeps the sum of values and tiles plus merged tiles, adds merged values to the score, never lowers `highest`, and keeps tile values and the bounds |
| Game2048.SlideAllReports | Game2048.java:243-288 | the slide/merge phase reports a change exactly when the direction can move; without one nothing changes; with one an empty cell exists |
| Game2048.MoveReportsChange | Game2048.java:290-301 | a move returns true exactly when its direction can move; a move that returns false leaves board, counters and state unchanged |
| Game2048.PolicyCases | Game2048.java:290-299 | after a change below 2048: one more tile, the sum grows by the spawn, no merged tile, and Over exactly when no direction can move; at 2048: Won, no spawn; above: nothing; counters stay |
| Game2048.MoveScore | Game2048.java:278-281 | in a game without merged tiles, a move adds exactly the merged values to the score, merges as many tiles as cells it frees, never lowers `highest`, and grows the sum only by the spawn |
| Game2048.ClearedTilesBounded | Game2048.java:291-292 | below 2048, once the flags are cleared every tile is at most 1024 |
| Game2048.SpawnKeepsInv | Game2048.java:291-296 | clearing the flags and spawning after a change below 2048 keeps the game invariant, including "over means full and stuck" |
| Game2048.PolicyPreservesInv | Game2048.java:290-299 | the policy keeps the game invariant, and `highest` never passes 2048 |
| Game2048.MovePreservesInv | Game2048.java:240-302 | every move keeps the game invariant, and `highest` never passes 2048 |
| Game2048.ExampleWin | Game2048.java:297-298 | two 1024s merged by a move left win the game, spawn nothing and add 2048 to the score |
| Game2048.SpawnOnEmptyBoard | Game2048.java:144-145 | the first spawn lands in the cell after the start index, and every other cell stays empty |
| Game2048.StartBoardTiles | Game2048.java:144-146 | a start leaves exactly two tiles, each an unmerged 2 or 4 |
| Game2048.StartEstablishesInv | Game2048.java:139-148 | a started game, with score and `highest` zero and state running, satisfies the game invariant |
| Game2048.ScoreBounded | Game2048.java:278-281 | the score is at most what building the board's tiles out of 2s would earn; it holds by `StartScoreBounded` and `MovePreservesScoreBounded` |
| Game2048.StartScoreBounded | Game2048.java:139-148 | a start leaves a game whose score is bounded |
| Game2048.MovePreservesScoreBounded | Game2048.java:240-302 | every move of a game that keeps the invariant keeps the score bounded |
| Game2048.ScoreFitsInt | Game2048.java:278-281 | in such a game every tile is at most 2048, every tile that can still merge doubles to at most 2048, and 0 <= `highest` <= score <= 327680, far inside the 32-bit `int` range |
| Game2048.Game.constructor | Game2048.java:56-59 | a new game has no grid, both counters at zero, the start state and no dry run |
| Game2048.Game.ClearMerged | Game2048.java:335-340 | the grid becomes `ClearFlags` of the old grid |
| Game2048.Game.AddRandomTile | Game2048.java:220-231 | the probe loop ends, and the grid becomes `Spawn` of the old grid |
| Game2048.Game.SlideTile | Game2048.java:265-270 | the two writes of a slide give `Slide`, and the rest of the push from the new cell equals the push from the old one |
| Game2048.Game.MergeTile | Game2048.java:278-283 | the merge and counter updates give `Merge`, which is the whole remaining push |
| Game2048.Game.PushTile | Game2048.java:252-287 | in a dry run the result is whether the tile can take a first step, and nothing changes; otherwise board and counters become `Push` of the old ones |
| Game2048.Game.PushAll | Game2048.java:241-288 | in a dry run the result is `CanMove` and nothing changes; otherwise board, counters and result are `SlideAll` of the old ones |
| Game2048.Game.AfterMove | Game2048.java:290-299 | the new board, counters, state and result are `Policy` applied to the old ones |
| Game2048.Game.Move | Game2048.java:240-302 | a dry run returns `CanMove` and leaves the game unchanged; otherwise the game and the result become `MoveOutcome` of the old game |
| Game2048.Game.MoveUp | Game2048.java:309-311 | a dry run returns whether some tile can step up and changes nothing; otherwise the game becomes the outcome of a move up with traversal from 0 |
| Game2048.Game.MoveDown | Game2048.java:317-319 | a dry run returns whether some tile can step down and changes nothing; otherwise the game becomes the outcome of a move down with traversal from 15 |
| Game2048.Game.MoveLeft | Game2048.java:324-326 | a dry run returns whether some tile can step left and changes nothing; otherwise the game becomes the outcome of a move left with traversal from 0 |
| Game2048.Game.MoveRight | Game2048.java:331-333 | a dry run returns whether some tile can step right and changes nothing; otherwise the game becomes the outcome of a move right with traversal from 15 |
| Game2048.Game.MovesAvailable | Game2048.java:346-351 | the result is `AnyMove` of the grid; the game is left as it was and the dry-run flag is cleared |
| Game2048.Game.StartGame | Game2048.java:139-148 | nothing changes while running; otherwise a fresh grid holds `StartBoard`, score and `highest` are 0 and the state is running |

## Left out

- Rendering and input are not modelled: `paintComponent`, `drawGrid`,
  `drawTile`, the colour table, the Swing frame in `main`, and the mouse and
  key listeners in the constructor. These are display and event glue. The
  key handler's mapping from arrow keys to the four moves is the four
  `MoveX` methods.
- `java.util.Random` is not modelled. Each draw becomes a parameter: the
  start index as `startPos`/`spawnPos`/`pos1`/`pos2` in [0, 16), and the
  one-in-ten draw for a 4 as `four`/`spawnFour`. Nothing is said about the
  distributions (uniform start index, 90% twos).
- The dry runs that `movesAvailable` starts pass the spawn arguments
  (0, false). They are never used, because a dry run never reaches the
  policy.
- 32-bit `int` arithmetic is not modelled: integers are unbounded. No
  overflow can happen in a game that has started, so nothing is lost:
  `ScoreFitsInt` bounds every tile by 2048 and the score by 327680.
- `score` and `highest` are `static` in the source and shared by all
  instances. They are fields of the one `Game` object here.
- A tile is a value, not a shared object. The source never lets two cells
  reference the same tile, since a slide nulls the cell it leaves. So
  `setMerged` and `mergeWith` are modelled as writing the updated tile back
  into its cell.
- The `Tile[4][4]` grid is one array of 16 cells, with cell (r, c) at index
  `4 * r + c`. The code still computes `r`, `c`, `nextR` and `nextC` as the
  source does.
- The body of `move` is split into helper methods:
  - `PushTile` is the inner `while` loop;
  - `SlideTile` and `MergeTile` are its two changing branches;
  - `PushAll` is the outer `for` loop;
  - `AfterMove` is the post-move policy.

  A dry run's `return true` from inside the loop returns from `PushTile` and
  then `PushAll`, and `Move` then skips the policy. The resulting behaviour
  is the same.
- Game2048.Game.Move and the direction moves require a grid. In the source
  the grid is null until the first `startGame`, and an arrow key pressed
  before the first click would fail on the null grid. The model
  does not represent that exception.
- `movesAvailable` short-circuits `moveUp() || moveDown() || ...`. This is
  written as a chain of `if`s with the same order and stopping rule.
