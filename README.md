# Conway's Game of Life on a 9x9 board, modelled in Dafny

This project models the simulation core of a small Rust program (`src/main.rs`).
The program keeps a fixed 9x9 array of cells. Each cell holds a live/dead status and its own (row, column) position.
Every frame it advances the board one generation under the B3/S23 rule:
- a dead cell with exactly three live neighbours is born;
- a live cell with two or three live neighbours survives;
- every other live cell dies.

The modules follow the program's parts:

- `Board` (Board.dfy): positions, cells, the eight compass directions and their fixed visiting order. It also holds the two addressing functions: the raw neighbour of a cell in one direction (`NeighbouringCoordinate`), and the resolution of an off-board candidate (`ValidPosition`).
- `Rules` (Rules.dfy): the board as a value (`Grid`), a board built from a set of live positions (`FromLive`) and the start-up seed (`Seeds`, `SeedGrid`). It holds the step engine's direction-by-direction neighbour counter (`Contribution`, `ActiveCount`), an independent reference count (`LiveNeighbours`: the 3x3 window minus its centre, with cells beyond the border dead), the entry the engine queues for a cell (`Update`), the resulting status (`NextStatus`) and the next generation (`NextGrid`, built row by row; `NextGridAt` gives each of its cells).
- `StepEngine` (StepEngine.dfy): the two phases of a step on values. The scan builds an update list (`ScannedBefore`, `ScanComplete`). Writing the list back gives `Applied`, and `ScanThenApplyIsNextGrid` proves that scanning and then writing back yields `NextGrid`.
- `Life` (Life.dfy): class `World` holding the `array2<Cell>`. Its constructor is the start-up code: positions are assigned, then the seven seeds are planted. `Step` runs the read-only scan (`ScanUpdates`, which calls `CountActiveNeighbours` for each cell) and then the in-place write-back loop (`WriteBack`). `Valid()` states that every stored position equals the cell's indices. `Step` keeps `Valid()` and leaves the array equal to `NextGrid` of the array before the step.
- `Patterns` (Patterns.dfy): repeated generations (`Generations`, the board after n steps of the driver loop) and consequences for particular boards. The empty board and the 2x2 block are fixed points for any number of generations. A lone cell dies. The seed's first generation is computed in full.
- `Render` (Render.dfy): the text the renderer prints, as a string.

Boundary behaviour follows the code. `ValidPosition` returns an on-board candidate with row and column in their original order. Nothing is swapped: the code's `x_pos`/`y_pos` names are only misleading. It returns the origin's own position when the candidate is off the board in either component. The step engine skips a resolved position equal to the cell itself, so off-board neighbours are never counted. The board therefore has a dead border, not a wrap-around one (src/main.rs:82-93, 124).

In the source, the neighbour count is computed inside `step`, and the world is initialised inside `main`. The model gives these parts their own methods: `CountActiveNeighbours`, `ScanUpdates` and `WriteBack` for the step, and `NewCells` and `PlantSeeds` for start-up. The loops, their order and the update list are those of the source.

## Model

| member | source | states |
|---|---|---|
| `Board.NeighbouringCoordinate` | src/main.rs:44-79 | the neighbour in any direction is at most one step from the cell in each component and is not the cell itself |
| `Board.DirectionsCoverNeighbourhood` | src/main.rs:31-79 | the eight directions of the visiting order give eight pairwise different neighbours, and every Moore neighbour is one of them |
| `Board.ValidPosition` | src/main.rs:82-93 | an on-board candidate is returned unchanged, in the same component order; an off-board candidate is replaced by the origin; so the result is on the board whenever the origin is |
| `Rules.LiveNeighbours` | src/main.rs:116-130 | the reference count of live Moore neighbours, with dead cells beyond the border, lies in [0, 8] |
| `Rules.Contribution` | src/main.rs:118-129 | one direction adds at most 1 to the counter, and its array read is in bounds whenever the cell's stored position is on the board |
| `Rules.ActiveCount` | src/main.rs:116-130 | after visiting k directions the counter is at most k |
| `Rules.ContributionIsNeighbourAlive` | src/main.rs:119-129 | with consistent positions, a direction adds 1 exactly when its true neighbour is on the board and alive; an off-board neighbour falls back to the cell itself and adds nothing, whatever the cell's own status |
| `Rules.ActiveCountIsLiveNeighbours` | src/main.rs:116-130 | with consistent positions, the engine's counter over all eight directions equals the reference count of live Moore neighbours |
| `Rules.Update` | src/main.rs:134-148 | every live cell gets an entry; a dead cell gets one exactly when its count is 3; an entry's status is "count is 3, or alive with count 2" |
| `Rules.NextStatus` | src/main.rs:108-111 | B3/S23: a live cell survives with 2 or 3 neighbours and dies otherwise; a dead cell is born with exactly 3 and otherwise stays dead |
| `Rules.NextGrid` | src/main.rs:112-157 | a generation keeps the board's shape and every cell's position, so consistent positions stay consistent |
| `Rules.NextGridAt` | src/main.rs:112-157 | cell (i, j) of the next generation is the old cell with the status the rule gives its old status and live-neighbour count; only the status changes |
| `StepEngine.Visit` | src/main.rs:134-148 | visiting a cell appends at most one entry and keeps every earlier entry in place |
| `StepEngine.ScanAdvance` | src/main.rs:134-148 | visiting cell (i, j) keeps the scan invariant one cell further on: entries stay on the board, correct and in row-major order, and every queued cell up to (i, j) has its entry |
| `StepEngine.Applied` | src/main.rs:153-156 | writing the update list back changes statuses only: shape and positions are unchanged |
| `StepEngine.AppliedCell` | src/main.rs:153-156 | after the write-back a cell holds the status of its entries if it has any, and is untouched otherwise |
| `StepEngine.ScanThenApplyIsNextGrid` | src/main.rs:113-156 | writing back the list of a complete scan yields exactly the next generation, every count taken on the board before any write |
| `Life.World.NewCells` | src/main.rs:160-170 | start-up gives a 9x9 board of dead cells whose positions equal their indices |
| `Life.World.PlantSeeds` | src/main.rs:172-179 | the seven seed cells become alive and nothing else changes |
| `Life.World.constructor` | src/main.rs:160-179 | the new world satisfies the position invariant and holds exactly the seed pattern |
| `Life.World.CountActiveNeighbours` | src/main.rs:116-130 | the counter computed direction by direction equals the number of live Moore neighbours on the board |
| `Life.World.ScanUpdates` | src/main.rs:113-151 | the scan writes nothing and returns on-board entries in strictly increasing row-major order (at most one per cell); each entry is the rule's entry for its cell, and every cell the rule queues for has an entry |
| `Life.World.WriteBack` | src/main.rs:153-156 | the write-back loop leaves the array equal to the list applied in order to the old board, and keeps the position invariant |
| `Life.World.Step` | src/main.rs:112-157 | a step keeps the position invariant and leaves the array equal to the next generation of the array before it |
| `Patterns.Generations` | src/main.rs:181-189 | the board after n generations keeps its shape, and consistent positions stay consistent |
| `Patterns.SteadyIsFixedPoint` | src/main.rs:112-157 | a board on which the rule gives every cell its current status is left unchanged by a step |
| `Patterns.FixedPointForever` | src/main.rs:181-189 | a board that one step leaves unchanged stays unchanged for any number of steps |
| `Patterns.AllDeadIsFixedPoint` | src/main.rs:142-148 | a dead cell with no live neighbour stays dead, so the empty board is a fixed point |
| `Patterns.AllDeadForever` | src/main.rs:142-148 | the empty board stays empty for every number of generations |
| `Patterns.LoneCellDies` | src/main.rs:134-148 | a board with a single live cell is empty after one step |
| `Patterns.BlockIsStillLife` | src/main.rs:134-148 | a 2x2 block anywhere on the board, edges included, is unchanged by a step |
| `Patterns.BlockForever` | src/main.rs:134-148 | the block is unchanged for every number of generations |
| `Patterns.SeedFirstGeneration` | src/main.rs:172-179 | the seed's next generation is the 11 cells (0,1) (0,2) (1,0) (1,1) (1,2) (2,1) (2,2) (3,4) (3,5) (4,4) (4,5); in particular (1,1) survives |
| `Render.Token` | src/main.rs:98-102 | each cell is printed as a three-character token |
| `Render.RenderRow` | src/main.rs:97-103 | a printed row has three characters per cell |
| `Render.RenderRows` | src/main.rs:96-105 | rows of COL cells print as lines of 3 * COL characters plus a line break each |
| `Render.Render` | src/main.rs:95-106 | the printed board is ROW lines of 3 * COL + 1 characters |
| `Render.RenderRowAt` | src/main.rs:97-103 | characters 3j to 3j + 2 of a printed row are the token of cell j |
| `Render.RenderRowsLine` | src/main.rs:96-105 | line i of the printed rows is the printed row i followed by a line break |
| `Render.RenderAt` | src/main.rs:95-106 | the token of cell (i, j) starts at column 3j of line i, and each line ends in a line break |
| `Render.RenderDeterminesStatus` | src/main.rs:95-106 | two boards that print the same text agree on every cell's status |

## Left out

- The infinite driver loop (src/main.rs:181-189): clearing the screen with an ANSI escape, the 250 ms sleep and the commented-out pause for input are I/O and timing. Repeated stepping itself is modelled on values by `Patterns.Generations`, not as a loop over `World`.
- The console output of `render`: the model returns the text instead of printing it.
- The `Display` implementation for `Position` (src/main.rs:8-12): formatting glue that nothing calls.
- `i32` and `usize` widths and the casts between them: coordinates stay within [-1, 9], so unbounded integers with on-board preconditions behave the same.
