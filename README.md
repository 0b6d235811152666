# Game of Life core, modelled in Dafny

This project models the simulation core of a browser Game of Life
(`src/App.tsx`). The board is fixed at 50 rows by 50 columns of cells that hold
0 (dead) or 1 (alive). Three operations make up the core:

- `initGrid` builds the first, all-dead generation.
- `simulate` computes the next generation. It deep-clones the board. It then
  visits every cell and counts the live neighbours over a table of eight
  offsets (`operations`), skipping offsets that leave the board: there is no
  wrap-around. Finally it applies the birth/survival rule to the cell's old
  value and writes the result into the clone.
- `updateGrid` copies the board and overwrites one cell. A click uses it to
  toggle a cell.

The model has four modules:

- `LifeGrid` (`life_grid.dfy`) holds the board dimensions and the value view of
  a generation (`Grid`, a sequence of rows). It also holds the imperative
  `InitGrid`, `Clone` and `UpdateGrid` over a fresh `array2<int>`, and the
  toggle value a click writes.
- `LifeRules` (`life_rules.dfy`) is the step as pure functions: the offset
  table, the live-neighbour count `LiveNeighbors`, the rule `Rule` and the next
  generation `Step`, with the lemmas about them.
- `LifeSimulate` (`life_simulate.dfy`) is `simulate` as a method with nested
  loops. It writes into a fresh array while reading only the old one, and it
  is proved to produce exactly `Step` of the old generation.
- `LifePatterns` (`life_patterns.dfy`) proves facts about known
  configurations: the 2x2 block is a still life, and the blinker has period 2.

The central invariant is that the step reads only the old generation. The
output array is fresh, the input is never written, and the result equals the
per-cell function `Step(old)`. So no cell can see a neighbour that was already
updated in the same step, and the scan order does not matter.

## Model

| member | source | states |
|---|---|---|
| `LifeGrid.InitGrid` | src/App.tsx:8-17 | returns a fresh array of `x` rows by `y` columns in which every cell is 0 |
| `LifeGrid.Clone` | src/App.tsx:32 | the deep clone: a fresh array (never the input) with the same dimensions and the same cells as the input |
| `LifeGrid.SetCell` | src/App.tsx:94-98 | the edited generation has the same shape, holds `v` at `(x, y)` and equals the old generation at every other cell |
| `LifeGrid.UpdateGrid` | src/App.tsx:94-98 | returns a fresh array equal to `SetCell` of the old generation; the input array is not written |
| `LifeGrid.Toggled` | src/App.tsx:131 | the value a click writes is always 0 or 1, and for a 0/1 cell it is the opposite value (`1 - v`) |
| `LifeGrid.ToggleTwice` | src/App.tsx:131 | on a 0/1 board, clicking the same cell twice gives back the original generation |
| `LifeGrid.ToggleKeepsBinary` | src/App.tsx:131 | a click keeps every cell of a 0/1 board at 0 or 1 |
| `LifeRules.OperationsAreTheEightNeighbours` | src/App.tsx:19-28 | the offset table has 8 distinct entries, and they are exactly the steps of at most one row and one column other than `(0, 0)` |
| `LifeRules.LiveNeighborsExpanded` | src/App.tsx:39-49 | the count is the sum of the eight neighbour values, where an off-board neighbour adds nothing |
| `LifeRules.SumOverRange` | src/App.tsx:39-49 | over 0/1 cells, a partial count over any offsets lies between 0 and the number of those offsets that land on the board |
| `LifeRules.LiveNeighborsRange` | src/App.tsx:39-49 | over 0/1 cells, the count is between 0 and the number of on-board neighbours, which is at most 8 |
| `LifeRules.CornerNeighbors` | src/App.tsx:40-47 | the corner `(0, 0)` has exactly 3 on-board neighbours, its count is `g[0][1] + g[1][0] + g[1][1]`, and over 0/1 cells it is at most 3 |
| `LifeRules.InteriorSlots` | src/App.tsx:40-45 | a cell away from every edge has all 8 neighbours on the board |
| `LifeRules.SumOverAllDead` | src/App.tsx:39-49 | on a dead board every count is 0 |
| `LifeRules.Rule` | src/App.tsx:51-60 | a 0/1 cell stays 0/1 after the rule; any other value is left unchanged |
| `LifeRules.RuleCases` | src/App.tsx:51-59 | the five branches: a live cell with fewer than 2 dies, with 2 or 3 lives, with more than 3 dies; a dead cell with 3 is born, otherwise stays dead |
| `LifeRules.Step` | src/App.tsx:34-35 | the next generation has the board's `numRows` by `numCols` shape |
| `LifeRules.StepKeepsBinary` | src/App.tsx:39-60 | a 0/1 generation steps to a 0/1 generation |
| `LifeRules.StepAllDead` | src/App.tsx:39-60 | a dead board steps to itself |
| `LifeRules.StepBirthAndSurvival` | src/App.tsx:51-60 | a dead cell becomes alive if and only if it has 3 live neighbours; a live cell stays alive if and only if it has 2 or 3 |
| `LifeSimulate.CountLiveNeighbors` | src/App.tsx:38-49 | the `forEach` accumulation over the offset table returns exactly `LiveNeighbors` of the old generation |
| `LifeSimulate.Simulate` | src/App.tsx:30-64 | returns a fresh 50 by 50 array equal to `Step` of the input generation; the input is not written, so every cell is computed from old values only |
| `LifeSimulate.StartBoard` | src/App.tsx:67-69 | the starting board `initGrid(numCols, numRows)` is 50 by 50, all dead, and a fixed point of the step |
| `LifePatterns.BlockIsStill` | src/App.tsx:39-60 | a 2x2 block anywhere on the board, edges and corners included, is unchanged by a step |
| `LifePatterns.HorizontalBecomesVertical` | src/App.tsx:39-60 | a horizontal line of three away from the edges steps to the vertical line of three through its centre |
| `LifePatterns.VerticalBecomesHorizontal` | src/App.tsx:39-60 | a vertical line of three away from the edges steps to the horizontal line of three through its centre |
| `LifePatterns.BlinkerOscillates` | src/App.tsx:39-60 | the blinker has period 2: two steps restore the horizontal line, and one step changes it |

## Left out

- The React `App` component is left out: state hooks, rendering, colours, `tabIndex` and the click and key handlers (src/App.tsx:66-145). Only the value a click passes to `updateGrid` is modelled, as `Toggled`.
- The run/stop interval timer and its cleanup (src/App.tsx:73-92) are scheduler plumbing and are left out. One tick is one call of `Simulate`.
- Deep cloning through `JSON.parse(JSON.stringify(...))` is modelled as `Clone`, which copies into a freshly allocated array. Serialisation itself is not modelled.
- The source stores a board as an array of row arrays, which could be ragged. The model uses a rectangular `array2<int>`, so every row has the same length, as every board the program builds does.
- Cells are JavaScript numbers, which are floating point. The model uses unbounded integers; for 0/1 cells the sums are the same.
- LifeGrid.InitGrid: for `y < numCols` the source's rows keep length `numCols`, with holes after the first `y` cells (the effect of `Array(numCols).map`). The model builds exactly `y` columns. The program only calls `initGrid(50, 50)`, where the two agree. Negative arguments are not modelled either: the parameters are natural numbers.
- LifeGrid.UpdateGrid: requires `(x, y)` to be on the board. The source does no bounds check. An out-of-range row would throw, and an out-of-range column would grow that row. Its only caller passes indices taken from the board itself. No `InvalidPosition` error exists in the code, so none is modelled.
- LifeSimulate.Simulate: requires a 50 by 50 input. The source loops over the constants `numRows` and `numCols`, not over the input's own dimensions, and every board it is given has that shape.
