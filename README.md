# Labyrinth: maze generation, fog of war, movement and coins

A Dafny model of the game logic of the horror dungeon crawler's
`LabyrinthScene` and its `CoinHelper`:

- **Maze generation.** `generateMaze` is a randomised depth-first
  backtracker. It starts from an all-wall 31 × 23 grid, opens a 2 × 2 block at
  (1, 1), and moves two cells at a time from an explicit stack. At each step
  it carves the straight run from the top of the stack to a randomly chosen
  neighbour, or pops when no neighbour qualifies.
- **Fog of war.** `updateFogOfWar` marks the square box of radius 10 around
  the player's cell as visited. It then shows every cell as visible (within
  the radius), remembered (visited) or hidden.
- **Movement.** `HandleButtonDown` moves the player by 4 pixels per held key.
  `CheckForWallCollisions` walks the wall rectangles made by `CreateWalls`,
  and each wall that overlaps the player undoes that displacement.
- **Coins.** `createCoins` places up to three coins on dead ends. A dead end
  qualifies when it is at least max(w, h) / 3 from the spawn cell. The dead
  ends are sorted farthest first, and a coin is placed only at least
  max(w, h) / 4 from every earlier coin. `updateVisibility` shows a coin by
  the fog's rule. `checkCollisions` collects shown coins the player touches.

Modules, one per concern:

| file | module | what it holds |
|---|---|---|
| grid.dfy | `Grid` | the wall/floor grid and counting open neighbours |
| fog.dfy | `Fog` | the three-way reveal rule and the alphas it stands for |
| maze.dfy | `Maze` | `generateMaze`, `countAdjacentPaths` and the carving steps |
| movement.dfy | `Movement` | held keys, the displacement of a frame, the wall pass |
| coins.dfy | `Coins` | the `CoinHelper` class and the specification of coin placement |
| scene.dfy | `Labyrinth` | the `LabyrinthScene` class: create, walls, fog, update |

The maze is an `array2<int>` indexed `[y, x]`, like the source's
`maze[y][x]`, with 1 for a wall and 0 for floor. Both methods that work by
mutation stay imperative:

- `GenerateMaze` changes the array in place and keeps its stack in a local
  `seq`.
- `LabyrinthScene` keeps the player position, the wall list, the visited
  grid and the fog grid as fields, and its methods update them.
- `CoinHelper` keeps its coin list and counters as fields.

Each such method is proved against a specification function. The properties
of those functions are proved as lemmas: the wall list, the coin sites, the
greedy selection, the wall pass and the collision pass.

Distances are compared exactly on squared integers:

- `sqrt(d²) >= max / 3` becomes `9·d² >= max²`;
- `sqrt(d²) < max / 4` becomes `16·d² < max²`;
- `sqrt(dx² + dy²) <= R` becomes `dx² + dy² <= R²` with `R >= 0`.

These are equivalent to the source's tests for integer offsets.

## Model

| member | source | states |
|---|---|---|
| `Grid.OpenNeighboursZeroOrOne` | src/scenes/game/coinHelper.ts:92-113 | The count of in-bounds floor neighbours is 0 exactly when all four are closed. It is 1 exactly when a single one is open, which is the dead-end test `exits === 1`. |
| `Fog.CoinAlpha` | src/scenes/game/coinHelper.ts:156-172 | A coin's alpha (1 / 0.5 / 0) is the complement of the fog tile's (0 / 0.5 / 1). It is positive exactly when the coin is not hidden. |
| `Fog.Classify` | src/scenes/game/LabyrinthScene.ts:454-460 | The reveal rule is total and exclusive. A cell is visible exactly when it is within the radius, remembered exactly when it is outside the radius but visited, and hidden exactly when it is outside and not visited. |
| `Fog.DiscInsideBox` | src/scenes/game/LabyrinthScene.ts:438-461 | A cell within the visibility radius lies inside the square box that was just marked visited. |
| `Maze.PickIndex` | src/scenes/game/LabyrinthScene.ts:385 | `Math.floor(Math.random() * n)` is a valid index below n for every draw in [0, 1). |
| `Maze.PickIndexReachesEvery` | src/scenes/game/LabyrinthScene.ts:385 | Every index below n is picked by some draw in [0, 1). |
| `Maze.TargetsAmong` | src/scenes/game/LabyrinthScene.ts:364-382 | Every offered neighbour is two steps away along an axis, strictly inside the border, still wall, and has at most one floor cell two steps away. |
| `Maze.CarveTargetsComplete` | src/scenes/game/LabyrinthScene.ts:364-382 | Conversely, every step-2 neighbour that passes the carve test is offered. |
| `Maze.CountAdjacentPaths` | src/scenes/game/LabyrinthScene.ts:410-431 | Returns the number of in-bounds floor cells two steps away along the four axes, a value in 0..4. |
| `Maze.ValidNeighbours` | src/scenes/game/LabyrinthScene.ts:361-382 | The neighbour loop collects exactly the carve targets, in the order up, right, down, left. |
| `Maze.RunIsThreeCells` | src/scenes/game/LabyrinthScene.ts:388-399 | The min/max rectangle between a cell and a step-2 neighbour is exactly three cells: the cell, the one between, and the neighbour. |
| `Maze.CarveRect` | src/scenes/game/LabyrinthScene.ts:393-399 | Every in-bounds cell of the rectangle becomes floor, and every other cell keeps its value. |
| `Maze.CarveRun` | src/scenes/game/LabyrinthScene.ts:384-401 | One carve sets the run to floor and leaves everything else. Cells only go from wall to floor, the border stays wall, and the set of wall cells strictly shrinks. |
| `Maze.GenerateMaze` | src/scenes/game/LabyrinthScene.ts:340-408 | Returns a fresh grid of the requested size that holds only 0 and 1, with all four borders wall and the 2 × 2 seed block floor. The loop keeps every stack coordinate odd, inside the border and floor. It terminates because each push removes a wall cell and each pop shortens the stack. |
| `Movement.StepX` | src/scenes/game/LabyrinthScene.ts:321-328 | The horizontal displacement is speed·(D − A). Opposite keys cancel, and one key alone moves by exactly ±speed. |
| `Movement.StepY` | src/scenes/game/LabyrinthScene.ts:329-336 | The vertical displacement is speed·(S − W), with the same cancellation. |
| `Movement.AfterWalls` | src/scenes/game/LabyrinthScene.ts:307-317 | The wall pass never pushes the player along an axis on which the keys do not move it. |
| `Movement.PushCount` | src/scenes/game/LabyrinthScene.ts:306-318 | No more walls push the player back than there are walls. |
| `Movement.PushbackIsInverseStep` | src/scenes/game/LabyrinthScene.ts:306-318 | Each overlapping wall undoes exactly one displacement, so after the pass the player stands n displacements back, where n is the number of overlapping walls met. |
| `Movement.NoKeysNoPushback` | src/scenes/game/LabyrinthScene.ts:306-318 | With no key held, the wall pass leaves the player where it is, however many walls overlap. |
| `Movement.FrameDisplacement` | src/scenes/game/LabyrinthScene.ts:292-297 | One frame of move-then-push leaves the player 1 − n displacements from where it started. No overlap means a full step; one overlap means back at the start. |
| `Coins.SitesMembership` | src/scenes/game/coinHelper.ts:33-51 | A candidate is found by the scan exactly when it is an in-bounds floor cell with one exit, at least max(w, h) / 3 from (1, 1), carrying its own squared distance. |
| `Coins.SortFarthestFirst` | src/scenes/game/coinHelper.ts:53 | The sort returns as many candidates as it is given. Its order and permutation are the two lemmas below. |
| `Coins.SortIsOrdered` | src/scenes/game/coinHelper.ts:53 | The sort puts the candidates in non-increasing distance from the spawn cell. |
| `Coins.SortIsPermutation` | src/scenes/game/coinHelper.ts:53 | The sort keeps every candidate, as many times as it occurs. |
| `Coins.Greedy` | src/scenes/game/coinHelper.ts:56-75 | The selection never returns fewer cells than were already chosen. That it keeps them in front, and its spacing, bounds and order, are the lemmas below. |
| `Coins.GreedyAppendsSubsequence` | src/scenes/game/coinHelper.ts:55-76 | The selection only appends to what was chosen, and what it appends is a subsequence of the candidates' cells. |
| `Coins.GreedyBounded` | src/scenes/game/coinHelper.ts:55-59 | The selection stops at the limit and never picks more cells than there are candidates. |
| `Coins.GreedySpaced` | src/scenes/game/coinHelper.ts:58-75 | The selection keeps the chosen cells pairwise at least max(w, h) / 4 apart. |
| `Coins.GreedyTakesFirst` | src/scenes/game/coinHelper.ts:58-75 | With room for a coin, the first candidate is always taken, since the spacing test against no coins passes. |
| `Coins.CoinCellsAreSites` | src/scenes/game/coinHelper.ts:33-76 | Every selected cell is an in-bounds dead end at least max(w, h) / 3 from the spawn cell. |
| `Coins.CoinCellsCount` | src/scenes/game/coinHelper.ts:55-76 | At most min(3, number of candidates) cells are selected, and at least one whenever there is a candidate. |
| `Coins.CoinCellsSpaced` | src/scenes/game/coinHelper.ts:58-76 | Every two selected cells are at least max(w, h) / 4 apart. |
| `Coins.CoinCellsFarthestFirst` | src/scenes/game/coinHelper.ts:53-76 | The selected cells are a subsequence of the sorted candidates, so they come farthest from spawn first. |
| `Coins.CoinCell` | src/scenes/game/coinHelper.ts:158-159 | The coin's cell is the floor of its centre over the cell size on each axis: the centre lies in [cell, cell + 1) cell sizes. |
| `Coins.CoinCellRoundTrip` | src/scenes/game/coinHelper.ts:156-159 | `floor((x·C + C/2) / C) = x`: the cell computed back from a coin's centre is the cell it was placed on. |
| `Coins.PlacedCoinsOnSites` | src/scenes/game/coinHelper.ts:78-89 | Each placed coin starts hidden (alpha 0). Its centre maps back to its selected dead end, inside the grid. |
| `Coins.PlacedCoinsInside` | src/scenes/game/coinHelper.ts:78-89 | Every placed coin's cell lies inside the grid. |
| `Coins.UncollectedKeepsTheRest` | src/scenes/game/coinHelper.ts:115-123 | The collision pass keeps exactly the coins that are hidden or not touched, in their original order. |
| `Coins.Uncollected` | src/scenes/game/coinHelper.ts:117-121 | The collision pass never keeps more coins than it is given. |
| `Coins.UncollectedCounts` | src/scenes/game/coinHelper.ts:115-123 | Each coin value that is not collectable is kept as many times as it occurs, and no collectable one is kept. |
| `Coins.WinSignalsFromZero` | src/scenes/game/coinHelper.ts:131-136 | From a zero count, the first two collections emit nothing. Every later one emits 'gameWon' once, because the count is then at least 3. |
| `Coins.CoinHelper.constructor` | src/scenes/game/LabyrinthScene.ts:1-11 | A new helper has no coins, a zero count and no win signal. The flag tells apart the scene's file-local copy, which never emits 'gameWon', from the copy in coinHelper.ts. |
| `Coins.CoinHelper.CountExits` | src/scenes/game/coinHelper.ts:92-113 | Returns the number of in-bounds floor cells among the four neighbours, a value in 0..4. |
| `Coins.CoinHelper.FindDeadEnds` | src/scenes/game/coinHelper.ts:33-51 | The nested scan builds exactly the list of coin sites, in row-major order. |
| `Coins.CoinHelper.SelectPositions` | src/scenes/game/coinHelper.ts:55-76 | The selection loop, with its inner spacing loop and both breaks, computes the greedy selection over min(3, n) slots. |
| `Coins.CoinHelper.CreateCoins` | src/scenes/game/coinHelper.ts:25-90 | Appends one hidden coin, centred in its cell, for each cell of the specified selection (scan, sort, greedy pick), in selection order. The counters are unchanged, and coins stay inside the grid. |
| `Coins.CoinHelper.PlaceCoins` | src/scenes/game/coinHelper.ts:78-89 | The placement loop appends one coin at (x·C + C/2, y·C + C/2) for each selected cell, in order. |
| `Coins.CoinHelper.CollectCoin` | src/scenes/game/coinHelper.ts:125-137 | The count grows by exactly one and exactly the coin at the index is spliced out. 'gameWon' is emitted exactly when the helper emits at all and the new count is at least 3. |
| `Coins.CoinHelper.CheckCollisions` | src/scenes/game/coinHelper.ts:115-123 | Walking from the last coin to the first, the coins left are the uncollected ones in order. The count grows by the number removed, so coins + count is invariant. One 'gameWon' is emitted per collection that brings the count to 3 or more. |
| `Coins.CoinHelper.UpdateVisibility` | src/scenes/game/coinHelper.ts:156-173 | Every coin keeps its position and takes the state of its own cell by the fog's rule. |
| `Labyrinth.WallsMembership` | src/scenes/game/LabyrinthScene.ts:221-245 | The wall list holds exactly one rectangle per wall cell of the maze, centred at (x·32 + 16, y·32 + 16). |
| `Labyrinth.WallsOrdered` | src/scenes/game/LabyrinthScene.ts:221-245 | The wall list runs in strictly increasing row-major order of its cells, so no cell has two rectangles. |
| `Labyrinth.PlayerCell` | src/scenes/game/LabyrinthScene.ts:434-435 | The player's cell is `Math.floor(p / 32)`: the position lies in [32·cell, 32·(cell + 1)). |
| `Labyrinth.LabyrinthScene.constructor` | src/scenes/game/LabyrinthScene.ts:193-219 | `create` generates a 31 × 23 maze and builds the wall list of its wall cells. It places the player at (48, 48) and the coins on the selected cells, using the helper that does not emit. The fog is lifted around cell (1, 1): the box of radius 10 is visited, and every tile and coin shows its state. |
| `Labyrinth.LabyrinthScene.CreateWalls` | src/scenes/game/LabyrinthScene.ts:221-245 | The nested loops append the wall list of the maze, row by row. |
| `Labyrinth.LabyrinthScene.MarkVisited` | src/scenes/game/LabyrinthScene.ts:437-444 | Cells in the square box of radius 10 around the player's cell become visited. All others keep their value, so no cell becomes unvisited. |
| `Labyrinth.LabyrinthScene.ShadeFog` | src/scenes/game/LabyrinthScene.ts:446-462 | Every fog tile is visible within the radius, else remembered if visited, else hidden. |
| `Labyrinth.LabyrinthScene.UpdateFogOfWar` | src/scenes/game/LabyrinthScene.ts:433-465 | Marks the box as visited and classifies every tile. Every visible tile is visited, and every coin takes the state of the tile over its cell. Positions and counters do not change. |
| `Labyrinth.LabyrinthScene.HandleButtonDown` | src/scenes/game/LabyrinthScene.ts:320-338 | The position moves by (StepX, StepY). `moved` becomes true exactly when some key is held, even when opposite keys cancel. |
| `Labyrinth.LabyrinthScene.CheckForWallCollisions` | src/scenes/game/LabyrinthScene.ts:306-318 | The loop over the walls in list order computes the specified wall pass from the current position. |
| `Labyrinth.LabyrinthScene.Update` | src/scenes/game/LabyrinthScene.ts:292-304 | One frame moves the player by the keys and pushes it back out of the walls. It collects the shown coins the player touches: the coins left are the uncollected ones in order, coins + count is invariant, and no 'gameWon' is emitted. When a key was held, the box of radius 10 around the new cell becomes visited, no cell becomes unvisited, and every tile and coin shows its state. With no key held, only the collection happens. |

## Left out

- Rendering is not modelled: `add.rectangle`, floor tiles, `CreateFogOfWar`'s tiles, `CreatePlayer`'s sprite, animation and 0.9 scale, coin size and colour, the HUD text of `initializeCoinCounter`, and `setAlpha` as a drawing call. A fog tile keeps only its `Visibility`, and a coin keeps its centre and `Visibility`.
- `playCoinSound` is not modelled: it makes WebAudio calls that nothing else reads.
- Keyboard polling is not modelled: each frame's held keys are a `Keys` value of four booleans, each WASD key or its arrow key.
- `Phaser.Geom.Rectangle.Overlaps` is a parameter, because sprite bounds depend on the texture size and a float scale. `overlaps(px, py, wall)` is evaluated on the player's current position for each wall, as the source recomputes `getBounds()` per wall. `touching(coin)` is evaluated on the position after the wall pass.
- `Math.random()` is a parameter `random: nat -> real`, where `random(k)` is the k-th draw, with values in [0, 1).
- `Math.sqrt` and `Math.pow` are replaced by the exact squared-integer comparisons described above. Floating-point rounding is not modelled.
- Maze.GenerateMaze: its termination measure is the pair (set of wall cells, stack length), ordered lexicographically, rather than the number 2·walls + |stack|; both decrease on every iteration. The maze's connectivity is not stated, because the source does not promise it. The stack invariant is a loop invariant, because the stack is local. The method requires a grid of at least 4 × 4; the source only generates 31 × 23, and a smaller grid would not fit the seed block and its border.
- Labyrinth.LabyrinthScene.constructor: it does not restate the maze's border and seed block; `Maze.GenerateMaze` proves them about the generated maze. The model allocates the visited and fog grids before building the walls and coins, while the source allocates the fog tiles after the walls; no step reads a grid before it is filled.
- Coins.CoinHelper.UpdateVisibility requires every coin's cell to lie inside the visited grid, so the model does not describe coins off the grid. Such coins never occur: every placed coin lies inside (`Coins.PlacedCoinsInside`), and coins never move.
- Coins.SortFarthestFirst: its definition is stable, because an inserted candidate goes before those at the same distance, which come later in the scan. No lemma states this stability.
- Coins.CoinHelper.CountExits and Coins.CoinHelper.FindDeadEnds require the grid size they are given to be the maze's own, which is what every caller passes.
- The two copies of `CoinHelper` are modelled once. The constant `emitsGameWon` is true for the copy in coinHelper.ts, which emits 'gameWon' at line 135. It is false for the copy at the top of LabyrinthScene.ts, which the scene uses and which never emits.
- The scene's main menu (src/scenes/menu/mainMenu.ts) and the engine configuration (src/main.ts) hold no game logic and are not part of this model.
