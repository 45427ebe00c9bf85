# Rolling-cube maze: level generation and tile effects

This project models the core of a small rolling-cube puzzle game. It
covers the level generator (`GroundGenerator`) and the tile-trigger
logic of the player cube (`CubeMovement`), and proves properties of
both.

The level generator works in these steps:

- It fills a `gridSize` by `gridSize` grid with crumbling tiles.
- It carves a maze of regular tiles by recursive backtracking. The maze
  starts from cell (1, 1) on the first level and from the previous goal
  cell afterwards.
- It shuffles the map's keys with an in-place swap shuffle and turns the
  first `min(level, keys)` of them into spikes.
- It draws random cells until one holds a regular tile at distance 16 or
  more from the player. That cell becomes the goal.

The cube works like this:

- A roll starts only when no roll is under way. The letter keys Q, D, Z
  and S are tried first, then the arrow keys.
- After the quarter turn, four checks run in a fixed order: crumble,
  spike, teleport, slippery.
  - A crumbling tile later sends the cube back to its respawn point.
  - A spike that is up reloads the scene.
  - A teleport tile moves the cube to a random cell at the same height
    and runs the four checks again there.
  - A slippery tile makes the cube glide one unit at a time while the
    next unit is slippery in the same direction, then one unit more. The
    checks run again where it stops.
- When the cube stands on the goal cell after the checks, it rises one
  unit and the level counter goes up. The next level is built from the
  goal cell.

Modelling choices:

- **Positions in whole units.** World positions are whole numbers (the
  cube moves one unit at a time). A tile sits every `spacing` units,
  where `spacing` stands for the tile prefab's scale plus the gap. A
  cell is a position's coordinates floored by `spacing`.
- **Random draws are inputs.** Each draw becomes an input sequence:
  - `LevelDraws.maze`: neighbour choices, reduced modulo the number of
    candidates;
  - `LevelDraws.shuffle`: shuffle indices;
  - `LevelDraws.goal`: goal candidates;
  - `CubeMovement.teleportDraws`: teleport targets.
- **Time is discrete.**
  - `Update` is one frame of input.
  - `RotateStep` is one resumption of the roll (18 steps of 5 degrees).
  - `ResumeSlide` runs one pending slide.
  - `FinishCrumble` is the end of one crumble's delayed reset.
- **Scene reloads are events.** Which spikes are up is the `armed`
  argument. A scene reload is recorded as an event in `events`.

The model follows the game's code on these points:

- The map holds a tile for every cell of the grid: the crumbling fill,
  with the path cells overwritten by regular tiles. It does not hold the
  path cells only.
- Spikes are drawn from all keys, so a spike can replace a crumbling
  tile as well as a regular one.
- Level building never lays teleport or slippery tiles.
  `GenerateSlipperyTileLine` exists but nothing calls it.
- The goal search has no retry bound. With a finite list of candidates
  the model's search can fail, and `SmallGridHasNoGoal` shows it always
  fails on grids of 12 cells a side or fewer. In the game that search
  never ends.

## Model

| member | source | states |
|---|---|---|
| Grid.GridWorldRoundTrip | Assets/Scripts/GroundGenerator.cs:377-391 | mapping a cell to the world and back gives the same cell, at the grid's height |
| Grid.DistanceSquared | Assets/Scripts/GroundGenerator.cs:355 | the squared distance of two cells is never negative |
| Grid.DistanceBelowMinimum | Assets/Scripts/GroundGenerator.cs:355 | for the non-negative square root of the squared distance, `root < 16` holds exactly when the squared distance is below 256, so the goal search may compare squares |
| Grid.GridBounds | Assets/Scripts/GroundGenerator.cs:377-396 | a world position maps to a valid cell (both coordinates in `[0, gridSize)`) exactly when both its horizontal coordinates lie in `[0, gridSize * spacing)` |
| Maze.KeepUnmarked | Assets/Scripts/GroundGenerator.cs:248-256 | keeps exactly the candidates that are inside the maze and not yet carved, and never more than it was given |
| Maze.GetUnvisitedNeighbors | Assets/Scripts/GroundGenerator.cs:236-259 | at most four cells; a cell is returned if and only if it is `distance` away along an axis, inside the maze and not carved |
| Maze.Middle | Assets/Scripts/GroundGenerator.cs:222-223 | for a neighbour two away (C# truncating division), the wall cell shares an edge with both cells and lies between them |
| Maze.ExtendTree | Assets/Scripts/GroundGenerator.cs:219-225 | carving the wall cell and then the chosen neighbour keeps the carving history a tree rooted at the start |
| Maze.TreeIsConnected | Assets/Scripts/GroundGenerator.cs:212-231 | every cell of a carving tree is reached from its root by a walk of edge-sharing carved cells |
| Maze.Mark | Assets/Scripts/GroundGenerator.cs:219-222 | the two given cells become marked and no other cell changes |
| Maze.CarveNeighbor | Assets/Scripts/GroundGenerator.cs:217-225 | the chosen cell is the candidate the draw selects (draw modulo the candidate count) and was not carved before; exactly it and the wall cell between become marked, every other cell keeps its mark; the carving invariant holds for the carved set grown by those two cells |
| Maze.BacktrackStep | Assets/Scripts/GroundGenerator.cs:212-231 | when the top of the stack has unvisited neighbours, it pushes the one the next draw selects, which was not carved before, and carves it and the wall cell; when it has none, it pops the top and changes no cell; the carving invariant is kept either way |
| Maze.FinishedMaze | Assets/Scripts/GroundGenerator.cs:212-233 | when the loop ends, the start is marked and the marked cells are connected from it |
| Maze.GenerateMazeUsingRecursiveBacktracking | Assets/Scripts/GroundGenerator.cs:192-234 | the maze has the given dimensions, marks the start cell, and all its path cells are 4-connected to the start; the loop terminates after one pass per push plus one per pop, with fewer pushes than cells |
| Traps.Swap | Assets/Scripts/GroundGenerator.cs:183-186 | an exchange keeps the list's length |
| Traps.SwapPermutes | Assets/Scripts/GroundGenerator.cs:183-186 | an exchange keeps every entry with its multiplicity |
| Traps.SwapKeepsDistinct | Assets/Scripts/GroundGenerator.cs:183-186 | an exchange keeps a repeat-free list free of repeats |
| Traps.ShuffleRounds | Assets/Scripts/GroundGenerator.cs:179-190 | the list after `k` rounds of the shuffle has the input's length |
| Traps.ShufflePermutes | Assets/Scripts/GroundGenerator.cs:179-190 | the full shuffle is a permutation of its input |
| Traps.ShuffleKeepsDistinct | Assets/Scripts/GroundGenerator.cs:179-190 | the shuffle of a repeat-free list is repeat-free |
| Traps.SwapEntries | Assets/Scripts/GroundGenerator.cs:183-186 | the array afterwards is the old contents with the two entries exchanged |
| Traps.Shuffle | Assets/Scripts/GroundGenerator.cs:179-190 | the array ends as the specified rounds applied to its old contents, one round per index with the drawn index |
| Traps.NumberOfTraps | Assets/Scripts/GroundGenerator.cs:166 | the bound is at most the level and at most the key count, and equals one of them |
| Traps.TrapCount | Assets/Scripts/GroundGenerator.cs:166-176 | the loop lays at most as many spikes as there are keys; exactly `min(level, count)` for a level of zero or more, and none for a level of zero or less |
| Traps.ListKeys | Assets/Scripts/GroundGenerator.cs:160 | lists every key of the dictionary exactly once |
| Ground.ChooseGoal | Assets/Scripts/GroundGenerator.cs:343-368 | a chosen goal is a key holding a regular tile at distance 16 or more from the player, and it is the first acceptable candidate; no goal is chosen exactly when no candidate is acceptable |
| Ground.SmallGridHasNoGoal | Assets/Scripts/GroundGenerator.cs:349-368 | when the grid is 12 cells a side or fewer and the player is on it, no candidate is ever accepted |
| Ground.GroundGenerator.constructor | Assets/Scripts/GroundGenerator.cs:35-44 | starts at level 1 and builds a valid first level grown from (1, 1): a connected path from (1, 1), `min(1, cells)` distinct spikes, every other cell crumbling; (1, 1) holds a regular tile or a spike, and the goal is the first acceptable candidate, else (0, 0) |
| Ground.GroundGenerator.SetCurrentLevel | Assets/Scripts/GroundGenerator.cs:415-424 | sets the level counter and changes nothing else of the grid |
| Ground.GroundGenerator.GetSquareAtPosition | Assets/Scripts/GroundGenerator.cs:333-341 | a tile is found exactly when the cell is a key, and then it is the stored tile; on a built level, nothing is found exactly when the cell is outside the grid |
| Ground.GroundGenerator.WorldToGridPosition | Assets/Scripts/GroundGenerator.cs:377-386 | the cell returned is the one whose span of `spacing` units holds the position, on both horizontal axes |
| Ground.GroundGenerator.GridToWorldPosition | Assets/Scripts/GroundGenerator.cs:388-391 | the world position is at the grid's height and maps back to the same cell |
| Ground.GroundGenerator.FillWithCrumbling | Assets/Scripts/GroundGenerator.cs:78-89 | the map has a key for exactly the grid's cells, all crumbling |
| Ground.GroundGenerator.LayPath | Assets/Scripts/GroundGenerator.cs:95-110 | the key set is unchanged; each maze path cell becomes regular and every other cell keeps its tile |
| Ground.GroundGenerator.LayFloor | Assets/Scripts/GroundGenerator.cs:77-110 | the map has `gridSize * gridSize` keys, exactly the grid's cells; the path cells are regular, connected from the start and inside the grid, and every other cell is crumbling |
| Ground.GroundGenerator.ShuffledKeys | Assets/Scripts/GroundGenerator.cs:160-163 | a new array holding every key of the map exactly once |
| Ground.GroundGenerator.GenerateTraps | Assets/Scripts/GroundGenerator.cs:157-177 | lays `min(level, keys)` spikes on distinct keys of the map; every other tile and the key set are unchanged |
| Ground.GroundGenerator.SetRandomSquareGreen | Assets/Scripts/GroundGenerator.cs:343-375 | the goal becomes the first acceptable candidate when there is one, and is otherwise left as it was; the map is not changed |
| Ground.GroundGenerator.ClearGrid | Assets/Scripts/GroundGenerator.cs:327-330 | the map is emptied and nothing else changes |
| Ground.GroundGenerator.GenerateMaze | Assets/Scripts/GroundGenerator.cs:55-120 | a valid level grown from (1, 1) on level 1 and from the previous goal afterwards: the path is connected from that cell and inside the grid; `min(level, cells)` distinct spikes, all on keys of the map; each cell is a spike if trapped, otherwise regular if on the path, otherwise crumbling; the goal is the first acceptable candidate, else unchanged |
| Ground.GroundGenerator.GenerateSlipperyTileLine | Assets/Scripts/GroundGenerator.cs:398-411 | exactly the in-grid cells among the first `length` cells of the line become slippery along `direction`; every other tile and the key set are unchanged |
| Movement.RollDelta | Assets/Scripts/CubeMovement.cs:21-29 | each roll direction is a unit step along world x or world z |
| Movement.LetterDirection | Assets/Scripts/CubeMovement.cs:21-24 | a letter direction is chosen exactly when a letter key is held; left exactly when Q is held, right exactly when D is held without Q, forward exactly when Z is held without Q or D, back exactly when S is held alone among the four |
| Movement.ArrowDirection | Assets/Scripts/CubeMovement.cs:26-29 | an arrow direction is chosen exactly when an arrow key is held; left exactly when the left arrow is held, right exactly when the right arrow is held without the left, forward exactly when the up arrow is held without left or right, back exactly when the down arrow is held alone among the four |
| Movement.ChecksOnPlainTile | Assets/Scripts/CubeMovement.cs:125-191 | on a cell with no tile or a regular tile, none of the four checks does anything |
| Movement.ChecksSuffix | Assets/Scripts/CubeMovement.cs:163-177 | the teleports of a chain of checks use up a prefix of the draws given; what is left is the rest of them |
| Movement.ChecksLanding | Assets/Scripts/CubeMovement.cs:153-177 | after the checks the cube is at its starting height and either has not moved or started on a teleport tile and stands inside the grid |
| Movement.ChecksKeepValid | Assets/Scripts/CubeMovement.cs:163-191 | on a map whose slippery tiles slide along an axis, the teleport draws left after the checks stay inside the grid, and a started slide runs along an axis |
| Movement.ChecksSettle | Assets/Scripts/CubeMovement.cs:51-54 | only the tile where the chain of checks ends has an effect: the scene reloads exactly when that tile is a spike that is up, one crumble starts exactly when it is crumbling, and every slide started follows its direction |
| Movement.SlideRunBounds | Assets/Scripts/CubeMovement.cs:193-220 | the first `k` units past the start are slippery along the slide's direction and unit `k + 1` is not |
| Movement.CubeMovement.constructor | Assets/Scripts/CubeMovement.cs:13-15 | the respawn point is the starting position; not moving, nothing pending |
| Movement.CubeMovement.Update | Assets/Scripts/CubeMovement.cs:17-37 | while rolling, input changes nothing; otherwise a roll starts exactly when a key is held, in the letter key's direction if one is held, else the arrow's |
| Movement.CubeMovement.Roll | Assets/Scripts/CubeMovement.cs:39-43 | a roll already under way is left alone; otherwise the roll starts in the given direction |
| Movement.CubeMovement.CheckCrumblingTile | Assets/Scripts/CubeMovement.cs:125-137 | a crumble is triggered exactly when the cube's cell holds a crumbling tile |
| Movement.CubeMovement.CheckSpikeSquare | Assets/Scripts/CubeMovement.cs:139-151 | the scene reloads exactly when the cube's cell holds a spike that is up |
| Movement.CubeMovement.CheckTeleportTile | Assets/Scripts/CubeMovement.cs:153-161 | on a teleport tile it teleports, and elsewhere changes nothing |
| Movement.CubeMovement.TeleportToRandomPosition | Assets/Scripts/CubeMovement.cs:163-177 | moves to the next drawn cell at the cube's height and runs the four checks there; with no draw left, the chain stops |
| Movement.CubeMovement.CheckSlipperyTile | Assets/Scripts/CubeMovement.cs:179-191 | a slide along the tile's direction starts exactly when the cube's cell is slippery |
| Movement.CubeMovement.CheckTiles | Assets/Scripts/CubeMovement.cs:51-54 | the four checks in order, with the whole new state given by the specification of the check chain |
| Movement.CubeMovement.Glide | Assets/Scripts/CubeMovement.cs:222-233 | the cube ends on the glide's target |
| Movement.CubeMovement.SlideOnSlipperyTiles | Assets/Scripts/CubeMovement.cs:193-220 | after crossing `k` slippery units in the slide's direction, the cube stops exactly `k + 1` units past its start |
| Movement.CubeMovement.ResumeSlide | Assets/Scripts/CubeMovement.cs:193-239 | runs the pending slide, then the four checks where it stops, keeping the invariants |
| Movement.CubeMovement.ResetPlayerPosition | Assets/Scripts/CubeMovement.cs:99-102 | the cube is back at its respawn point |
| Movement.CubeMovement.FinishCrumble | Assets/Scripts/CrumblingTileBehavior.cs:19-33 | the cube is back at its respawn point and one fewer reset is pending |
| Movement.CubeMovement.MoveUpSmoothly | Assets/Scripts/CubeMovement.cs:66-81 | the cube is one unit higher, and that position is the new respawn point |
| Movement.CubeMovement.AdvanceLevel | Assets/Scripts/CubeMovement.cs:56-63 | the cube rises one unit and that is its new respawn point; the grid height and level go up by one; the next level is built as `GenerateMaze` states, grown from the old goal cell, which holds a regular tile or a spike; the new goal is the first acceptable candidate, else the old one |
| Movement.CubeMovement.Land | Assets/Scripts/CubeMovement.cs:44-54 | the cube stands one unit further on in the roll's direction, is free to move, and the four checks run there; the grid is not touched |
| Movement.CubeMovement.FinishRoll | Assets/Scripts/CubeMovement.cs:44-64 | after the checks, the level advances exactly when the cube's final cell is the goal: the cube rises, the next level is built from the old goal as `GenerateMaze` states and the new goal is chosen; otherwise no field of the grid changes, the built level included |
| Movement.CubeMovement.RotateStep | Assets/Scripts/CubeMovement.cs:44-49 | before the 18th step only the step count changes, every other field of the cube is as before and no field of the grid changes, the built level included; after it, the roll finishes with the whole state `FinishRoll` states |

## Left out

- Animation, tweening, colours, materials and level texts are left out.
  This includes the green goal material, the level text motion,
  `AnimateMaze`, `MoveSingleSquareToFinalPosition`, `FadeOutLevel` and
  `UnactiveLastLevel`. They only change presentation.
- `GetSquarePositionsSortedByDistanceFromPlayer` is left out. It only
  orders the tile animation.
- `GenerateLevelInEditor` is left out. It is an editor hook.
- Floating point is not modelled: positions, the spacing and the roll
  are whole units.
  - The rotation about the cube's edge is one unit step at the end of
    the roll.
  - `Mathf.Round` is the identity on whole units.
- The crumble's short rise (`MoveUpCrumblingSmoothly`) and the delays
  before the reset are left out. Only their end, the reset to the
  respawn point, is modelled.
- The scene reload is only an event. What the engine does on a reload
  is not part of this model. Whether a spike is up (its timer in
  `SpikeSquareBehavior.cs`) is the `armed` input.
- Randomness is not modelled as a distribution. Every draw is an input,
  and uniformity is not stated.
- Coroutines are not interleaved. Slides are modelled one at a time:
  - Each slide is deferred to `ResumeSlide`, and its checks run only at
    its final glide.
  - Checks of intermediate glides are not modelled. Nor are slides that
    would overlap or nest, or a roll started during a slide.
  - A newer slide replaces a pending one.
  - Ping-pong between opposite slippery tiles, which never ends in the
    game, becomes repeated calls to `ResumeSlide`.
- Movement.CubeMovement.TeleportToRandomPosition: a chain of teleports
  is bounded by the draws. When they run out the chain stops with
  `TeleportDrawsExhausted`, where the game would keep drawing.
- Ground.GroundGenerator.SetRandomSquareGreen: the goal search is
  bounded by the candidates given. When none is acceptable the goal is
  left as it was, where the game would keep drawing forever.
- Ground.GroundGenerator.GenerateSlipperyTileLine requires `direction`
  to be one of the four axis unit vectors, and a built map (a tile on
  every grid cell). The source accepts any vector and writes into any
  dictionary. This keeps every slippery tile sliding along an axis.
- One `spacing` stands for both `localScale.x + gap` and
  `localScale.z + gap`: the tiles are taken to be square.
- Movement.CubeMovement.MoveUpSmoothly sets the new respawn point at
  once. In the game `initialPosition` changes only at the end of the
  0.5 s rise, so a reset during the rise would use the old one.
- Ground.GroundGenerator.constructor starts with the goal at cell
  (0, 0), the default of the serialized `winningSquarePosition`, and
  requires `gridSize >= 2` so that cell (1, 1) lies in the grid.
- `groundold.cs`, `CameraController.cs`, `LevelSnapshot.cs` and
  `BumperController.cs` are not part of this model.
