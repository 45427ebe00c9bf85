/**
 * The level generator: it lays a square grid of tiles, carves a maze of
 * regular tiles through crumbling ones, scatters spikes and picks a goal
 * square far enough from the player.
 *
 * Every random draw of the generator is an input: the maze draws, the shuffle
 * draws and the sequence of goal candidates make up a `LevelDraws`.
 */
module Ground {
  import opened Grid
  import opened Maze
  import opened Traps

  /** The random draws one level consumes. */
  datatype LevelDraws = LevelDraws(maze: seq<nat>, shuffle: seq<int>, goal: seq<Cell>)

  /**
   * Enough maze draws for every push of the backtracker, and one shuffle draw
   * in range per key of a full `gridSize` by `gridSize` map.
   */
  predicate DrawsFit(d: LevelDraws, gridSize: nat)
  {
    |d.maze| >= gridSize * gridSize && ShuffleDraws(d.shuffle, gridSize * gridSize)
  }

  /** A cell the goal search accepts: far enough from the player and holding a regular tile. */
  predicate IsGoalCandidate(m: map<Cell, TileKind>, player: Cell, c: Cell)
  {
    DistanceSquared(c, player) >= MinGoalDistance * MinGoalDistance && Lookup(m, c) == Some(Regular)
  }

  /** The first acceptable candidate, if any: the outcome of the rejection-sampling loop. */
  function ChooseGoal(m: map<Cell, TileKind>, player: Cell, candidates: seq<Cell>): (r: Option<Cell>)
    ensures r.Some? ==> r.value in m && m[r.value] == Regular
    ensures r.Some? ==> DistanceSquared(r.value, player) >= MinGoalDistance * MinGoalDistance
    ensures r.Some? ==> exists i :: 0 <= i < |candidates| && candidates[i] == r.value &&
                          forall j :: 0 <= j < i ==> !IsGoalCandidate(m, player, candidates[j])
    ensures r.None? <==> forall i :: 0 <= i < |candidates| ==> !IsGoalCandidate(m, player, candidates[i])
  {
    if |candidates| == 0 then None
    else if IsGoalCandidate(m, player, candidates[0]) then Some(candidates[0])
    else
      var r := ChooseGoal(m, player, candidates[1..]);
      assert r.Some? ==> exists i :: 0 <= i < |candidates| && candidates[i] == r.value &&
                          forall j :: 0 <= j < i ==> !IsGoalCandidate(m, player, candidates[j]) by {
        if r.Some? {
          var i :| 0 <= i < |candidates[1..]| && candidates[1..][i] == r.value &&
                   forall j :: 0 <= j < i ==> !IsGoalCandidate(m, player, candidates[1..][j]);
          assert forall j :: 0 <= j < i + 1 ==> !IsGoalCandidate(m, player, candidates[j]) by {
            forall j | 0 <= j < i + 1
              ensures !IsGoalCandidate(m, player, candidates[j])
            {
              if j > 0 {
                assert candidates[j] == candidates[1..][j - 1];
              }
            }
          }
          assert candidates[i + 1] == r.value;
        }
      }
      assert r.None? ==> forall i :: 0 <= i < |candidates| ==> !IsGoalCandidate(m, player, candidates[i]) by {
        if r.None? {
          forall i | 0 <= i < |candidates|
            ensures !IsGoalCandidate(m, player, candidates[i])
          {
            if i > 0 {
              assert candidates[i] == candidates[1..][i - 1];
            }
          }
        }
      }
      r
  }

  lemma SquareAtMost(d: int, b: int)
    requires 0 <= b && -b <= d <= b
    ensures d * d <= b * b
  {
    if d >= 0 {
      assert d * d <= b * d;
    } else {
      assert d * d <= b * -d;
    }
  }

  /**
   * On a grid of at most 12 cells a side every tile lies closer than 16 to a
   * player standing on the grid, so no candidate is ever accepted.
   */
  lemma SmallGridHasNoGoal(m: map<Cell, TileKind>, player: Cell, candidates: seq<Cell>, gridSize: int)
    requires gridSize <= 12 && IsValidGridPosition(player, gridSize)
    requires forall c :: c in m ==> IsValidGridPosition(c, gridSize)
    ensures ChooseGoal(m, player, candidates) == None
  {
    forall i | 0 <= i < |candidates|
      ensures !IsGoalCandidate(m, player, candidates[i])
    {
      var c := candidates[i];
      if c in m {
        SquareAtMost(c.x - player.x, 11);
        SquareAtMost(c.y - player.y, 11);
      }
    }
  }

  /** A cell of the line `start + direction * i`. */
  function LinePoint(start: Cell, direction: Cell, i: int): Cell
  {
    Cell(start.x + direction.x * i, start.y + direction.y * i)
  }

  /** `c` is one of the first `length` cells of the line from `start` along `direction`. */
  ghost predicate OnLine(c: Cell, start: Cell, direction: Cell, length: int)
  {
    exists i :: 0 <= i < length && LinePoint(start, direction, i) == c
  }

  class GroundGenerator {
    const gridSize: int
    /** The prefab's scale plus the gap between tiles, in whole world units. */
    const spacing: int
    var gridYPosition: int
    var winningSquarePosition: Cell
    var currentLevel: int
    var squareMap: map<Cell, TileKind>
    /** The cell the current level's maze was grown from. */
    ghost var levelStart: Cell
    /** The current level's maze path cells. */
    ghost var levelPath: set<Cell>
    /** The keys the current level's trap loop turned into spikes, in order. */
    ghost var levelTraps: seq<Cell>

    /** The settings the generator relies on, and a goal square inside the grid. */
    ghost predicate Config()
      reads this
    {
      gridSize >= 2 && spacing >= 1 && IsValidGridPosition(winningSquarePosition, gridSize)
    }

    /**
     * A built level: the map holds a tile for exactly the cells of the grid,
     * and every slippery tile slides along one of the four axis directions.
     */
    ghost predicate Valid()
      reads this
    {
      && Config()
      && (forall c :: c in squareMap <==> IsValidGridPosition(c, gridSize))
      && (forall c :: c in squareMap && squareMap[c].Slippery? ==> IsAxisUnit(squareMap[c].dir))
    }

    /**
     * The map is the level last built: grown from `levelStart`, the path is
     * connected from it and inside the grid, the traps are `TrapCount` distinct
     * keys, and every tile is a spike if trapped, else regular on the path,
     * else crumbling.
     */
    ghost predicate BuiltLevel()
      reads this
    {
      && levelStart in levelPath && Connected(levelPath, levelStart)
      && (forall c :: c in levelPath ==> IsValidGridPosition(c, gridSize))
      && Distinct(levelTraps) && |levelTraps| == TrapCount(currentLevel, gridSize * gridSize)
      && (forall t :: t in levelTraps ==> t in squareMap)
      && (forall c :: c in squareMap ==>
            squareMap[c] == (if c in levelTraps then Spike else if c in levelPath then Regular else Crumbling))
    }

    /** Start: an empty map, then the first level, grown from cell (1, 1). */
    constructor (gridSize: int, spacing: int, gridYPosition: int, player: Vec3, draws: LevelDraws)
      requires gridSize >= 2 && spacing >= 1 && DrawsFit(draws, gridSize)
      ensures Valid()
      ensures this.gridSize == gridSize && this.spacing == spacing
      ensures this.gridYPosition == gridYPosition && currentLevel == 1
      ensures BuiltLevel() && levelStart == Cell(1, 1)
      ensures Lookup(squareMap, Cell(1, 1)) in {Some(Regular), Some(Spike)}
      ensures var goal := ChooseGoal(squareMap, WorldToGrid(player, spacing), draws.goal);
        winningSquarePosition == if goal.Some? then goal.value else Cell(0, 0)
    {
      this.gridSize := gridSize;
      this.spacing := spacing;
      this.gridYPosition := gridYPosition;
      winningSquarePosition := Cell(0, 0);
      currentLevel := 1;
      squareMap := map[];
      new;
      var found := GenerateMaze(player, draws);
    }

    /** The level counter; the level text that follows it is presentation. */
    method SetCurrentLevel(value: int)
      modifies this
      ensures currentLevel == value
      ensures squareMap == old(squareMap) && winningSquarePosition == old(winningSquarePosition)
      ensures gridYPosition == old(gridYPosition)
    {
      currentLevel := value;
    }

    /** The tile at a cell, `None` where the map has no entry. */
    function GetSquareAtPosition(gridPosition: Cell): (r: Option<TileKind>)
      reads this
      ensures r.Some? <==> gridPosition in squareMap
      ensures Valid() ==> (r.None? <==> !IsValidGridPosition(gridPosition, gridSize))
      ensures r.Some? ==> r.value == squareMap[gridPosition]
    {
      Lookup(squareMap, gridPosition)
    }

    /** The cell whose tile spans a world position: each horizontal coordinate floored by the spacing. */
    function WorldToGridPosition(worldPosition: Vec3): (r: Cell)
      requires spacing > 0
      reads this
      ensures spacing * r.x <= worldPosition.x < spacing * (r.x + 1)
      ensures spacing * r.y <= worldPosition.z < spacing * (r.y + 1)
    {
      FloorDivSpan(worldPosition.x, spacing);
      FloorDivSpan(worldPosition.z, spacing);
      WorldToGrid(worldPosition, spacing)
    }

    /** The world position of a cell, at the level's height; mapping it back gives the cell. */
    function GridToWorldPosition(gridPosition: Cell): (p: Vec3)
      requires spacing > 0
      reads this
      ensures p.y == gridYPosition
      ensures WorldToGridPosition(p) == gridPosition
    {
      GridWorldRoundTrip(gridPosition, spacing, gridYPosition);
      GridToWorld(gridPosition, spacing, gridYPosition)
    }

    /** Every cell of the grid gets a crumbling tile. */
    method FillWithCrumbling()
      requires gridSize >= 0 && squareMap == map[]
      modifies this
      ensures forall c :: c in squareMap <==> IsValidGridPosition(c, gridSize)
      ensures forall c :: c in squareMap ==> squareMap[c] == Crumbling
      ensures gridYPosition == old(gridYPosition) && currentLevel == old(currentLevel)
      ensures winningSquarePosition == old(winningSquarePosition)
    {
      for x := 0 to gridSize
        invariant forall c :: c in squareMap <==> 0 <= c.x < x && 0 <= c.y < gridSize
        invariant forall c :: c in squareMap ==> squareMap[c] == Crumbling
        invariant gridYPosition == old(gridYPosition) && currentLevel == old(currentLevel)
        invariant winningSquarePosition == old(winningSquarePosition)
      {
        for y := 0 to gridSize
          invariant forall c :: c in squareMap <==> (0 <= c.x < x && 0 <= c.y < gridSize) || (c.x == x && 0 <= c.y < y)
          invariant forall c :: c in squareMap ==> squareMap[c] == Crumbling
          invariant gridYPosition == old(gridYPosition) && currentLevel == old(currentLevel)
          invariant winningSquarePosition == old(winningSquarePosition)
        {
          squareMap := squareMap[Cell(x, y) := Crumbling];
        }
      }
    }

    /** Every path cell of the maze gets a regular tile in place of its crumbling one. */
    method LayPath(maze: array2<bool>)
      requires maze.Length0 == gridSize && maze.Length1 == gridSize
      requires forall c :: c in squareMap <==> IsValidGridPosition(c, gridSize)
      modifies this
      ensures forall c :: c in squareMap <==> IsValidGridPosition(c, gridSize)
      ensures forall c :: c in squareMap ==>
        squareMap[c] == (if IsValidGridPosition(c, gridSize) && maze[c.x, c.y] then Regular else old(squareMap[c]))
      ensures gridYPosition == old(gridYPosition) && currentLevel == old(currentLevel)
      ensures winningSquarePosition == old(winningSquarePosition)
    {
      for x := 0 to gridSize
        invariant forall c :: c in squareMap <==> IsValidGridPosition(c, gridSize)
        invariant forall c :: c in squareMap ==> squareMap[c] == (if c.x < x && maze[c.x, c.y] then Regular else old(squareMap[c]))
        invariant gridYPosition == old(gridYPosition) && currentLevel == old(currentLevel)
        invariant winningSquarePosition == old(winningSquarePosition)
      {
        for y := 0 to gridSize
          invariant forall c :: c in squareMap <==> IsValidGridPosition(c, gridSize)
          invariant forall c :: c in squareMap ==>
            squareMap[c] == (if (c.x < x || (c.x == x && c.y < y)) && maze[c.x, c.y] then Regular else old(squareMap[c]))
          invariant gridYPosition == old(gridYPosition) && currentLevel == old(currentLevel)
          invariant winningSquarePosition == old(winningSquarePosition)
        {
          if maze[x, y] {
            squareMap := squareMap[Cell(x, y) := Regular];
          }
        }
      }
    }

    /** The map's keys, once each, shuffled in place with the given draws. */
    method ShuffledKeys(shuffleDraws: seq<int>) returns (potentialTrapPositions: array<Cell>)
      requires ShuffleDraws(shuffleDraws, |squareMap.Keys|)
      ensures fresh(potentialTrapPositions)
      ensures potentialTrapPositions.Length == |squareMap.Keys|
      ensures Distinct(potentialTrapPositions[..])
      ensures forall c :: c in potentialTrapPositions[..] <==> c in squareMap
    {
      var keys := ListKeys(squareMap.Keys);
      potentialTrapPositions := new Cell[|keys|](i requires 0 <= i < |keys| => keys[i]);
      assert potentialTrapPositions[..] == keys;
      Shuffle(potentialTrapPositions, shuffleDraws);
      ShuffleKeepsDistinct(keys, shuffleDraws, |keys|);
      ShufflePermutes(keys, shuffleDraws);
      forall c
        ensures c in potentialTrapPositions[..] <==> c in squareMap
      {
        assert c in potentialTrapPositions[..] <==> c in multiset(potentialTrapPositions[..]);
        assert c in keys <==> c in multiset(keys);
      }
    }

    /**
     * Turns the first `TrapCount` keys of a shuffled key list into spikes:
     * that many distinct cells already in the map, and nothing else changes.
     */
    method GenerateTraps(shuffleDraws: seq<int>) returns (ghost spiked: seq<Cell>)
      requires ShuffleDraws(shuffleDraws, |squareMap.Keys|)
      modifies this
      ensures squareMap.Keys == old(squareMap.Keys)
      ensures Distinct(spiked) && |spiked| == TrapCount(currentLevel, |squareMap.Keys|)
      ensures forall i :: 0 <= i < |spiked| ==> spiked[i] in squareMap
      ensures forall c :: c in squareMap ==> squareMap[c] == (if c in spiked then Spike else old(squareMap[c]))
      ensures gridYPosition == old(gridYPosition) && currentLevel == old(currentLevel)
      ensures winningSquarePosition == old(winningSquarePosition)
    {
      var potentialTrapPositions := ShuffledKeys(shuffleDraws);
      ghost var shuffled := potentialTrapPositions[..];
      var numberOfTraps := NumberOfTraps(currentLevel, potentialTrapPositions.Length);
      var tiles := squareMap;
      var i := 0;
      spiked := [];
      while i < numberOfTraps
        invariant 0 <= i <= TrapCount(currentLevel, |shuffled|)
        invariant spiked == shuffled[..i]
        invariant tiles.Keys == squareMap.Keys
        invariant forall c :: c in tiles ==> tiles[c] == (if c in spiked then Spike else squareMap[c])
      {
        var trapPosition := potentialTrapPositions[i];
        assert trapPosition in shuffled;
        tiles := tiles[trapPosition := Spike];
        spiked := spiked + [trapPosition];
        i := i + 1;
        assert spiked == shuffled[..i];
      }
      squareMap := tiles;
      DistinctPrefix(shuffled, i);
    }

    /**
     * Draws candidate cells until one lies at distance 16 or more from the
     * player's cell and holds a regular tile, and makes it the goal. The draws
     * are the candidates in order; when they run out no goal is chosen.
     */
    method SetRandomSquareGreen(playerPosition: Vec3, candidates: seq<Cell>) returns (found: bool)
      requires spacing > 0
      modifies this`winningSquarePosition
      ensures var goal := ChooseGoal(squareMap, WorldToGrid(playerPosition, spacing), candidates);
        found == goal.Some? && winningSquarePosition == if found then goal.value else old(winningSquarePosition)
      ensures squareMap == old(squareMap) && gridYPosition == old(gridYPosition)
      ensures currentLevel == old(currentLevel)
    {
      var playerGridPosition := WorldToGridPosition(playerPosition);
      ghost var goal := ChooseGoal(squareMap, playerGridPosition, candidates);
      found := false;
      var i := 0;
      while i < |candidates|
        invariant 0 <= i <= |candidates|
        invariant goal == ChooseGoal(squareMap, playerGridPosition, candidates[i..])
        invariant !found && winningSquarePosition == old(winningSquarePosition)
        invariant squareMap == old(squareMap) && gridYPosition == old(gridYPosition)
        invariant currentLevel == old(currentLevel)
      {
        var potentialGreenSquarePosition := candidates[i];
        assert candidates[i..][1..] == candidates[i + 1..];
        i := i + 1;
        if DistanceSquared(potentialGreenSquarePosition, playerGridPosition) < MinGoalDistance * MinGoalDistance {
          continue;
        }
        var winningSquare := GetSquareAtPosition(potentialGreenSquarePosition);
        if winningSquare == Some(Regular) {
          winningSquarePosition := potentialGreenSquarePosition;
          found := true;
          break;
        }
      }
    }

    /**
     * Builds a level: clears the map, fills the grid with crumbling tiles,
     * carves a maze of regular tiles from the start cell (cell (1, 1) on the
     * first level, the previous goal afterwards), lays the spikes and picks
     * the next goal.
     */
    method GenerateMaze(playerPosition: Vec3, draws: LevelDraws) returns (found: bool)
      requires Config() && DrawsFit(draws, gridSize)
      modifies this
      ensures Valid() && BuiltLevel()
      ensures levelStart == if old(currentLevel) == 1 then Cell(1, 1) else old(winningSquarePosition)
      ensures Lookup(squareMap, levelStart) in {Some(Regular), Some(Spike)}
      ensures var goal := ChooseGoal(squareMap, WorldToGrid(playerPosition, spacing), draws.goal);
        found == goal.Some? && winningSquarePosition == if found then goal.value else old(winningSquarePosition)
      ensures gridYPosition == old(gridYPosition) && currentLevel == old(currentLevel)
    {
      ClearGrid();
      var startPoint;
      if currentLevel == 1 {
        startPoint := Cell(1, 1);
      } else {
        startPoint := winningSquarePosition;
      }
      ghost var path := LayFloor(startPoint, draws.maze);
      ghost var traps := GenerateTraps(draws.shuffle);
      levelStart, levelPath, levelTraps := startPoint, path, traps;
      found := SetRandomSquareGreen(playerPosition, draws.goal);
    }

    /**
     * The map before the traps: a crumbling tile on every cell of the grid,
     * then a regular tile on every path cell of a maze grown from `startPoint`.
     */
    method LayFloor(startPoint: Cell, mazeDraws: seq<nat>) returns (ghost path: set<Cell>)
      requires gridSize >= 0 && squareMap == map[]
      requires IsValidGridPosition(startPoint, gridSize) && |mazeDraws| >= gridSize * gridSize
      modifies this
      ensures forall c :: c in squareMap <==> IsValidGridPosition(c, gridSize)
      ensures |squareMap.Keys| == gridSize * gridSize
      ensures forall c :: c in squareMap ==> squareMap[c] == (if c in path then Regular else Crumbling)
      ensures startPoint in path && Connected(path, startPoint)
      ensures forall c :: c in path ==> IsValidGridPosition(c, gridSize)
      ensures gridYPosition == old(gridYPosition) && currentLevel == old(currentLevel)
      ensures winningSquarePosition == old(winningSquarePosition)
    {
      FillWithCrumbling();
      var maze, pushes, iterations := GenerateMazeUsingRecursiveBacktracking(gridSize, gridSize, startPoint, mazeDraws);
      path := PathCells(maze);
      assert startPoint in path by {
        InPathCells(startPoint, maze);
      }
      PathCellsInBounds(maze);
      LayPath(maze);
      assert |squareMap.Keys| == gridSize * gridSize by {
        assert squareMap.Keys == AllCells(gridSize, gridSize) by {
          forall c ensures c in squareMap.Keys <==> c in AllCells(gridSize, gridSize) {
            InAllCells(c, gridSize, gridSize);
          }
        }
        AllCellsSize(gridSize, gridSize);
      }
      forall c | c in squareMap
        ensures squareMap[c] == (if c in path then Regular else Crumbling)
      {
        InPathCells(c, maze);
      }
    }

    method ClearGrid()
      modifies this
      ensures squareMap == map[]
      ensures gridYPosition == old(gridYPosition) && currentLevel == old(currentLevel)
      ensures winningSquarePosition == old(winningSquarePosition)
    {
      squareMap := map[];
    }

    /**
     * Lays slippery tiles sliding along `direction` on the first `length`
     * cells of the line from `startPosition`, skipping cells outside the grid.
     */
    method GenerateSlipperyTileLine(startPosition: Cell, direction: Cell, length: int)
      requires Valid() && IsAxisUnit(direction)
      modifies this
      ensures Valid()
      ensures squareMap.Keys == old(squareMap.Keys)
      ensures forall c :: c in squareMap ==>
        squareMap[c] == (if OnLine(c, startPosition, direction, length) then Slippery(direction) else old(squareMap[c]))
      ensures gridYPosition == old(gridYPosition) && currentLevel == old(currentLevel)
      ensures winningSquarePosition == old(winningSquarePosition)
    {
      for i := 0 to if length < 0 then 0 else length
        invariant Valid()
        invariant squareMap.Keys == old(squareMap.Keys)
        invariant forall c :: c in squareMap ==>
          squareMap[c] == (if OnLine(c, startPosition, direction, i) then Slippery(direction) else old(squareMap[c]))
        invariant gridYPosition == old(gridYPosition) && currentLevel == old(currentLevel)
        invariant winningSquarePosition == old(winningSquarePosition)
      {
        var currentPosition := LinePoint(startPosition, direction, i);
        forall c ensures OnLine(c, startPosition, direction, i + 1) <==>
                         OnLine(c, startPosition, direction, i) || c == currentPosition
        {
          if OnLine(c, startPosition, direction, i + 1) && c != currentPosition {
            var k :| 0 <= k < i + 1 && LinePoint(startPosition, direction, k) == c;
          }
        }
        if IsValidGridPosition(currentPosition, gridSize) {
          squareMap := squareMap[currentPosition := Slippery(direction)];
        }
      }
    }
  }
}
