/**
 * The maze generator of GroundGenerator: randomized recursive backtracking over
 * a `bool[,]` grid with an explicit stack, jumping two cells at a time and
 * carving the cell in between.
 *
 * Unity's `Random.Range(0, n)` is an oracle: the k-th draw is an arbitrary
 * natural number `draws[k]`, reduced modulo `n`, which reaches every value the
 * engine can return.
 */
module Maze {
  import opened Grid

  /** Every cell of a `width` by `height` grid. */
  ghost function AllCells(width: int, height: int): set<Cell>
  {
    set x, y | 0 <= x < width && 0 <= y < height :: Cell(x, y)
  }

  lemma InAllCells(c: Cell, width: int, height: int)
    ensures c in AllCells(width, height) <==> 0 <= c.x < width && 0 <= c.y < height
  {
    if 0 <= c.x < width && 0 <= c.y < height {
      assert Cell(c.x, c.y) in AllCells(width, height);
    }
  }

  ghost function Column(x: int, height: int): set<Cell>
  {
    set y | 0 <= y < height :: Cell(x, y)
  }

  lemma InColumn(c: Cell, x: int, height: int)
    ensures c in Column(x, height) <==> c.x == x && 0 <= c.y < height
  {
    if c.x == x && 0 <= c.y < height {
      assert Cell(x, c.y) in Column(x, height);
    }
  }

  lemma {:induction false} ColumnSize(x: int, height: nat)
    ensures |Column(x, height)| == height
  {
    if height == 0 {
      assert Column(x, 0) == {};
    } else {
      ColumnSize(x, height - 1);
      assert Column(x, height) == Column(x, height - 1) + {Cell(x, height - 1)} by {
        forall c
          ensures c in Column(x, height) <==> c in Column(x, height - 1) + {Cell(x, height - 1)}
        {
          InColumn(c, x, height);
          InColumn(c, x, height - 1);
        }
      }
      InColumn(Cell(x, height - 1), x, height - 1);
    }
  }

  /** The grid holds exactly `width * height` cells. */
  lemma {:induction false} AllCellsSize(width: nat, height: nat)
    ensures |AllCells(width, height)| == width * height
  {
    if width == 0 {
      assert AllCells(0, height) == {};
    } else {
      var w := width - 1;
      AllCellsSize(w, height);
      ColumnSize(w, height);
      assert AllCells(width, height) == AllCells(w, height) + Column(w, height) by {
        forall c
          ensures c in AllCells(width, height) <==> c in AllCells(w, height) + Column(w, height)
        {
          InAllCells(c, width, height);
          InAllCells(c, w, height);
          InColumn(c, w, height);
        }
      }
      assert AllCells(w, height) !! Column(w, height) by {
        forall c | c in Column(w, height)
          ensures c !in AllCells(w, height)
        {
          InAllCells(c, w, height);
          InColumn(c, w, height);
        }
      }
      MulSucc(w, height);
    }
  }

  lemma MulSucc(a: int, b: int)
    ensures (a + 1) * b == a * b + b
  {
  }

  lemma SubsetSize<T>(a: set<T>, b: set<T>)
    requires a <= b
    ensures |a| <= |b|
    ensures a < b ==> |a| < |b|
  {
    assert b == a + (b - a);
    if a < b {
      var e :| e in b - a;
      assert e in b - a;
    }
  }

  /** The cells of `maze` marked as path. */
  ghost function PathCells(maze: array2<bool>): set<Cell>
    reads maze
  {
    set x, y | 0 <= x < maze.Length0 && 0 <= y < maze.Length1 && maze[x, y] :: Cell(x, y)
  }

  /** Path cells lie inside the maze. */
  lemma PathCellsInBounds(maze: array2<bool>)
    ensures forall c :: c in PathCells(maze) ==> 0 <= c.x < maze.Length0 && 0 <= c.y < maze.Length1
  {
  }

  lemma InPathCells(c: Cell, maze: array2<bool>)
    requires 0 <= c.x < maze.Length0 && 0 <= c.y < maze.Length1
    ensures c in PathCells(maze) <==> maze[c.x, c.y]
  {
    if maze[c.x, c.y] {
      assert Cell(c.x, c.y) in PathCells(maze);
    }
  }

  /** A sequence of cells of `cells`, each sharing an edge with the next. */
  ghost predicate IsWalk(w: seq<Cell>, cells: set<Cell>)
  {
    && |w| >= 1
    && (forall i :: 0 <= i < |w| ==> w[i] in cells)
    && (forall i :: 0 <= i < |w| - 1 ==> Adjacent(w[i], w[i + 1]))
  }

  /** Every cell of `cells` is reached from `start` by 4-connected steps inside `cells`. */
  ghost predicate Connected(cells: set<Cell>, start: Cell)
  {
    forall c :: c in cells ==> exists w :: IsWalk(w, cells) && w[0] == start && w[|w| - 1] == c
  }

  /**
   * The carving history as a tree: every cell but the root was carved from an
   * adjacent cell carved before it (`rank` orders the carving).
   */
  ghost predicate CarvingTree(cells: set<Cell>, root: Cell, parent: map<Cell, Cell>, rank: map<Cell, nat>)
  {
    && root in cells
    && rank.Keys == cells
    && parent.Keys == cells - {root}
    && forall c :: c in parent ==> parent[c] in cells && Adjacent(parent[c], c) && rank[parent[c]] < rank[c]
  }

  /** Following the carving tree back to the root gives a walk from the root to `c`. */
  lemma {:induction false} WalkFromRoot(cells: set<Cell>, root: Cell, parent: map<Cell, Cell>, rank: map<Cell, nat>, c: Cell)
    returns (w: seq<Cell>)
    requires CarvingTree(cells, root, parent, rank) && c in cells
    ensures IsWalk(w, cells) && w[0] == root && w[|w| - 1] == c
    decreases rank[c]
  {
    if c == root {
      w := [root];
    } else {
      var u := WalkFromRoot(cells, root, parent, rank, parent[c]);
      w := u + [c];
      assert forall i :: 0 <= i < |w| - 1 ==> Adjacent(w[i], w[i + 1]) by {
        forall i | 0 <= i < |w| - 1
          ensures Adjacent(w[i], w[i + 1])
        {
          if i < |u| - 1 {
            assert w[i] == u[i] && w[i + 1] == u[i + 1];
          } else {
            assert w[i] == parent[c] && w[i + 1] == c;
          }
        }
      }
    }
  }

  lemma {:induction false} TreeIsConnected(cells: set<Cell>, root: Cell, parent: map<Cell, Cell>, rank: map<Cell, nat>)
    requires CarvingTree(cells, root, parent, rank)
    ensures Connected(cells, root)
  {
    forall c | c in cells
      ensures exists w :: IsWalk(w, cells) && w[0] == root && w[|w| - 1] == c
    {
      var w := WalkFromRoot(cells, root, parent, rank, c);
    }
  }

  /** `n` lies `d` cells away from `c` along one axis. */
  predicate AxisOffset(c: Cell, n: Cell, d: int)
  {
    || (n.y == c.y && (n.x == c.x - d || n.x == c.x + d))
    || (n.x == c.x && (n.y == c.y - d || n.y == c.y + d))
  }

  /** Inside the maze and not yet carved. */
  predicate IsUnmarked(n: Cell, maze: array2<bool>)
    reads maze
  {
    0 <= n.x < maze.Length0 && 0 <= n.y < maze.Length1 && !maze[n.x, n.y]
  }

  /** The candidates of `cs` that are unmarked, in their order. */
  function KeepUnmarked(cs: seq<Cell>, maze: array2<bool>): (r: seq<Cell>)
    reads maze
    ensures |r| <= |cs|
    ensures forall n :: n in r <==> n in cs && IsUnmarked(n, maze)
  {
    if cs == [] then []
    else (if IsUnmarked(cs[0], maze) then [cs[0]] else []) + KeepUnmarked(cs[1..], maze)
  }

  /**
   * The unmarked cells `distance` away from `cell` along an axis, checked in
   * the order left, right, down, up.
   */
  function GetUnvisitedNeighbors(cell: Cell, maze: array2<bool>, distance: int): (r: seq<Cell>)
    reads maze
    ensures |r| <= 4
    ensures forall n :: n in r ==> AxisOffset(cell, n, distance) && IsUnmarked(n, maze)
    ensures forall n :: AxisOffset(cell, n, distance) && IsUnmarked(n, maze) ==> n in r
  {
    var candidates := [
      Cell(cell.x - distance, cell.y),
      Cell(cell.x + distance, cell.y),
      Cell(cell.x, cell.y - distance),
      Cell(cell.x, cell.y + distance)
    ];
    KeepUnmarked(candidates, maze)
  }

  /** Halving with C#'s integer division, which truncates toward zero. */
  function TruncatedHalf(d: int): int
  {
    if d < 0 then -((-d) / 2) else d / 2
  }

  /**
   * The wall cell `current + (neighbor - current) / 2` between two cells two
   * apart: it lies between them and shares an edge with both.
   */
  function Middle(current: Cell, neighbor: Cell): (m: Cell)
    requires AxisOffset(current, neighbor, 2)
    ensures Adjacent(current, m) && Adjacent(m, neighbor)
    ensures current.x <= m.x <= neighbor.x || neighbor.x <= m.x <= current.x
    ensures current.y <= m.y <= neighbor.y || neighbor.y <= m.y <= current.y
  {
    Cell(current.x + TruncatedHalf(neighbor.x - current.x), current.y + TruncatedHalf(neighbor.y - current.y))
  }

  /** The array marks exactly the cells of `cells` inside its bounds. */
  ghost predicate Mirrors(maze: array2<bool>, cells: set<Cell>)
    reads maze
  {
    forall x, y :: 0 <= x < maze.Length0 && 0 <= y < maze.Length1 ==> (maze[x, y] <==> Cell(x, y) in cells)
  }

  ghost predicate RanksBelow(rank: map<Cell, nat>, bound: nat)
  {
    forall c :: c in rank ==> rank[c] < bound
  }

  /** A maze mirroring a set of in-bounds cells has exactly those path cells. */
  lemma MirroredCells(maze: array2<bool>, cells: set<Cell>)
    requires Mirrors(maze, cells) && cells <= AllCells(maze.Length0, maze.Length1)
    ensures PathCells(maze) == cells
  {
    forall c | c in PathCells(maze)
      ensures c in cells
    {
      InPathCells(c, maze);
    }
    forall c | c in cells
      ensures c in PathCells(maze)
    {
      InAllCells(c, maze.Length0, maze.Length1);
      InPathCells(c, maze);
    }
  }

  /** Carving `middle` from `current` and then `chosen` from `middle` keeps the carving tree. */
  lemma ExtendTree(cells: set<Cell>, root: Cell, parent: map<Cell, Cell>, rank: map<Cell, nat>, next: nat,
                   current: Cell, middle: Cell, chosen: Cell)
    returns (parent': map<Cell, Cell>, rank': map<Cell, nat>, next': nat)
    requires CarvingTree(cells, root, parent, rank) && RanksBelow(rank, next)
    requires current in cells && chosen !in cells
    requires Adjacent(current, middle) && Adjacent(middle, chosen)
    ensures CarvingTree(cells + {chosen, middle}, root, parent', rank') && RanksBelow(rank', next')
  {
    parent', rank', next' := parent, rank, next;
    if middle !in cells {
      parent', rank', next' := parent'[middle := current], rank'[middle := next'], next' + 1;
    }
    parent', rank', next' := parent'[chosen := middle], rank'[chosen := next'], next' + 1;
  }

  /** The bookkeeping of one run of the loop: carved cells, their carving tree and their count. */
  ghost predicate Carved(maze: array2<bool>, start: Cell, visited: set<Cell>,
                         parent: map<Cell, Cell>, rank: map<Cell, nat>, nextRank: nat)
    reads maze
  {
    && visited <= AllCells(maze.Length0, maze.Length1)
    && Mirrors(maze, visited)
    && CarvingTree(visited, start, parent, rank)
    && RanksBelow(rank, nextRank)
  }

  /**
   * The push branch of the loop: picks the neighbour the draw selects, marks
   * it and the wall cell between, and reports the cell to push.
   */
  method CarveNeighbor(maze: array2<bool>, current: Cell, unvisitedNeighbors: seq<Cell>, draw: nat,
                       ghost start: Cell, ghost visited: set<Cell>,
                       ghost parent: map<Cell, Cell>, ghost rank: map<Cell, nat>, ghost nextRank: nat)
    returns (chosenNeighbor: Cell, ghost visited': set<Cell>,
             ghost parent': map<Cell, Cell>, ghost rank': map<Cell, nat>, ghost nextRank': nat)
    requires Carved(maze, start, visited, parent, rank, nextRank)
    requires current in visited && |unvisitedNeighbors| > 0
    requires forall n :: n in unvisitedNeighbors ==> AxisOffset(current, n, 2) && IsUnmarked(n, maze)
    modifies maze
    ensures chosenNeighbor == unvisitedNeighbors[draw % |unvisitedNeighbors|] && chosenNeighbor !in visited
    ensures forall x, y :: 0 <= x < maze.Length0 && 0 <= y < maze.Length1 ==>
      maze[x, y] == (old(maze[x, y]) || Cell(x, y) == chosenNeighbor || Cell(x, y) == Middle(current, chosenNeighbor))
    ensures Carved(maze, start, visited', parent', rank', nextRank')
    ensures visited' == visited + {chosenNeighbor, Middle(current, chosenNeighbor)} && |visited'| > |visited|
  {
    chosenNeighbor := unvisitedNeighbors[draw % |unvisitedNeighbors|];
    var middle := Middle(current, chosenNeighbor);
    InAllCells(current, maze.Length0, maze.Length1);
    InAllCells(chosenNeighbor, maze.Length0, maze.Length1);
    InAllCells(middle, maze.Length0, maze.Length1);
    assert chosenNeighbor !in visited;
    Mark(maze, chosenNeighbor, middle);
    visited' := visited + {chosenNeighbor, middle};
    assert Mirrors(maze, visited') by {
      forall x, y | 0 <= x < maze.Length0 && 0 <= y < maze.Length1
        ensures maze[x, y] <==> Cell(x, y) in visited'
      {
      }
    }
    parent', rank', nextRank' := ExtendTree(visited, start, parent, rank, nextRank, current, middle, chosenNeighbor);
    GrowBySome(visited, chosenNeighbor, middle);
  }

  /** Sets the two in-bounds cells `a` and `b` of the array, and no other. */
  method Mark(maze: array2<bool>, a: Cell, b: Cell)
    requires 0 <= a.x < maze.Length0 && 0 <= a.y < maze.Length1
    requires 0 <= b.x < maze.Length0 && 0 <= b.y < maze.Length1
    modifies maze
    ensures forall x, y :: 0 <= x < maze.Length0 && 0 <= y < maze.Length1 ==>
      maze[x, y] == (old(maze[x, y]) || Cell(x, y) == a || Cell(x, y) == b)
  {
    maze[a.x, a.y] := true;
    maze[b.x, b.y] := true;
  }

  lemma GrowBySome(cells: set<Cell>, chosen: Cell, middle: Cell)
    requires chosen !in cells
    ensures |cells + {chosen, middle}| >= |cells| + 1
  {
    assert |cells + {chosen}| == |cells| + 1;
    SubsetSize(cells + {chosen}, cells + {chosen, middle});
  }

  /**
   * One run of the loop body (lines 214-230): peek at the top of the stack;
   * carve towards a drawn unvisited neighbour and push it, or pop when there
   * is none.
   */
  method BacktrackStep(maze: array2<bool>, draws: seq<nat>, stack: seq<Cell>, drawn: nat,
                       ghost start: Cell, ghost visited: set<Cell>,
                       ghost parent: map<Cell, Cell>, ghost rank: map<Cell, nat>, ghost nextRank: nat)
    returns (stack': seq<Cell>, drawn': nat, ghost visited': set<Cell>,
             ghost parent': map<Cell, Cell>, ghost rank': map<Cell, nat>, ghost nextRank': nat)
    requires Carved(maze, start, visited, parent, rank, nextRank)
    requires |stack| > 0 && forall i :: 0 <= i < |stack| ==> stack[i] in visited
    requires |draws| >= maze.Length0 * maze.Length1 && |visited| >= drawn + 1 && drawn < |draws|
    modifies maze
    ensures Carved(maze, start, visited', parent', rank', nextRank')
    ensures forall i :: 0 <= i < |stack'| ==> stack'[i] in visited'
    ensures |visited'| >= drawn' + 1
    ensures || (drawn' == drawn + 1 && |stack'| == |stack| + 1 && |visited'| > |visited|)
            || (drawn' == drawn && stack' == stack[..|stack| - 1] && visited' == visited)
    ensures var current := stack[|stack| - 1];
      var candidates := old(GetUnvisitedNeighbors(current, maze, 2));
      if |candidates| > 0 then
        var chosen := candidates[draws[drawn] % |candidates|];
        && stack' == stack + [chosen] && drawn' == drawn + 1
        && chosen !in visited && visited' == visited + {chosen, Middle(current, chosen)}
      else
        stack' == stack[..|stack| - 1] && drawn' == drawn && visited' == visited && unchanged(maze)
  {
    var current := stack[|stack| - 1];
    var unvisitedNeighbors := GetUnvisitedNeighbors(current, maze, 2);
    if |unvisitedNeighbors| > 0 {
      InAllCells(unvisitedNeighbors[0], maze.Length0, maze.Length1);
      SubsetSize(visited, AllCells(maze.Length0, maze.Length1));
      AllCellsSize(maze.Length0, maze.Length1);
      var chosenNeighbor;
      chosenNeighbor, visited', parent', rank', nextRank' :=
        CarveNeighbor(maze, current, unvisitedNeighbors, draws[drawn], start, visited, parent, rank, nextRank);
      stack' := stack + [chosenNeighbor];
      drawn' := drawn + 1;
      assert |visited'| > |visited|;
    } else {
      stack', drawn' := stack[..|stack| - 1], drawn;
      visited', parent', rank', nextRank' := visited, parent, rank, nextRank;
    }
  }

  /**
   * Carves a `width` by `height` maze from `start`. The result marks `start`,
   * its path cells are all reached from `start` through 4-connected path
   * cells, the loop pushes fewer than `width * height` cells, and it runs
   * exactly one iteration per push plus one per pop.
   */
  method GenerateMazeUsingRecursiveBacktracking(width: int, height: int, start: Cell, draws: seq<nat>)
    returns (maze: array2<bool>, ghost pushes: nat, ghost iterations: nat)
    requires 0 <= start.x < width && 0 <= start.y < height
    requires |draws| >= width * height
    ensures maze.Length0 == width && maze.Length1 == height
    ensures maze[start.x, start.y]
    ensures Connected(PathCells(maze), start)
    ensures pushes < width * height && iterations == 2 * pushes + 1
  {
    maze := new bool[width, height]((x, y) => false);
    maze[start.x, start.y] := true;

    var stack := [start];
    var drawn := 0;
    ghost var visited := {start};
    ghost var parent: map<Cell, Cell> := map[];
    ghost var rank: map<Cell, nat> := map[start := 0];
    ghost var nextRank: nat := 1;
    ghost var pops: nat := 0;
    iterations := 0;
    AllCellsSize(width, height);
    InAllCells(start, width, height);
    assert Carved(maze, start, visited, parent, rank, nextRank);
    SubsetSize(visited, AllCells(width, height));

    while |stack| > 0
      invariant maze.Length0 == width && maze.Length1 == height
      invariant Carved(maze, start, visited, parent, rank, nextRank)
      invariant forall i :: 0 <= i < |stack| ==> stack[i] in visited
      invariant drawn + 1 <= |visited| <= width * height
      invariant |stack| + pops == drawn + 1
      invariant iterations == drawn + pops
      decreases width * height - |visited|, |stack|
    {
      ghost var before := |stack|;
      stack, drawn, visited, parent, rank, nextRank :=
        BacktrackStep(maze, draws, stack, drawn, start, visited, parent, rank, nextRank);
      if |stack| < before {
        pops := pops + 1;
      }
      iterations := iterations + 1;
      SubsetSize(visited, AllCells(width, height));
    }

    pushes := drawn;
    FinishedMaze(maze, start, visited, parent, rank, nextRank);
  }

  lemma FinishedMaze(maze: array2<bool>, start: Cell, visited: set<Cell>,
                     parent: map<Cell, Cell>, rank: map<Cell, nat>, nextRank: nat)
    requires Carved(maze, start, visited, parent, rank, nextRank)
    ensures 0 <= start.x < maze.Length0 && 0 <= start.y < maze.Length1 && maze[start.x, start.y]
    ensures Connected(PathCells(maze), start)
  {
    InAllCells(start, maze.Length0, maze.Length1);
    MirroredCells(maze, visited);
    TreeIsConnected(visited, start, parent, rank);
  }
}
