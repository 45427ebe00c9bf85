/**
 * Cells, world positions and tile kinds shared by the level generator and the
 * rolling cube, and the mapping between grid cells and world coordinates.
 *
 * A world position keeps whole units: the cube rolls one unit at a time, and a
 * tile of the grid sits every `spacing` units, where `spacing` stands for the
 * prefab's scale plus the gap between tiles.
 */
module Grid {

  /** A grid cell (Unity's Vector2Int): `x` is the column, `y` the row along world z. */
  datatype Cell = Cell(x: int, y: int)

  /** A world position in whole units. */
  datatype Vec3 = Vec3(x: int, y: int, z: int)

  datatype Option<T> = None | Some(value: T)

  /**
   * What a tile does when the cube stands on it. A slippery tile carries the
   * direction of its slide as a grid vector.
   */
  datatype TileKind = Regular | Crumbling | Spike | Teleport | Slippery(dir: Cell)

  /** The goal must lie at Euclidean distance at least 16 from the player. */
  const MinGoalDistance: int := 16

  /** The tile a map holds at a cell, if any: the dictionary lookup that yields null for a missing key. */
  function Lookup(m: map<Cell, TileKind>, c: Cell): Option<TileKind>
  {
    if c in m then Some(m[c]) else None
  }

  predicate IsValidGridPosition(c: Cell, gridSize: int)
  {
    0 <= c.x < gridSize && 0 <= c.y < gridSize
  }

  /** The four axis directions, the only directions a slide may take. */
  predicate IsAxisUnit(d: Cell)
  {
    (d.x == 0 && (d.y == 1 || d.y == -1)) || (d.y == 0 && (d.x == 1 || d.x == -1))
  }

  /** Two cells that share an edge. */
  predicate Adjacent(a: Cell, b: Cell)
  {
    IsAxisUnit(Cell(b.x - a.x, b.y - a.y))
  }

  /** Squared Euclidean distance of two cells. */
  function DistanceSquared(a: Cell, b: Cell): (r: int)
    ensures r >= 0
  {
    (a.x - b.x) * (a.x - b.x) + (a.y - b.y) * (a.y - b.y)
  }

  /**
   * The comparison the goal search makes on whole cells: for `root`, the
   * non-negative square root of the squared distance (`Vector2Int.Distance`),
   * `root < 16` holds exactly when the squared distance is below 256.
   */
  lemma DistanceBelowMinimum(a: Cell, b: Cell, root: real)
    requires root >= 0.0 && root * root == DistanceSquared(a, b) as real
    ensures root < MinGoalDistance as real <==> DistanceSquared(a, b) < MinGoalDistance * MinGoalDistance
  {
    if root < 16.0 {
      assert root * root <= root * 16.0;
      assert root * 16.0 < 256.0;
    } else {
      assert root * root >= root * 16.0;
      assert root * 16.0 >= 256.0;
    }
  }

  function GridToWorld(c: Cell, spacing: int, gridY: int): Vec3
  {
    Vec3(c.x * spacing, gridY, c.y * spacing)
  }

  /**
   * Rounds each horizontal coordinate (the identity on whole units) and floors
   * its quotient by the spacing; for a positive divisor Dafny's `/` is that floor.
   */
  function WorldToGrid(p: Vec3, spacing: int): Cell
    requires spacing > 0
  {
    Cell(p.x / spacing, p.z / spacing)
  }

  /** World position moved `n` times along the grid vector `d` (world x from `d.x`, world z from `d.y`). */
  function Shift(p: Vec3, d: Cell, n: int): Vec3
  {
    Vec3(p.x + d.x * n, p.y, p.z + d.y * n)
  }

  lemma MulOutsideOpenInterval(k: int, s: int)
    requires s > 0
    ensures k >= 1 ==> k * s >= s
    ensures k <= -1 ==> k * s <= -s
  {
    if k >= 1 {
      assert k * s == s + (k - 1) * s;
    } else if k <= -1 {
      assert k * s == -s + (k + 1) * s;
    }
  }

  lemma MulDivCancel(a: int, s: int)
    requires s > 0
    ensures (a * s) / s == a
  {
    var q, r := (a * s) / s, (a * s) % s;
    assert (q - a) * s == -r by {
      assert a * s == q * s + r;
    }
    MulOutsideOpenInterval(q - a, s);
  }

  /** Going from a cell to the world and back gives the cell again, at the level's height. */
  lemma {:induction false} GridWorldRoundTrip(c: Cell, spacing: int, gridY: int)
    requires spacing > 0
    ensures WorldToGrid(GridToWorld(c, spacing, gridY), spacing) == c
    ensures GridToWorld(c, spacing, gridY).y == gridY
  {
    MulDivCancel(c.x, spacing);
    MulDivCancel(c.y, spacing);
  }

  /** The floor quotient names the span of width `s` that holds `x`. */
  lemma FloorDivSpan(x: int, s: int)
    requires s > 0
    ensures s * (x / s) <= x < s * (x / s + 1)
  {
    assert x == s * (x / s) + x % s;
  }

  /** A whole coordinate whose cell index is below `g` lies below `g * s`. */
  lemma FloorDivBelow(x: int, s: int, g: int)
    requires s > 0 && x / s < g
    ensures x < s * g
  {
    assert x == s * (x / s) + x % s;
    assert s * (x / s) <= s * (g - 1);
  }

  /** A coordinate's cell index lies in `[0, g)` exactly when the coordinate lies in `[0, s * g)`. */
  lemma FloorDivInRange(x: int, s: int, g: int)
    requires s > 0
    ensures 0 <= x / s < g <==> 0 <= x < s * g
  {
    var q := x / s;
    FloorDivSpan(x, s);
    if q < 0 {
      MulOutsideOpenInterval(q + 1, s);
      assert s * (q + 1) <= 0;
    } else if q >= g {
      MulOutsideOpenInterval(q - g, s);
      assert s * q >= s * g;
    } else {
      MulOutsideOpenInterval(g - q, s);
      assert s * (q + 1) <= s * g;
    }
  }

  /**
   * A world position maps to a valid cell of a `gridSize` grid exactly when
   * both horizontal coordinates lie in `[0, gridSize * spacing)`.
   */
  lemma GridBounds(p: Vec3, spacing: int, gridSize: int)
    requires spacing > 0
    ensures IsValidGridPosition(WorldToGrid(p, spacing), gridSize) <==>
            0 <= p.x < spacing * gridSize && 0 <= p.z < spacing * gridSize
  {
    FloorDivInRange(p.x, spacing, gridSize);
    FloorDivInRange(p.z, spacing, gridSize);
  }

  /** A whole coordinate whose cell index is not negative is not negative. */
  lemma FloorDivNonNegative(x: int, s: int)
    requires s > 0 && x / s >= 0
    ensures x >= 0
  {
    assert x == s * (x / s) + x % s;
  }
}
