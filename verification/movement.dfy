/**
 * The rolling cube: keyboard input starts a roll of one unit, and after the
 * roll the tile under the cube takes effect (crumble, spike, teleport, slide)
 * in a fixed order; reaching the goal square raises the cube and builds the
 * next level.
 *
 * Coroutine time is discrete: `Update` is one frame of input, `RotateStep`
 * one resumption of the roll, `ResumeSlide` one pending slide and
 * `FinishCrumble` the end of one crumble's delayed reset. Random teleport
 * targets come from the `teleportDraws` field, whether a spike is up from
 * the `armed` argument, and a scene reload is recorded as an event.
 */
module Movement {
  import opened Grid
  import opened Ground

  datatype Dir = Left | Right | Forward | Back

  /** The unit step of a roll as a grid vector: world x, then world z. */
  function RollDelta(d: Dir): (v: Cell)
    ensures IsAxisUnit(v)
    ensures v.x == 0 <==> d == Forward || d == Back
  {
    match d
    case Left => Cell(-1, 0)
    case Right => Cell(1, 0)
    case Forward => Cell(0, 1)
    case Back => Cell(0, -1)
  }

  /** The keys held in one frame: Q, D, Z and S (an AZERTY layout), then the four arrows. */
  datatype Keys = Keys(q: bool, d: bool, z: bool, s: bool,
                       leftArrow: bool, rightArrow: bool, upArrow: bool, downArrow: bool)

  /** The letter keys, tested in the order Q, D, Z, S; the first one held wins. */
  function LetterDirection(k: Keys): (r: Option<Dir>)
    ensures r.None? <==> !(k.q || k.d || k.z || k.s)
    ensures r == Some(Left) <==> k.q
    ensures r == Some(Right) <==> k.d && !k.q
    ensures r == Some(Forward) <==> k.z && !(k.q || k.d)
    ensures r == Some(Back) <==> k.s && !(k.q || k.d || k.z)
  {
    if k.q then Some(Left)
    else if k.d then Some(Right)
    else if k.z then Some(Forward)
    else if k.s then Some(Back)
    else None
  }

  /** The arrow keys, tested in the order left, right, up, down. */
  function ArrowDirection(k: Keys): (r: Option<Dir>)
    ensures r.None? <==> !(k.leftArrow || k.rightArrow || k.upArrow || k.downArrow)
    ensures r == Some(Left) <==> k.leftArrow
    ensures r == Some(Right) <==> k.rightArrow && !k.leftArrow
    ensures r == Some(Forward) <==> k.upArrow && !(k.leftArrow || k.rightArrow)
    ensures r == Some(Back) <==> k.downArrow && !(k.leftArrow || k.rightArrow || k.upArrow)
  {
    if k.leftArrow then Some(Left)
    else if k.rightArrow then Some(Right)
    else if k.upArrow then Some(Forward)
    else if k.downArrow then Some(Back)
    else None
  }

  /** Rotation steps of 5 degrees in a quarter turn: `90 / rollSpeed` with `rollSpeed` 5. */
  const RollSteps: nat := 18

  /** What the cube sets off, in the order it happens. */
  datatype Event =
    | CrumbleTriggered(cell: Cell)
    | SceneReloaded
    | Teleported(cell: Cell)
    | TeleportDrawsExhausted
    | SlideStarted(dir: Cell)
    | LevelAdvanced(level: int)

  /** Every teleport target lies inside the grid (`Random.Range(0, gridSize)` on each axis). */
  predicate DrawsInGrid(draws: seq<Cell>, gridSize: int)
  {
    forall i :: 0 <= i < |draws| ==> IsValidGridPosition(draws[i], gridSize)
  }

  /** The tile under a world position. */
  function TileUnder(m: map<Cell, TileKind>, spacing: int, p: Vec3): Option<TileKind>
    requires spacing > 0
  {
    Lookup(m, WorldToGrid(p, spacing))
  }

  /** The effect of the crumble check: a crumbling tile starts its delayed reset. */
  function CrumbleCheck(m: map<Cell, TileKind>, spacing: int, p: Vec3): seq<Event>
    requires spacing > 0
  {
    if TileUnder(m, spacing, p) == Some(Crumbling) then [CrumbleTriggered(WorldToGrid(p, spacing))] else []
  }

  /** The effect of the spike check: a spike that is up reloads the scene. */
  function SpikeCheck(m: map<Cell, TileKind>, spacing: int, armed: set<Cell>, p: Vec3): seq<Event>
    requires spacing > 0
  {
    if TileUnder(m, spacing, p) == Some(Spike) && WorldToGrid(p, spacing) in armed then [SceneReloaded] else []
  }

  /** The direction of the slide the slippery check starts, if any. */
  function SlideDirectionAt(m: map<Cell, TileKind>, spacing: int, p: Vec3): Option<Cell>
    requires spacing > 0
  {
    match TileUnder(m, spacing, p)
    case Some(Slippery(d)) => Some(d)
    case _ => None
  }

  function SlideLog(slide: Option<Cell>): seq<Event>
  {
    if slide.Some? then [SlideStarted(slide.value)] else []
  }

  /**
   * The outcome of a run of checks: the events, where the cube ends up, the
   * teleport draws left, how many crumbles started and the last slide started.
   */
  datatype Outcome = Outcome(log: seq<Event>, end: Vec3, rest: seq<Cell>, crumbles: nat, slide: Option<Cell>)

  /**
   * The four checks in their fixed order at `p`: crumble, spike, teleport,
   * slippery. A teleport moves the cube and runs all four again at its
   * landing cell before the slippery check of this round, which then looks
   * at the landing cell too.
   */
  function Checks(m: map<Cell, TileKind>, spacing: int, armed: set<Cell>, p: Vec3, draws: seq<Cell>): Outcome
    requires spacing > 0
    decreases |draws|, 1
  {
    var crumble := CrumbleCheck(m, spacing, p);
    var spike := SpikeCheck(m, spacing, armed, p);
    var teleport := TeleportCheck(m, spacing, armed, p, draws);
    var slide := SlideDirectionAt(m, spacing, teleport.end);
    Outcome(crumble + spike + teleport.log + SlideLog(slide), teleport.end, teleport.rest,
            |crumble| + teleport.crumbles, if slide.Some? then slide else teleport.slide)
  }

  /**
   * The teleport check: on a teleport tile, land on the next drawn cell at
   * the cube's own height and run the four checks there.
   */
  function TeleportCheck(m: map<Cell, TileKind>, spacing: int, armed: set<Cell>, p: Vec3, draws: seq<Cell>): Outcome
    requires spacing > 0
    decreases |draws|, 0
  {
    if TileUnder(m, spacing, p) != Some(Teleport) then Outcome([], p, draws, 0, None)
    else if |draws| == 0 then Outcome([TeleportDrawsExhausted], p, draws, 0, None)
    else
      var landing := GridToWorld(draws[0], spacing, p.y);
      var inner := Checks(m, spacing, armed, landing, draws[1..]);
      Outcome([Teleported(draws[0])] + inner.log, inner.end, inner.rest, inner.crumbles, inner.slide)
  }

  /** On a cell with no tile or a regular tile, none of the four checks does anything. */
  lemma ChecksOnPlainTile(m: map<Cell, TileKind>, spacing: int, armed: set<Cell>, p: Vec3, draws: seq<Cell>)
    requires spacing > 0 && TileUnder(m, spacing, p) in {None, Some(Regular)}
    ensures Checks(m, spacing, armed, p, draws) == Outcome([], p, draws, 0, None)
  {
  }

  /** A run of checks uses up a prefix of the teleport draws and leaves the rest. */
  lemma {:induction false} ChecksSuffix(m: map<Cell, TileKind>, spacing: int, armed: set<Cell>, p: Vec3, draws: seq<Cell>)
    requires spacing > 0
    ensures var r := Checks(m, spacing, armed, p, draws);
      |r.rest| <= |draws| && r.rest == draws[|draws| - |r.rest|..]
    decreases |draws|
  {
    if TileUnder(m, spacing, p) == Some(Teleport) && |draws| > 0 {
      var landing := GridToWorld(draws[0], spacing, p.y);
      ChecksSuffix(m, spacing, armed, landing, draws[1..]);
      var inner := Checks(m, spacing, armed, landing, draws[1..]);
      assert draws[1..][|draws[1..]| - |inner.rest|..] == draws[|draws| - |inner.rest|..];
    } else {
      assert TeleportCheck(m, spacing, armed, p, draws).rest == draws;
    }
  }

  /**
   * A run of checks ends at its starting height, and either where it started
   * or, after a teleport from the starting tile, on a drawn cell inside the grid.
   */
  lemma {:induction false} ChecksLanding(m: map<Cell, TileKind>, spacing: int, gridSize: int,
                                         armed: set<Cell>, p: Vec3, draws: seq<Cell>)
    requires spacing > 0 && DrawsInGrid(draws, gridSize)
    ensures var r := Checks(m, spacing, armed, p, draws);
      && r.end.y == p.y
      && (r.end == p || (TileUnder(m, spacing, p) == Some(Teleport) &&
                         IsValidGridPosition(WorldToGrid(r.end, spacing), gridSize)))
    decreases |draws|
  {
    if TileUnder(m, spacing, p) == Some(Teleport) && |draws| > 0 {
      var landing := GridToWorld(draws[0], spacing, p.y);
      assert DrawsInGrid(draws[1..], gridSize);
      ChecksLanding(m, spacing, gridSize, armed, landing, draws[1..]);
      var inner := Checks(m, spacing, armed, landing, draws[1..]);
      if inner.end == landing {
        GridWorldRoundTrip(draws[0], spacing, p.y);
      }
    } else {
      assert TeleportCheck(m, spacing, armed, p, draws).end == p;
    }
  }

  /**
   * A run of checks over a map whose slippery tiles slide along axes keeps
   * the teleport draws left inside the grid, and any slide it starts runs
   * along an axis.
   */
  lemma ChecksKeepValid(m: map<Cell, TileKind>, spacing: int, gridSize: int,
                        armed: set<Cell>, p: Vec3, draws: seq<Cell>)
    requires spacing > 0 && DrawsInGrid(draws, gridSize)
    requires forall c :: c in m && m[c].Slippery? ==> IsAxisUnit(m[c].dir)
    ensures var r := Checks(m, spacing, armed, p, draws);
      DrawsInGrid(r.rest, gridSize) && (r.slide.Some? ==> IsAxisUnit(r.slide.value))
  {
    var r := Checks(m, spacing, armed, p, draws);
    assert DrawsInGrid(r.rest, gridSize) by {
      ChecksSuffix(m, spacing, armed, p, draws);
      forall i | 0 <= i < |r.rest|
        ensures IsValidGridPosition(r.rest[i], gridSize)
      {
        assert r.rest[i] == draws[|draws| - |r.rest| + i];
      }
    }
    assert r.slide == SlideDirectionAt(m, spacing, r.end) by {
      ChecksSettle(m, spacing, armed, p, draws);
    }
  }

  /**
   * Only the tile where a run of checks ends has an effect: teleports happen
   * only from teleport tiles, which none of the other checks act on. So the
   * scene reloads exactly when the cube ends on a spike that is up, a crumble
   * starts exactly when it ends on a crumbling tile, and every slide started
   * follows the slippery tile it ends on.
   */
  lemma {:induction false} ChecksSettle(m: map<Cell, TileKind>, spacing: int, armed: set<Cell>, p: Vec3, draws: seq<Cell>)
    requires spacing > 0
    ensures var r := Checks(m, spacing, armed, p, draws);
      var tile := TileUnder(m, spacing, r.end);
      && (SceneReloaded in r.log <==> tile == Some(Spike) && WorldToGrid(r.end, spacing) in armed)
      && r.crumbles == (if tile == Some(Crumbling) then 1 else 0)
      && (tile == Some(Crumbling) <==> CrumbleTriggered(WorldToGrid(r.end, spacing)) in r.log)
      && r.slide == SlideDirectionAt(m, spacing, r.end)
      && (forall e :: e in r.log && e.SlideStarted? ==> tile == Some(Slippery(e.dir)))
    decreases |draws|
  {
    if TileUnder(m, spacing, p) == Some(Teleport) && |draws| > 0 {
      var landing := GridToWorld(draws[0], spacing, p.y);
      ChecksSettle(m, spacing, armed, landing, draws[1..]);
    }
  }

  lemma AppendFour<T>(w: seq<T>, a: seq<T>, b: seq<T>, c: seq<T>, d: seq<T>)
    ensures w + a + b + c + d == w + (a + b + c + d)
  {
  }

  /** Position along a grid direction: the dot product of world (x, z) with it. */
  function Along(p: Vec3, d: Cell): int
  {
    p.x * d.x + p.z * d.y
  }

  lemma AlongShift(p: Vec3, d: Cell, n: int)
    requires IsAxisUnit(d)
    ensures Along(Shift(p, d, n), d) == Along(p, d) + n
  {
  }

  lemma ShiftTwice(p: Vec3, d: Cell, a: int, b: int)
    requires IsAxisUnit(d)
    ensures Shift(Shift(p, d, a), d, b) == Shift(p, d, a + b)
  {
  }

  /** A position over the grid is less than `spacing * gridSize` along any axis direction. */
  lemma AlongBound(p: Vec3, d: Cell, spacing: int, gridSize: int)
    requires spacing > 0 && IsAxisUnit(d) && IsValidGridPosition(WorldToGrid(p, spacing), gridSize)
    ensures Along(p, d) < spacing * gridSize
  {
    FloorDivBelow(p.x, spacing, gridSize);
    FloorDivBelow(p.z, spacing, gridSize);
    FloorDivNonNegative(p.x, spacing);
    FloorDivNonNegative(p.z, spacing);
    MulOutsideOpenInterval(gridSize, spacing);
  }

  predicate KeysInGrid(m: map<Cell, TileKind>, gridSize: int)
  {
    forall c :: c in m ==> IsValidGridPosition(c, gridSize)
  }

  /** How many unit steps from `p` in a row land on slippery tiles that slide along `d`. */
  function SlideRun(m: map<Cell, TileKind>, spacing: int, gridSize: int, p: Vec3, d: Cell): nat
    requires spacing > 0 && KeysInGrid(m, gridSize) && IsAxisUnit(d)
    decreases spacing * gridSize - Along(p, d)
  {
    var next := Shift(p, d, 1);
    if TileUnder(m, spacing, next) == Some(Slippery(d)) then
      AlongBound(next, d, spacing, gridSize);
      AlongShift(p, d, 1);
      1 + SlideRun(m, spacing, gridSize, next, d)
    else 0
  }

  /**
   * The steps `1..k` from `p` are slippery tiles sliding along `d` and step
   * `k + 1` is not, for `k` the run length: a slide from `p` ends `k + 1`
   * steps away.
   */
  lemma {:induction false} SlideRunBounds(m: map<Cell, TileKind>, spacing: int, gridSize: int, p: Vec3, d: Cell)
    requires spacing > 0 && KeysInGrid(m, gridSize) && IsAxisUnit(d)
    ensures var k := SlideRun(m, spacing, gridSize, p, d);
      && (forall i :: 1 <= i <= k ==> TileUnder(m, spacing, Shift(p, d, i)) == Some(Slippery(d)))
      && TileUnder(m, spacing, Shift(p, d, k + 1)) != Some(Slippery(d))
    decreases spacing * gridSize - Along(p, d)
  {
    var next := Shift(p, d, 1);
    if TileUnder(m, spacing, next) == Some(Slippery(d)) {
      AlongBound(next, d, spacing, gridSize);
      AlongShift(p, d, 1);
      SlideRunBounds(m, spacing, gridSize, next, d);
      var k := SlideRun(m, spacing, gridSize, p, d);
      forall i | 1 <= i <= k
        ensures TileUnder(m, spacing, Shift(p, d, i)) == Some(Slippery(d))
      {
        if i > 1 {
          ShiftTwice(p, d, 1, i - 1);
        }
      }
      ShiftTwice(p, d, 1, k);
    }
  }

  class CubeMovement {
    const ground: GroundGenerator
    var position: Vec3
    var initialPosition: Vec3
    var isMoving: bool
    var rollDir: Dir
    /** Rotation steps done in the current roll; zero when not rolling. */
    var rollStep: nat
    /** The direction of a slide that has been started and not yet run. */
    var pendingSlide: Option<Cell>
    /** Crumbles triggered whose delayed reset is still to come. */
    var pendingResets: nat
    var teleportDraws: seq<Cell>
    var events: seq<Event>

    ghost predicate Valid()
      reads this, ground
    {
      && ground.Valid()
      && ground.currentLevel >= 1
      && DrawsInGrid(teleportDraws, ground.gridSize)
      && (isMoving ==> 1 <= rollStep <= RollSteps)
      && (!isMoving ==> rollStep == 0)
      && (pendingSlide.Some? ==> IsAxisUnit(pendingSlide.value))
    }

    /** The roll in progress and the respawn point, which the tile checks leave alone. */
    function Motion(): (bool, Dir, nat, Vec3)
      reads this
    {
      (isMoving, rollDir, rollStep, initialPosition)
    }

    /** Start: the respawn point is where the cube begins. */
    constructor (ground: GroundGenerator, position: Vec3, teleportDraws: seq<Cell>)
      requires ground.Valid() && ground.currentLevel >= 1 && DrawsInGrid(teleportDraws, ground.gridSize)
      ensures Valid()
      ensures this.ground == ground && this.position == position && initialPosition == position
      ensures !isMoving && pendingSlide.None? && pendingResets == 0 && events == []
      ensures this.teleportDraws == teleportDraws
    {
      this.ground := ground;
      this.position := position;
      initialPosition := position;
      isMoving := false;
      rollDir := Forward;
      rollStep := 0;
      pendingSlide := None;
      pendingResets := 0;
      this.teleportDraws := teleportDraws;
      events := [];
    }

    /**
     * One frame of input: nothing while a roll is under way; otherwise the
     * first letter key held starts a roll, or failing that the first arrow
     * key held.
     */
    method Update(keys: Keys)
      requires Valid()
      modifies this
      ensures Valid()
      ensures old(isMoving) ==> Motion() == old(Motion())
      ensures var choice := if LetterDirection(keys).Some? then LetterDirection(keys) else ArrowDirection(keys);
        !old(isMoving) ==> (isMoving <==> choice.Some?) && (choice.Some? ==> rollDir == choice.value && rollStep == 1)
      ensures initialPosition == old(initialPosition)
      ensures position == old(position) && events == old(events) && teleportDraws == old(teleportDraws)
      ensures pendingSlide == old(pendingSlide) && pendingResets == old(pendingResets)
    {
      if isMoving {
        return;
      }
      var letter := LetterDirection(keys);
      if letter.Some? {
        Roll(letter.value);
      }
      var arrow := ArrowDirection(keys);
      if arrow.Some? {
        Roll(arrow.value);
      }
    }

    /** Starts a roll unless one is under way; the first rotation step happens at once. */
    method Roll(d: Dir)
      requires Valid()
      modifies this
      ensures Valid()
      ensures old(isMoving) ==> Motion() == old(Motion())
      ensures !old(isMoving) ==> isMoving && rollDir == d && rollStep == 1
      ensures initialPosition == old(initialPosition)
      ensures position == old(position) && events == old(events) && teleportDraws == old(teleportDraws)
      ensures pendingSlide == old(pendingSlide) && pendingResets == old(pendingResets)
    {
      if isMoving {
        return;
      }
      isMoving := true;
      rollDir := d;
      rollStep := 1;
    }

    method CheckCrumblingTile()
      requires ground.spacing > 0
      modifies this
      ensures var crumble := CrumbleCheck(ground.squareMap, ground.spacing, position);
        events == old(events) + crumble && pendingResets == old(pendingResets) + |crumble|
      ensures position == old(position) && teleportDraws == old(teleportDraws)
      ensures pendingSlide == old(pendingSlide) && Motion() == old(Motion())
    {
      var currentGridPosition := ground.WorldToGridPosition(position);
      var square := ground.GetSquareAtPosition(currentGridPosition);
      if square == Some(Crumbling) {
        events := events + [CrumbleTriggered(currentGridPosition)];
        pendingResets := pendingResets + 1;
      }
    }

    method CheckSpikeSquare(armed: set<Cell>)
      requires ground.spacing > 0
      modifies this
      ensures events == old(events) + SpikeCheck(ground.squareMap, ground.spacing, armed, position)
      ensures position == old(position) && teleportDraws == old(teleportDraws)
      ensures pendingSlide == old(pendingSlide) && pendingResets == old(pendingResets)
      ensures Motion() == old(Motion())
    {
      var currentGridPosition := ground.WorldToGridPosition(position);
      var square := ground.GetSquareAtPosition(currentGridPosition);
      if square == Some(Spike) && currentGridPosition in armed {
        events := events + [SceneReloaded];
      }
    }

    method CheckSlipperyTile()
      requires ground.spacing > 0
      modifies this
      ensures var slide := SlideDirectionAt(ground.squareMap, ground.spacing, position);
        events == old(events) + SlideLog(slide) && pendingSlide == if slide.Some? then slide else old(pendingSlide)
      ensures position == old(position) && teleportDraws == old(teleportDraws)
      ensures pendingResets == old(pendingResets) && Motion() == old(Motion())
    {
      var currentGridPosition := ground.WorldToGridPosition(position);
      var square := ground.GetSquareAtPosition(currentGridPosition);
      if square.Some? && square.value.Slippery? {
        events := events + [SlideStarted(square.value.dir)];
        pendingSlide := Some(square.value.dir);
      }
    }

    /** The four checks in their order, as after a roll, a teleport and a glide. */
    method CheckTiles(armed: set<Cell>)
      requires ground.spacing > 0
      modifies this
      ensures var r := Checks(ground.squareMap, ground.spacing, armed, old(position), old(teleportDraws));
        && position == r.end && teleportDraws == r.rest && events == old(events) + r.log
        && pendingResets == old(pendingResets) + r.crumbles
        && pendingSlide == if r.slide.Some? then r.slide else old(pendingSlide)
      ensures Motion() == old(Motion())
      decreases |teleportDraws|, 2
    {
      ghost var m, spacing, start, before := ground.squareMap, ground.spacing, position, events;
      CheckCrumblingTile();
      CheckSpikeSquare(armed);
      CheckTeleportTile(armed);
      CheckSlipperyTile();
      ghost var teleport := TeleportCheck(m, spacing, armed, start, old(teleportDraws));
      AppendFour(before, CrumbleCheck(m, spacing, start), SpikeCheck(m, spacing, armed, start),
                 teleport.log, SlideLog(SlideDirectionAt(m, spacing, teleport.end)));
    }

    method CheckTeleportTile(armed: set<Cell>)
      requires ground.spacing > 0
      modifies this
      ensures var r := TeleportCheck(ground.squareMap, ground.spacing, armed, old(position), old(teleportDraws));
        && position == r.end && teleportDraws == r.rest && events == old(events) + r.log
        && pendingResets == old(pendingResets) + r.crumbles
        && pendingSlide == if r.slide.Some? then r.slide else old(pendingSlide)
      ensures Motion() == old(Motion())
      decreases |teleportDraws|, 1
    {
      var currentGridPosition := ground.WorldToGridPosition(position);
      var square := ground.GetSquareAtPosition(currentGridPosition);
      if square == Some(Teleport) {
        TeleportToRandomPosition(armed);
      }
    }

    /**
     * Moves to the next drawn cell, keeping the height, and runs the four
     * checks there; with no draw left the chain stops.
     */
    method TeleportToRandomPosition(armed: set<Cell>)
      requires ground.spacing > 0
      modifies this
      ensures old(teleportDraws) == [] ==>
        && events == old(events) + [TeleportDrawsExhausted] && position == old(position)
        && teleportDraws == [] && pendingResets == old(pendingResets) && pendingSlide == old(pendingSlide)
      ensures old(teleportDraws) != [] ==>
        var r := Checks(ground.squareMap, ground.spacing, armed,
                        GridToWorld(old(teleportDraws)[0], ground.spacing, old(position).y), old(teleportDraws)[1..]);
        && position == r.end && teleportDraws == r.rest
        && events == old(events) + [Teleported(old(teleportDraws)[0])] + r.log
        && pendingResets == old(pendingResets) + r.crumbles
        && pendingSlide == if r.slide.Some? then r.slide else old(pendingSlide)
      ensures Motion() == old(Motion())
      decreases |teleportDraws|, 0
    {
      if teleportDraws == [] {
        events := events + [TeleportDrawsExhausted];
        return;
      }
      var randomGridPosition := teleportDraws[0];
      teleportDraws := teleportDraws[1..];
      var newPosition := ground.GridToWorldPosition(randomGridPosition);
      newPosition := newPosition.(y := position.y);
      position := newPosition;
      events := events + [Teleported(randomGridPosition)];
      CheckTiles(armed);
    }

    /** The end of a glide: the cube stands on its target. */
    method Glide(targetPosition: Vec3)
      modifies this
      ensures position == targetPosition
      ensures events == old(events) && teleportDraws == old(teleportDraws)
      ensures pendingSlide == old(pendingSlide) && pendingResets == old(pendingResets)
      ensures Motion() == old(Motion())
    {
      position := targetPosition;
    }

    /**
     * Glides one unit at a time along `slideDirection` while the next unit
     * lies on a slippery tile sliding the same way, then one unit more.
     */
    method SlideOnSlipperyTiles(slideDirection: Cell)
      requires ground.spacing > 0 && KeysInGrid(ground.squareMap, ground.gridSize) && IsAxisUnit(slideDirection)
      modifies this
      ensures position == Shift(old(position), slideDirection,
                                SlideRun(ground.squareMap, ground.spacing, ground.gridSize, old(position), slideDirection) + 1)
      ensures events == old(events) && teleportDraws == old(teleportDraws)
      ensures pendingSlide == old(pendingSlide) && pendingResets == old(pendingResets)
      ensures Motion() == old(Motion())
    {
      ghost var m, spacing, gridSize := ground.squareMap, ground.spacing, ground.gridSize;
      ghost var steps := 0;
      while true
        invariant position == Shift(old(position), slideDirection, steps)
        invariant SlideRun(m, spacing, gridSize, old(position), slideDirection) ==
                  steps + SlideRun(m, spacing, gridSize, position, slideDirection)
        invariant events == old(events) && teleportDraws == old(teleportDraws)
        invariant pendingSlide == old(pendingSlide) && pendingResets == old(pendingResets)
        invariant Motion() == old(Motion())
        decreases spacing * gridSize - Along(position, slideDirection)
      {
        var nextPosition := Shift(position, slideDirection, 1);
        var nextGridPosition := ground.WorldToGridPosition(nextPosition);
        var nextSquare := ground.GetSquareAtPosition(nextGridPosition);
        if nextSquare == Some(Slippery(slideDirection)) {
          AlongBound(nextPosition, slideDirection, spacing, gridSize);
          AlongShift(position, slideDirection, 1);
          ShiftTwice(old(position), slideDirection, steps, 1);
          Glide(nextPosition);
          steps := steps + 1;
        } else {
          ShiftTwice(old(position), slideDirection, steps, 1);
          Glide(Shift(position, slideDirection, 1));
          break;
        }
      }
    }

    /**
     * Runs the slide last started, then the checks of its final glide where
     * it stops.
     */
    method ResumeSlide(armed: set<Cell>)
      requires Valid() && pendingSlide.Some?
      modifies this
      ensures Valid()
      ensures var d := old(pendingSlide).value;
        var m := ground.squareMap;
        var stop := Shift(old(position), d, SlideRun(m, ground.spacing, ground.gridSize, old(position), d) + 1);
        var r := Checks(m, ground.spacing, armed, stop, old(teleportDraws));
        && position == r.end && teleportDraws == r.rest && events == old(events) + r.log
        && pendingResets == old(pendingResets) + r.crumbles && pendingSlide == r.slide
      ensures Motion() == old(Motion())
    {
      var slideDirection := pendingSlide.value;
      pendingSlide := None;
      SlideOnSlipperyTiles(slideDirection);
      ghost var stop := position;
      CheckTiles(armed);
      ChecksKeepValid(ground.squareMap, ground.spacing, ground.gridSize, armed, stop, old(teleportDraws));
    }

    /** The cube returns to its respawn point. */
    method ResetPlayerPosition()
      modifies this
      ensures position == initialPosition
      ensures events == old(events) && teleportDraws == old(teleportDraws)
      ensures pendingSlide == old(pendingSlide) && pendingResets == old(pendingResets)
      ensures Motion() == old(Motion())
    {
      position := initialPosition;
    }

    /** The end of a crumble: after its delays and its short rise, the cube is back at its respawn point. */
    method FinishCrumble()
      requires Valid() && pendingResets > 0
      modifies this
      ensures Valid()
      ensures position == initialPosition && pendingResets == old(pendingResets) - 1
      ensures events == old(events) && teleportDraws == old(teleportDraws)
      ensures pendingSlide == old(pendingSlide) && Motion() == old(Motion())
    {
      ResetPlayerPosition();
      pendingResets := pendingResets - 1;
    }

    /** The end of the level-up rise: one unit higher, and that is the new respawn point. */
    method MoveUpSmoothly()
      modifies this
      ensures position == old(position).(y := old(position).y + 1) && initialPosition == position
      ensures events == old(events) && teleportDraws == old(teleportDraws)
      ensures pendingSlide == old(pendingSlide) && pendingResets == old(pendingResets)
      ensures isMoving == old(isMoving) && rollDir == old(rollDir) && rollStep == old(rollStep)
    {
      position := position.(y := position.y + 1);
      initialPosition := position;
    }

    /**
     * The goal was reached: the cube rises one unit, the grid height and the
     * level go up by one, and the next level grows from the goal cell.
     */
    method AdvanceLevel(next: LevelDraws)
      requires Valid() && DrawsFit(next, ground.gridSize)
      modifies this, ground
      ensures Valid()
      ensures position == old(position).(y := old(position).y + 1) && initialPosition == position
      ensures ground.gridYPosition == old(ground.gridYPosition) + 1
      ensures ground.currentLevel == old(ground.currentLevel) + 1
      ensures events == old(events) + [LevelAdvanced(ground.currentLevel)]
      ensures ground.BuiltLevel() && ground.levelStart == old(ground.winningSquarePosition)
      ensures Lookup(ground.squareMap, old(ground.winningSquarePosition)) in {Some(Regular), Some(Spike)}
      ensures var goal := ChooseGoal(ground.squareMap, WorldToGrid(position, ground.spacing), next.goal);
        ground.winningSquarePosition == if goal.Some? then goal.value else old(ground.winningSquarePosition)
      ensures teleportDraws == old(teleportDraws) && pendingSlide == old(pendingSlide)
      ensures pendingResets == old(pendingResets)
      ensures isMoving == old(isMoving) && rollDir == old(rollDir) && rollStep == old(rollStep)
    {
      MoveUpSmoothly();
      ground.gridYPosition := ground.gridYPosition + 1;
      ground.SetCurrentLevel(ground.currentLevel + 1);
      var found := ground.GenerateMaze(position, next);
      events := events + [LevelAdvanced(ground.currentLevel)];
    }

    /**
     * The end of a roll: the cube stands one unit further on and is free to
     * move again, the four checks run, and if it then stands on the goal
     * square the next level begins.
     */
    method FinishRoll(armed: set<Cell>, next: LevelDraws)
      requires Valid() && isMoving && DrawsFit(next, ground.gridSize)
      modifies this, ground
      ensures Valid() && !isMoving
      ensures var landing := Shift(old(position), RollDelta(old(rollDir)), 1);
        var r := Checks(old(ground.squareMap), ground.spacing, armed, landing, old(teleportDraws));
        var won := WorldToGrid(r.end, ground.spacing) == old(ground.winningSquarePosition);
        && position == (if won then r.end.(y := r.end.y + 1) else r.end)
        && initialPosition == (if won then position else old(initialPosition))
        && events == old(events) + r.log + (if won then [LevelAdvanced(ground.currentLevel)] else [])
        && ground.gridYPosition == old(ground.gridYPosition) + (if won then 1 else 0)
        && ground.currentLevel == old(ground.currentLevel) + (if won then 1 else 0)
        && (won ==> ground.BuiltLevel() && ground.levelStart == old(ground.winningSquarePosition))
        && (won ==> Lookup(ground.squareMap, old(ground.winningSquarePosition)) in {Some(Regular), Some(Spike)})
        && (won ==> var goal := ChooseGoal(ground.squareMap, WorldToGrid(position, ground.spacing), next.goal);
                    ground.winningSquarePosition == if goal.Some? then goal.value else old(ground.winningSquarePosition))
        && (!won ==> unchanged(ground))
        && teleportDraws == r.rest && pendingResets == old(pendingResets) + r.crumbles
        && pendingSlide == if r.slide.Some? then r.slide else old(pendingSlide)
    {
      Land(armed);
      if ground.WorldToGridPosition(position) == ground.winningSquarePosition {
        AdvanceLevel(next);
      } else {
        assert unchanged(ground);
      }
    }

    /** The roll is over: the cube stands one unit further on, free to move, and the four checks run. */
    method Land(armed: set<Cell>)
      requires Valid() && isMoving
      modifies this
      ensures Valid() && !isMoving
      ensures var landing := Shift(old(position), RollDelta(old(rollDir)), 1);
        var r := Checks(old(ground.squareMap), ground.spacing, armed, landing, old(teleportDraws));
        && position == r.end && teleportDraws == r.rest && events == old(events) + r.log
        && pendingResets == old(pendingResets) + r.crumbles
        && pendingSlide == (if r.slide.Some? then r.slide else old(pendingSlide))
      ensures initialPosition == old(initialPosition) && unchanged(ground)
    {
      isMoving := false;
      rollStep := 0;
      var landing := Shift(position, RollDelta(rollDir), 1);
      position := landing;
      CheckTiles(armed);
      ChecksKeepValid(ground.squareMap, ground.spacing, ground.gridSize, armed, landing, old(teleportDraws));
    }

    /**
     * One resumption of a roll: a further rotation step, or after the last
     * one the end of the roll.
     */
    method RotateStep(armed: set<Cell>, next: LevelDraws)
      requires Valid() && isMoving && DrawsFit(next, ground.gridSize)
      modifies this, ground
      ensures Valid()
      ensures old(rollStep) < RollSteps ==>
        && isMoving && rollStep == old(rollStep) + 1 && rollDir == old(rollDir)
        && position == old(position) && initialPosition == old(initialPosition)
        && events == old(events) && teleportDraws == old(teleportDraws)
        && pendingSlide == old(pendingSlide) && pendingResets == old(pendingResets)
        && unchanged(ground)
      ensures old(rollStep) == RollSteps ==>
        var landing := Shift(old(position), RollDelta(old(rollDir)), 1);
        var r := Checks(old(ground.squareMap), ground.spacing, armed, landing, old(teleportDraws));
        var won := WorldToGrid(r.end, ground.spacing) == old(ground.winningSquarePosition);
        && !isMoving
        && position == (if won then r.end.(y := r.end.y + 1) else r.end)
        && initialPosition == (if won then position else old(initialPosition))
        && events == old(events) + r.log + (if won then [LevelAdvanced(ground.currentLevel)] else [])
        && ground.gridYPosition == old(ground.gridYPosition) + (if won then 1 else 0)
        && ground.currentLevel == old(ground.currentLevel) + (if won then 1 else 0)
        && (won ==> ground.BuiltLevel() && ground.levelStart == old(ground.winningSquarePosition))
        && (won ==> Lookup(ground.squareMap, old(ground.winningSquarePosition)) in {Some(Regular), Some(Spike)})
        && (won ==> var goal := ChooseGoal(ground.squareMap, WorldToGrid(position, ground.spacing), next.goal);
                    ground.winningSquarePosition == if goal.Some? then goal.value else old(ground.winningSquarePosition))
        && (!won ==> unchanged(ground))
        && teleportDraws == r.rest && pendingResets == old(pendingResets) + r.crumbles
        && pendingSlide == if r.slide.Some? then r.slide else old(pendingSlide)
    {
      if rollStep < RollSteps {
        rollStep := rollStep + 1;
        return;
      }
      FinishRoll(armed, next);
    }
  }
}
