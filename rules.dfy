/** The rules of backend/src/Game.cpp on values: the state machine, the tick
    pipeline and drone spawning, over a snapshot of everything a Game reads
    and writes, including the process-wide counters and timers it shares. */
module Rules {
  import opened Vectors
  import opened Entities
  import Players
  import Drones
  import opened Collisions
  import opened Reaping

  /** GameState (Game.h) */
  datatype GameState = Menu | Playing | GameOver

  const WorldWidth: real := 800.0
  const WorldHeight: real := 600.0
  /** A drone spawns once the shared spawn timer exceeds this many seconds. */
  const SpawnPeriod: real := 2.0
  /** Game::initialize spawns this many drones. */
  const InitialDrones: nat := 5

  /** Three std::rand() results in the order spawnDrone's caller and
      spawnDrone draw them: the drone type, the side, the coordinate along it. */
  datatype Roll = Roll(kind: nat, side: nat, offset: nat)

  /** What a Game reads and writes: its own m_state and m_entities, and the
      state it shares with every other game and entity of the process:
      Entity::s_nextId and the static timers of Drone::patrol and
      Game::update. */
  datatype World = World(
    state: GameState,
    entities: seq<Entity>,
    nextId: int,
    patrolTimer: real,
    spawnTimer: real)

  /** `static_cast<DroneType>(k % 3)`: the enumerators in declaration order. */
  function DroneTypeOf(k: nat): (t: DroneType)
    ensures t == Chaser <==> k % 3 == 0
    ensures t == Patroller <==> k % 3 == 1
  {
    if k % 3 == 0 then Chaser else if k % 3 == 1 then Patroller else Shooter
  }

  /** A point on the arena's border, as spawnDrone picks one: the top or
      bottom edge with 0 <= x < 800, or the right or left edge with
      0 <= y < 600. */
  predicate OnEdge(p: Vector2) {
    || (p.y == 0.0 && 0.0 <= p.x < WorldWidth)
    || (p.x == WorldWidth && 0.0 <= p.y < WorldHeight)
    || (p.y == WorldHeight && 0.0 <= p.x < WorldWidth)
    || (p.x == 0.0 && 0.0 <= p.y < WorldHeight)
  }

  /** The position spawnDrone computes from `rand() % 4` and the coordinate
      roll: top, right, bottom or left edge.  rand() is never negative, so
      `%` here agrees with C++'s. */
  function SpawnPosition(side: nat, offset: nat): (p: Vector2)
    ensures OnEdge(p)
    ensures side % 4 == 0 ==> p == Vector2((offset % 800) as real, 0.0)
    ensures side % 4 == 1 ==> p == Vector2(WorldWidth, (offset % 600) as real)
    ensures side % 4 == 2 ==> p == Vector2((offset % 800) as real, WorldHeight)
    ensures side % 4 == 3 ==> p == Vector2(0.0, (offset % 600) as real)
  {
    var across := (offset % (WorldWidth.Floor)) as real;
    var down := (offset % (WorldHeight.Floor)) as real;
    if side % 4 == 0 then Vector2(across, 0.0)
    else if side % 4 == 1 then Vector2(WorldWidth, down)
    else if side % 4 == 2 then Vector2(across, WorldHeight)
    else Vector2(0.0, down)
  }

  /** Every whole-numbered point of the border is reachable by some roll. */
  lemma EveryEdgePointReachable(p: Vector2)
    requires OnEdge(p) && p.x.Floor as real == p.x && p.y.Floor as real == p.y
    ensures exists side: nat, offset: nat :: SpawnPosition(side, offset) == p
  {
    var across, down := p.x.Floor, p.y.Floor;
    if p.y == 0.0 && p.x < WorldWidth {
      ModuloBelow(across, 800);
      assert SpawnPosition(0, across as nat) == p;
    } else if p.x == WorldWidth && p.y < WorldHeight {
      ModuloBelow(down, 600);
      assert SpawnPosition(1, down as nat) == p;
    } else if p.y == WorldHeight {
      ModuloBelow(across, 800);
      assert SpawnPosition(2, across as nat) == p;
    } else {
      ModuloBelow(down, 600);
      assert SpawnPosition(3, down as nat) == p;
    }
  }

  lemma ModuloBelow(n: int, m: int)
    requires 0 <= n < m
    ensures n % m == n
  {
  }

  /** Game::spawnDrone(t) with the side and coordinate it draws: one drone of
      type t at that border point is appended, taking the next id; nothing
      else changes. */
  function Spawn(w: World, t: DroneType, side: nat, offset: nat): (r: World)
    ensures |r.entities| == |w.entities| + 1 && r.entities[..|w.entities|] == w.entities
    ensures r.entities[|w.entities|] == Drones.Initial(w.nextId, SpawnPosition(side, offset), t)
    ensures r.nextId == w.nextId + 1
    ensures r.(entities := w.entities, nextId := w.nextId) == w
  {
    var drone := Drones.Initial(w.nextId, SpawnPosition(side, offset), t);
    w.(entities := w.entities + [drone], nextId := w.nextId + 1)
  }

  /** `spawnDrone(static_cast<DroneType>(rand() % 3))` with its three draws. */
  function SpawnRoll(w: World, roll: Roll): World {
    Spawn(w, DroneTypeOf(roll.kind), roll.side, roll.offset)
  }

  /** spawnDrone once per roll, in order. */
  function SpawnAll(w: World, rolls: seq<Roll>): (r: World)
    ensures |r.entities| == |w.entities| + |rolls| && r.entities[..|w.entities|] == w.entities
    ensures r.nextId == w.nextId + |rolls|
    ensures r.(entities := w.entities, nextId := w.nextId) == w
    ensures forall k :: 0 <= k < |rolls| ==>
      r.entities[|w.entities| + k]
        == Drones.Initial(w.nextId + k, SpawnPosition(rolls[k].side, rolls[k].offset), DroneTypeOf(rolls[k].kind))
    decreases |rolls|
  {
    if rolls == [] then w
    else
      var before := SpawnAll(w, rolls[..|rolls| - 1]);
      var r := SpawnRoll(before, rolls[|rolls| - 1]);
      assert forall k :: 0 <= k < |rolls| - 1 ==> rolls[..|rolls| - 1][k] == rolls[k];
      assert forall k :: 0 <= k < |w.entities| + |rolls| - 1 ==> r.entities[k] == before.entities[k];
      r
  }

  /** Game::initialize: PLAYING, the list cleared, a new player in the
      middle of the 800 x 600 world, then five drones.  The shared timers are
      not reset. */
  function Initialized(w: World, rolls: seq<Roll>): (r: World)
    requires |rolls| == InitialDrones
  {
    var player := Players.Initial(w.nextId, Vector2(WorldWidth / 2.0, WorldHeight / 2.0));
    SpawnAll(w.(state := Playing, entities := [player], nextId := w.nextId + 1), rolls)
  }

  /** What an entity's update may change: its position, its velocity and a
      drone's fire timer.  It is the same entity of the same class, just as
      active, and a player's own fields stay. */
  predicate Moves(e: Entity, r: Entity) {
    && r.id == e.id && r.kind == e.kind && r.radius == e.radius && r.active == e.active
    && SameVariant(e.body, r.body)
    && (e.body.PlayerPart? ==> r.body == e.body)
  }

  /** Entity::update, dispatched on the class of e, with the shared patrol
      timer threaded through: the entity afterwards and the timer afterwards. */
  function UpdateOne(e: Entity, dt: real, sqrtTwo: real, timer: real): (r: (Entity, real))
    requires IsSqrt(sqrtTwo, 2.0)
    ensures Moves(e, r.0)
    ensures !e.body.DronePart? ==> r.1 == timer
  {
    match e.body
    case Base => (Integrate(e, dt), timer)
    case PlayerPart(_, _, _, _) => (Players.Updated(e, dt, sqrtTwo), timer)
    case DronePart(_, _, _, _) => Drones.Updated(e, dt, timer)
  }

  /** The loop `for (auto& entity : m_entities) entity->update(dt)`: every
      entity in order, the patrol timer passed from one to the next. */
  function UpdateAll(es: seq<Entity>, dt: real, sqrtTwo: real, timer: real): (r: (seq<Entity>, real))
    requires IsSqrt(sqrtTwo, 2.0)
    ensures |r.0| == |es|
    ensures forall k :: 0 <= k < |es| ==> Moves(es[k], r.0[k])
    decreases |es|
  {
    if es == [] then ([], timer)
    else
      var front := UpdateAll(es[..|es| - 1], dt, sqrtTwo, timer);
      var last := UpdateOne(es[|es| - 1], dt, sqrtTwo, front.1);
      (front.0 + [last.0], last.1)
  }

  /** One more entity of the update loop. */
  lemma UpdateAllExtend(es: seq<Entity>, i: nat, dt: real, sqrtTwo: real, timer: real)
    requires IsSqrt(sqrtTwo, 2.0) && i < |es|
    ensures var front := UpdateAll(es[..i], dt, sqrtTwo, timer);
      var last := UpdateOne(es[i], dt, sqrtTwo, front.1);
      UpdateAll(es[..i + 1], dt, sqrtTwo, timer) == (front.0 + [last.0], last.1)
  {
    assert es[..i + 1][..i] == es[..i];
  }

  /** The entity list after the update loop, the sweep and the reap. */
  function Settled(es: seq<Entity>, dt: real, sqrtTwo: real, timer: real): (r: seq<Entity>)
    requires IsSqrt(sqrtTwo, 2.0)
  {
    Reap(Sweep(UpdateAll(es, dt, sqrtTwo, timer).0))
  }

  /** The spawn timer after `spawnTimer += dt` and the reset. */
  function NextSpawnTimer(t: real, dt: real): (r: real)
    ensures t + dt > SpawnPeriod ==> r == 0.0
    ensures t + dt <= SpawnPeriod ==> r == t + dt
  {
    if t + dt > SpawnPeriod then 0.0 else t + dt
  }

  /** Game::update.  Outside PLAYING nothing happens.  Otherwise: update
      every entity, run the collision sweep, remove the inactive entities,
      go to GAME_OVER if the player is inactive, then advance the shared
      spawn timer and, once it exceeds 2, reset it and spawn one drone with
      the given roll. */
  function Tick(w: World, dt: real, sqrtTwo: real, roll: Roll): (r: World)
    requires IsSqrt(sqrtTwo, 2.0)
    requires w.state == Playing ==> PlayerFirst(w.entities)
    ensures w.state != Playing ==> r == w
  {
    if w.state != Playing then w
    else
      var (moved, patrolTimer) := UpdateAll(w.entities, dt, sqrtTwo, w.patrolTimer);
      var swept := Sweep(moved);
      assert Moves(w.entities[0], moved[0]) && Keeps(moved[0], swept[0]);
      var reaped := Reap(swept);
      var state := if reaped[0].active then Playing else GameOver;
      var settled := w.(state := state, entities := reaped, patrolTimer := patrolTimer,
                        spawnTimer := NextSpawnTimer(w.spawnTimer, dt));
      if w.spawnTimer + dt > SpawnPeriod then SpawnRoll(settled, roll) else settled
  }

  /** Game::handleInput: in PLAYING with a player, forward to the player;
      in MENU, a FIRE press starts a game; in GAME_OVER, a FIRE press goes
      back to the menu; anything else is ignored. */
  function Input(w: World, input: PlayerInput, pressed: bool, rolls: seq<Roll>): (r: World)
    requires |rolls| == InitialDrones
    ensures w.state == Playing && PlayerFirst(w.entities) ==>
      && r.(entities := w.entities) == w
      && |r.entities| == |w.entities| && r.entities[1..] == w.entities[1..]
      && r.entities[0] == Players.SetInput(w.entities[0], input, pressed)
    ensures w.state == Menu && input == Fire && pressed ==> r == Initialized(w, rolls)
    ensures w.state == GameOver && input == Fire && pressed ==> r == w.(state := Menu)
    ensures w.state != Playing && !(input == Fire && pressed) ==> r == w
  {
    if w.state == Playing && PlayerFirst(w.entities) then
      w.(entities := w.entities[0 := Players.SetInput(w.entities[0], input, pressed)])
    else if w.state == Menu && input == Fire && pressed then
      Initialized(w, rolls)
    else if w.state == GameOver && input == Fire && pressed then
      w.(state := Menu)
    else
      w
  }

  /** A game's entity list once it has a player: the player first and
      active exactly while its health is above zero, drones after it, and
      distinct ids below the shared counter. */
  predicate Populated(es: seq<Entity>, nextId: int) {
    && PlayerFirst(es) && Players.Sound(es[0])
    && (forall k :: 0 < k < |es| ==> Drones.IsDrone(es[k]))
    && (forall k :: 0 <= k < |es| ==> es[k].id < nextId)
    && DistinctIds(es)
  }

  /** The game's invariant: outside the menu there is a player, and once
      there is one the list is populated; PLAYING means the player is active
      and GAME_OVER that it is not. */
  predicate WellFormed(w: World) {
    && (w.state != Menu ==> w.entities != [])
    && (w.entities != [] ==> Populated(w.entities, w.nextId))
    && (w.state == Playing ==> w.entities[0].active)
    && (w.state == GameOver ==> !w.entities[0].active)
  }

  /** Game::Game: MENU with no entities. */
  function Start(nextId: int, patrolTimer: real, spawnTimer: real): (w: World)
    ensures w.state == Menu && w.entities == [] && WellFormed(w)
  {
    World(Menu, [], nextId, patrolTimer, spawnTimer)
  }

  /** Entity by entity, rs is es with the same ids, types and classes, and
      each sound player still sound. */
  predicate SameShape(es: seq<Entity>, rs: seq<Entity>) {
    |rs| == |es| &&
    forall k :: 0 <= k < |es| ==>
      && rs[k].id == es[k].id && rs[k].kind == es[k].kind && SameVariant(es[k].body, rs[k].body)
      && (Players.Sound(es[k]) ==> Players.Sound(rs[k]))
  }

  lemma PopulatedShape(es: seq<Entity>, rs: seq<Entity>, nextId: int)
    requires Populated(es, nextId) && SameShape(es, rs)
    ensures Populated(rs, nextId)
  {
  }

  /** The update loop keeps the list populated and leaves every entity as
      active as it was. */
  lemma UpdatePopulated(es: seq<Entity>, dt: real, sqrtTwo: real, timer: real, nextId: int)
    requires IsSqrt(sqrtTwo, 2.0) && Populated(es, nextId)
    ensures Populated(UpdateAll(es, dt, sqrtTwo, timer).0, nextId)
    ensures UpdateAll(es, dt, sqrtTwo, timer).0[0].id == es[0].id
  {
    var rs := UpdateAll(es, dt, sqrtTwo, timer).0;
    assert SameShape(es, rs) by {
      forall k | 0 <= k < |es|
        ensures Players.Sound(es[k]) ==> Players.Sound(rs[k])
      {
        assert Moves(es[k], rs[k]);
      }
    }
    PopulatedShape(es, rs, nextId);
  }

  /** The collision sweep keeps the list populated. */
  lemma SweepPopulated(es: seq<Entity>, nextId: int)
    requires Populated(es, nextId)
    ensures Populated(Sweep(es), nextId) && Sweep(es)[0].id == es[0].id
  {
    var rs := Sweep(es);
    assert SameShape(es, rs) by {
      forall k | 0 <= k < |es|
        ensures Players.Sound(es[k]) ==> Players.Sound(rs[k])
      {
        assert Keeps(es[k], rs[k]);
      }
    }
    PopulatedShape(es, rs, nextId);
  }

  /** The reap keeps the list populated and the player first, and leaves no
      inactive entity but the player. */
  lemma ReapPopulated(es: seq<Entity>, nextId: int)
    requires Populated(es, nextId)
    ensures Populated(Reap(es), nextId) && Reap(es)[0] == es[0]
    ensures forall k :: 0 < k < |Reap(es)| ==> Reap(es)[k].active
  {
    var r := Reap(es);
    ReapOutcome(es);
    ReapDistinct(es);
    forall k | 0 < k < |r|
      ensures Drones.IsDrone(r[k]) && r[k].id < nextId
    {
      assert r[k] in r[1..];
      var i :| 0 <= i < |es[1..]| && es[1..][i] == r[k];
      assert r[k] == es[i + 1];
    }
  }

  /** One spawn keeps the list populated. */
  lemma SpawnPopulated(w: World, roll: Roll)
    requires Populated(w.entities, w.nextId)
    ensures Populated(SpawnRoll(w, roll).entities, SpawnRoll(w, roll).nextId)
  {
    var r := SpawnRoll(w, roll);
    assert forall k :: 0 <= k < |w.entities| ==> r.entities[k] == w.entities[k];
  }

  /** After Game::initialize: PLAYING, six entities, the player in the middle
      at (400, 300) with the next id, then the five rolled drones with the
      five ids after it, each on the border; the shared timers are as they
      were, and the invariant holds. */
  lemma InitializedShape(w: World, rolls: seq<Roll>)
    requires |rolls| == InitialDrones
    ensures var r := Initialized(w, rolls);
      && r.state == Playing && |r.entities| == 6
      && r.entities[0] == Players.Initial(w.nextId, Vector2(400.0, 300.0))
      && (forall k :: 1 <= k < 6 ==>
            && r.entities[k] == Drones.Initial(w.nextId + k, SpawnPosition(rolls[k - 1].side, rolls[k - 1].offset),
                                                DroneTypeOf(rolls[k - 1].kind))
            && OnEdge(r.entities[k].position))
      && r.nextId == w.nextId + 6
      && r.patrolTimer == w.patrolTimer && r.spawnTimer == w.spawnTimer
      && WellFormed(r)
  {
    InitializedDrones(w, rolls);
    InitializedWellFormed(w, rolls);
  }

  lemma InitializedDrones(w: World, rolls: seq<Roll>)
    requires |rolls| == InitialDrones
    ensures var r := Initialized(w, rolls);
      && |r.entities| == 6
      && r.entities[0] == Players.Initial(w.nextId, Vector2(400.0, 300.0))
      && (forall k :: 1 <= k < 6 ==>
            r.entities[k] == Drones.Initial(w.nextId + k, SpawnPosition(rolls[k - 1].side, rolls[k - 1].offset),
                                             DroneTypeOf(rolls[k - 1].kind)))
  {
    var player := Players.Initial(w.nextId, Vector2(WorldWidth / 2.0, WorldHeight / 2.0));
    var w0 := w.(state := Playing, entities := [player], nextId := w.nextId + 1);
    var r := SpawnAll(w0, rolls);
    assert r.entities[..1] == [player];
    forall k | 1 <= k < 6
      ensures r.entities[k] == Drones.Initial(w.nextId + k, SpawnPosition(rolls[k - 1].side, rolls[k - 1].offset),
                                               DroneTypeOf(rolls[k - 1].kind))
    {
      var m := k - 1;
      assert r.entities[|w0.entities| + m]
          == Drones.Initial(w0.nextId + m, SpawnPosition(rolls[m].side, rolls[m].offset), DroneTypeOf(rolls[m].kind));
    }
  }

  lemma InitializedWellFormed(w: World, rolls: seq<Roll>)
    requires |rolls| == InitialDrones
    ensures WellFormed(Initialized(w, rolls))
  {
    InitializedDrones(w, rolls);
    var r := Initialized(w, rolls);
    assert r.nextId == w.nextId + 6;
    forall k | 0 <= k < 6
      ensures r.entities[k].id == w.nextId + k
    {
    }
  }

  /** Game::handleInput keeps the invariant. */
  lemma InputPreservesWellFormed(w: World, input: PlayerInput, pressed: bool, rolls: seq<Roll>)
    requires |rolls| == InitialDrones && WellFormed(w)
    ensures WellFormed(Input(w, input, pressed, rolls))
  {
    var r := Input(w, input, pressed, rolls);
    if w.state == Playing && PlayerFirst(w.entities) {
      assert SameShape(w.entities, r.entities);
      PopulatedShape(w.entities, r.entities, w.nextId);
    } else if w.state == Menu && input == Fire && pressed {
      InitializedShape(w, rolls);
    }
  }

  /** The outcome of one PLAYING tick: the player is still first and the
      only entity that may be inactive; the game is over exactly when the
      player is inactive, so in particular whenever its health is at or
      below zero; and the invariant holds. */
  lemma TickOutcome(w: World, dt: real, sqrtTwo: real, roll: Roll)
    requires IsSqrt(sqrtTwo, 2.0) && WellFormed(w) && w.state == Playing
    ensures var r := Tick(w, dt, sqrtTwo, roll);
      && WellFormed(r)
      && r.entities[0].id == w.entities[0].id
      && (forall k :: 0 < k < |r.entities| ==> r.entities[k].active)
      && (r.state == GameOver <==> !r.entities[0].active)
      && (r.entities[0].body.health <= 0.0 ==> r.state == GameOver)
  {
    var es := w.entities;
    SettledPopulated(es, dt, sqrtTwo, w.patrolTimer, w.nextId);
    var reaped := Settled(es, dt, sqrtTwo, w.patrolTimer);
    var state := if reaped[0].active then Playing else GameOver;
    var settled := w.(state := state, entities := reaped, patrolTimer := UpdateAll(es, dt, sqrtTwo, w.patrolTimer).1,
                      spawnTimer := NextSpawnTimer(w.spawnTimer, dt));
    assert Tick(w, dt, sqrtTwo, roll) == if w.spawnTimer + dt > SpawnPeriod then SpawnRoll(settled, roll) else settled;
    if w.spawnTimer + dt > SpawnPeriod {
      SpawnKeepsSettled(settled, roll);
    }
  }

  /** The update loop, the sweep and the reap keep the list populated, the
      player first, and no inactive entity but the player. */
  lemma SettledPopulated(es: seq<Entity>, dt: real, sqrtTwo: real, timer: real, nextId: int)
    requires IsSqrt(sqrtTwo, 2.0) && Populated(es, nextId)
    ensures var r := Settled(es, dt, sqrtTwo, timer);
      && Populated(r, nextId) && r[0].id == es[0].id
      && (forall k :: 0 < k < |r| ==> r[k].active)
  {
    var moved := UpdateAll(es, dt, sqrtTwo, timer).0;
    UpdatePopulated(es, dt, sqrtTwo, timer, nextId);
    SweepPopulated(moved, nextId);
    ReapPopulated(Sweep(moved), nextId);
  }

  /** Spawning after the reap keeps the invariant, the player and the
      activity of every entity. */
  lemma SpawnKeepsSettled(w: World, roll: Roll)
    requires WellFormed(w) && w.entities != [] && (forall k :: 0 < k < |w.entities| ==> w.entities[k].active)
    ensures var r := SpawnRoll(w, roll);
      && WellFormed(r) && r.entities[0] == w.entities[0]
      && (forall k :: 0 < k < |r.entities| ==> r.entities[k].active)
  {
    SpawnPopulated(w, roll);
    var r := SpawnRoll(w, roll);
    assert forall k :: 0 <= k < |w.entities| ==> r.entities[k] == w.entities[k];
  }

  /** Game::update keeps the invariant in every state. */
  lemma TickPreservesWellFormed(w: World, dt: real, sqrtTwo: real, roll: Roll)
    requires IsSqrt(sqrtTwo, 2.0) && WellFormed(w)
    ensures WellFormed(Tick(w, dt, sqrtTwo, roll))
  {
    if w.state == Playing {
      TickOutcome(w, dt, sqrtTwo, roll);
    }
  }

  /** The timed spawn of a PLAYING tick: once the shared timer passes 2 it
      resets to 0 and exactly one rolled drone is appended on the border,
      with the next id; otherwise the timer just grows by dt and the settled
      list is the whole result. */
  lemma TickSpawn(w: World, dt: real, sqrtTwo: real, roll: Roll)
    requires IsSqrt(sqrtTwo, 2.0) && WellFormed(w) && w.state == Playing
    ensures var r := Tick(w, dt, sqrtTwo, roll);
      var settled := Settled(w.entities, dt, sqrtTwo, w.patrolTimer);
      && (w.spawnTimer + dt > SpawnPeriod ==>
            && r.spawnTimer == 0.0 && r.nextId == w.nextId + 1
            && |r.entities| == |settled| + 1 && r.entities[..|settled|] == settled
            && r.entities[|settled|]
                 == Drones.Initial(w.nextId, SpawnPosition(roll.side, roll.offset), DroneTypeOf(roll.kind))
            && OnEdge(r.entities[|settled|].position))
      && (w.spawnTimer + dt <= SpawnPeriod ==>
            r.spawnTimer == w.spawnTimer + dt && r.nextId == w.nextId && r.entities == settled)
  {
  }

  /** The spawn timer after n ticks of dt. */
  function SpawnTimerAfter(t: real, dt: real, n: nat): real
    decreases n
  {
    if n == 0 then t else NextSpawnTimer(SpawnTimerAfter(t, dt, n - 1), dt)
  }

  /** From a reset timer, ticks of a fixed dt > 0 spawn nothing while n * dt
      is at most 2: the timer is then exactly n * dt.  So the first spawn
      comes on the first tick n with n * dt > 2: the third tick for dt = 1
      and the fifth for dt = 0.5. */
  lemma {:induction false} SpawnTimerRamp(dt: real, n: nat)
    requires dt > 0.0 && (n as real) * dt <= SpawnPeriod
    ensures SpawnTimerAfter(0.0, dt, n) == (n as real) * dt
    ensures forall k :: 0 < k <= n ==> SpawnTimerAfter(0.0, dt, k) == (k as real) * dt
  {
    if n > 0 {
      var m := (n - 1) as real;
      assert Mul(m, dt) <= Mul(m, dt) + dt == Mul(n as real, dt);
      SpawnTimerRamp(dt, n - 1);
    }
  }

  /** With dt = 0.5 the first drone after a reset spawns on the fifth tick,
      after 2.5 seconds, not after 2: the test is a strict `>`. */
  lemma HalfSecondTicksSpawnOnTheFifth()
    ensures SpawnTimerAfter(0.0, 0.5, 4) == 2.0
    ensures SpawnTimerAfter(0.0, 0.5, 5) == 0.0
  {
    SpawnTimerRamp(0.5, 4);
  }
}
