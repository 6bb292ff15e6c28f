/** The Game class of backend/src/Game.h and Game.cpp: the state machine and
    the entity list it updates in place, with the process-wide id counter
    and static timers it shares held by reference. */
module Games {
  import opened Vectors
  import opened Entities
  import Players
  import Drones
  import opened Collisions
  import opened Reaping
  import opened Rules

  /** Game::update's `static float spawnTimer`: one timer for every game of
      the process. */
  class SpawnClock {
    var spawnTimer: real

    /** `static float spawnTimer = 0.0f;` */
    constructor ()
      ensures spawnTimer == 0.0
    {
      spawnTimer := 0.0;
    }
  }

  /** Entity::update through the virtual call, with the shared patrol clock. */
  method UpdateEntity(e: Entity, dt: real, sqrtTwo: real, patrol: Drones.PatrolClock) returns (r: Entity)
    requires IsSqrt(sqrtTwo, 2.0)
    modifies patrol
    ensures (r, patrol.patrolTimer) == UpdateOne(e, dt, sqrtTwo, old(patrol.patrolTimer))
  {
    match e.body {
      case Base =>
        r := Integrate(e, dt);
      case PlayerPart(_, _, _, _) =>
        r := Players.Update(e, dt, sqrtTwo);
      case DronePart(_, _, _, _) =>
        r := Drones.Update(e, dt, patrol);
    }
  }

  /** Moving the survivor at r down to w extends the kept prefix by it. */
  lemma CompactionStep(list: seq<Entity>, w: nat, r: nat)
    requires w <= r < |list|
    ensures list[w := list[r]][..w + 1] == list[..w] + [list[r]]
    ensures forall k :: r < k < |list| ==> list[w := list[r]][k] == list[k]
  {
  }

  /** std::remove_if over list[start..] followed by the erase of the tail:
      survivors are moved down over the gaps in order. */
  method RemoveIf(list0: seq<Entity>, start: nat) returns (kept: seq<Entity>)
    requires start <= |list0|
    ensures kept == list0[..start] + KeepActive(list0[start..|list0|])
  {
    var list := list0;
    var w := start;
    var r := start;
    while r < |list|
      invariant start <= w <= r <= |list| == |list0|
      invariant list[..w] == list0[..start] + KeepActive(list0[start..r])
      invariant forall k :: r <= k < |list| ==> list[k] == list0[k]
    {
      list, w := MoveSurvivor(list0, start, list, w, r);
      r := r + 1;
    }
    kept := list[..w];
  }

  /** One step of remove_if at the read position r: an active entity is
      moved down to the write position w, which then advances. */
  method MoveSurvivor(list0: seq<Entity>, start: nat, list: seq<Entity>, w: nat, r: nat)
    returns (list': seq<Entity>, w': nat)
    requires start <= w <= r < |list| == |list0|
    requires list[..w] == list0[..start] + KeepActive(list0[start..r])
    requires forall k :: r <= k < |list| ==> list[k] == list0[k]
    ensures start <= w' <= r + 1 && |list'| == |list0|
    ensures list'[..w'] == list0[..start] + KeepActive(list0[start..r + 1])
    ensures forall k :: r < k < |list'| ==> list'[k] == list0[k]
  {
    KeepActiveExtend(list0, start, r);
    if list[r].active {
      CompactionStep(list, w, r);
      list', w' := list[w := list[r]], w + 1;
    } else {
      list', w' := list, w;
    }
  }

  /** Once the scan has reached the end, the kept prefix is the reap. */
  lemma CompactionDone(es0: seq<Entity>, kept: seq<Entity>, start: nat)
    requires start == if PlayerFirst(es0) then 1 else 0
    requires start <= |es0| && kept == es0[..start] + KeepActive(es0[start..|es0|])
    ensures kept == Reap(es0)
  {
    if start == 1 {
      assert es0[..start] == [es0[0]];
      assert es0[start..|es0|] == es0[1..];
    } else {
      assert es0[start..|es0|] == es0 && es0[..start] == [];
    }
  }

  class Game {
    var state: GameState
    /** m_entities; m_player is its first element once initialize has run. */
    var entities: seq<Entity>
    const worldWidth: real
    const worldHeight: real
    /** Entity::s_nextId */
    const ids: IdCounter
    /** Drone::patrol's static timer */
    const patrol: Drones.PatrolClock
    /** Game::update's static timer */
    const spawn: SpawnClock

    /** Everything the game reads and writes, as a value. */
    ghost function Snapshot(): World
      reads this, ids, patrol, spawn
    {
      World(state, entities, ids.nextId, patrol.patrolTimer, spawn.spawnTimer)
    }

    ghost predicate Valid()
      reads this, ids, patrol, spawn
    {
      worldWidth == WorldWidth && worldHeight == WorldHeight && WellFormed(Snapshot())
    }

    /** Game::Game: MENU, no entities, an 800 x 600 world.  The shared
        counter and timers are whatever the process has. */
    constructor (ids: IdCounter, patrol: Drones.PatrolClock, spawn: SpawnClock)
      ensures this.ids == ids && this.patrol == patrol && this.spawn == spawn
      ensures Valid() && Snapshot() == Start(ids.nextId, patrol.patrolTimer, spawn.spawnTimer)
    {
      state := Menu;
      entities := [];
      worldWidth := 800.0;
      worldHeight := 600.0;
      this.ids := ids;
      this.patrol := patrol;
      this.spawn := spawn;
    }

    /** Game::spawnDrone: pick the border point from the side and the
        coordinate, create the drone and append it. */
    method SpawnDrone(t: DroneType, side: nat, offset: nat)
      requires worldWidth == WorldWidth && worldHeight == WorldHeight
      modifies this, ids
      ensures Snapshot() == Spawn(old(Snapshot()), t, side, offset)
    {
      var position: Vector2;
      var across := (offset % worldWidth.Floor) as real;
      var down := (offset % worldHeight.Floor) as real;
      if side % 4 == 0 {
        position := Vector2(across, 0.0);
      } else if side % 4 == 1 {
        position := Vector2(worldWidth, down);
      } else if side % 4 == 2 {
        position := Vector2(across, worldHeight);
      } else {
        position := Vector2(0.0, down);
      }
      var drone := Drones.Create(ids, position, t);
      entities := entities + [drone];
    }

    /** Game::initialize: PLAYING, the list cleared, the player pushed, then
        five drones spawned, each with its own three draws. */
    method Initialize(rolls: seq<Roll>)
      requires worldWidth == WorldWidth && worldHeight == WorldHeight && |rolls| == InitialDrones
      modifies this, ids
      ensures Valid() && Snapshot() == Initialized(old(Snapshot()), rolls)
    {
      ghost var w := Snapshot();
      state := Playing;
      entities := [];
      var player := Players.Create(ids, Vector2(worldWidth / 2.0, worldHeight / 2.0));
      entities := entities + [player];
      assert player == Players.Initial(w.nextId, Vector2(WorldWidth / 2.0, WorldHeight / 2.0));
      assert Snapshot() == w.(state := Playing, entities := [player], nextId := w.nextId + 1);
      SpawnDrones(rolls);
      InitializedShape(w, rolls);
    }

    /** The loop of Game::initialize that spawns one drone per draw. */
    method SpawnDrones(rolls: seq<Roll>)
      requires worldWidth == WorldWidth && worldHeight == WorldHeight
      modifies this, ids
      ensures Snapshot() == SpawnAll(old(Snapshot()), rolls)
    {
      ghost var w0 := Snapshot();
      var i := 0;
      while i < |rolls|
        invariant 0 <= i <= |rolls|
        invariant Snapshot() == SpawnAll(w0, rolls[..i])
      {
        assert rolls[..i + 1][..i] == rolls[..i];
        SpawnDrone(DroneTypeOf(rolls[i].kind), rolls[i].side, rolls[i].offset);
        i := i + 1;
      }
      assert rolls[..i] == rolls;
    }

    /** Game::checkCollisions: the nested index loops over the pairs i < j. */
    method CheckCollisions()
      modifies this
      ensures entities == Sweep(old(entities)) && state == old(state)
    {
      ghost var es0 := entities;
      var i := 0;
      while i < |entities|
        invariant 0 <= i <= |entities| == |es0|
        invariant Outer(entities, i) == Sweep(es0)
        invariant state == old(state)
      {
        CheckRow(i);
        i := i + 1;
      }
    }

    /** The inner loop of Game::checkCollisions for one i: the pairs (i, j)
        for every j after i. */
    method CheckRow(i: nat)
      requires i < |entities|
      modifies this
      ensures entities == Inner(old(entities), i, i + 1) && state == old(state)
    {
      ghost var es0 := entities;
      var j := i + 1;
      while j < |entities|
        invariant i < j <= |entities| == |es0|
        invariant Inner(entities, i, j) == Inner(es0, i, i + 1)
        invariant state == old(state)
      {
        ghost var before := entities;
        CheckPair(i, j);
        assert Inner(before, i, j) == Inner(entities, i, j + 1);
        j := j + 1;
      }
    }

    /** The body of the inner loop for the pair (i, j): skip it if either
        entity is inactive; otherwise, if they are closer than the sum of
        their radii, a.handleCollision(b) and then b.handleCollision(a). */
    method CheckPair(i: nat, j: nat)
      requires i < j < |entities|
      modifies this
      ensures entities == PairStep(old(entities), i, j) && state == old(state)
    {
      var a := entities[i];
      var b := entities[j];
      if !a.active || !b.active {
        return;
      }
      var squared := DistanceSquared(a.position, b.position);
      var minDistance := a.radius + b.radius;
      if minDistance >= 0.0 && squared < minDistance * minDistance {
        a := Collide(a, b);
        entities := entities[i := a];
        b := Collide(b, a);
        entities := entities[j := b];
      }
    }

    /** Game::removeInactiveEntities: when the player is in the list it is
        kept and the rest is compacted; otherwise the whole list is.  The
        compaction is remove_if's: survivors are moved down over the gaps in
        order, then the tail is erased. */
    method RemoveInactiveEntities()
      modifies this
      ensures entities == Reap(old(entities)) && state == old(state)
    {
      var start := if PlayerFirst(entities) then 1 else 0;
      var kept := RemoveIf(entities, start);
      CompactionDone(entities, kept, start);
      entities := kept;
    }

    /** The loop `for (auto& entity : m_entities) entity->update(dt)`. */
    method UpdateEntities(dt: real, sqrtTwo: real)
      requires IsSqrt(sqrtTwo, 2.0)
      modifies this, patrol
      ensures (entities, patrol.patrolTimer) == UpdateAll(old(entities), dt, sqrtTwo, old(patrol.patrolTimer))
      ensures state == old(state)
    {
      ghost var es0 := entities;
      ghost var timer0 := patrol.patrolTimer;
      var i := 0;
      while i < |entities|
        invariant 0 <= i <= |entities| == |es0|
        invariant (entities[..i], patrol.patrolTimer) == UpdateAll(es0[..i], dt, sqrtTwo, timer0)
        invariant entities[i..] == es0[i..]
        invariant state == old(state)
      {
        UpdateAllExtend(es0, i, dt, sqrtTwo, timer0);
        ghost var before := entities;
        var e := UpdateEntity(entities[i], dt, sqrtTwo, patrol);
        entities := entities[i := e];
        assert entities[..i + 1] == before[..i] + [e];
        assert entities[i + 1..] == es0[i + 1..];
        i := i + 1;
      }
      assert es0[..i] == es0;
      assert entities[..i] == entities;
    }

    /** Game::update: nothing happens outside PLAYING. */
    method Update(dt: real, sqrtTwo: real, roll: Roll)
      requires Valid() && IsSqrt(sqrtTwo, 2.0)
      modifies this, ids, patrol, spawn
      ensures Valid() && Snapshot() == Tick(old(Snapshot()), dt, sqrtTwo, roll)
    {
      if state != Playing {
        return;
      }
      TickOutcome(Snapshot(), dt, sqrtTwo, roll);
      Step(dt, sqrtTwo, roll);
    }

    /** One frame of PLAYING: move, collide, reap, check for the end of the
        game, then advance the spawn timer and spawn when it runs out. */
    method Step(dt: real, sqrtTwo: real, roll: Roll)
      requires IsSqrt(sqrtTwo, 2.0) && state == Playing && PlayerFirst(entities)
      requires worldWidth == WorldWidth && worldHeight == WorldHeight
      modifies this, ids, patrol, spawn
      ensures Snapshot() == Tick(old(Snapshot()), dt, sqrtTwo, roll)
    {
      ghost var w := Snapshot();
      UpdateEntities(dt, sqrtTwo);
      CheckCollisions();
      RemoveInactiveEntities();
      assert Moves(w.entities[0], UpdateAll(w.entities, dt, sqrtTwo, w.patrolTimer).0[0]);
      if !entities[0].active {
        state := GameOver;
      }
      spawn.spawnTimer := spawn.spawnTimer + dt;
      if spawn.spawnTimer > SpawnPeriod {
        spawn.spawnTimer := 0.0;
        SpawnDrone(DroneTypeOf(roll.kind), roll.side, roll.offset);
      }
    }

    /** Game::handleInput. */
    method HandleInput(input: PlayerInput, pressed: bool, rolls: seq<Roll>)
      requires Valid() && |rolls| == InitialDrones
      modifies this, ids
      ensures Valid() && Snapshot() == Input(old(Snapshot()), input, pressed, rolls)
    {
      ghost var w := Snapshot();
      if state == Playing && PlayerFirst(entities) {
        entities := entities[0 := Players.SetInput(entities[0], input, pressed)];
      } else if state == Menu && input == Fire && pressed {
        Initialize(rolls);
      } else if state == GameOver && input == Fire && pressed {
        state := Menu;
      }
      InputPreservesWellFormed(w, input, pressed, rolls);
    }
  }
}
