/** The entity base of backend/src/Entity.h and Entity.cpp, together with the
    enumerations of Entity.h, Player.h and Drone.h.

    The source's class hierarchy (Entity, with Player and Drone derived from
    it) becomes one value type: the base fields, and a `Body` saying which
    class the object belongs to and what that class adds.  Virtual dispatch
    is a match on the body. */
module Entities {
  import opened Vectors

  /** EntityType (Entity.h): the m_type tag read by the collision handlers. */
  datatype EntityType = Player | Drone | Projectile | Powerup

  /** PlayerInput (Player.h) */
  datatype PlayerInput = Up | Down | Left | Right | Fire

  /** DroneType (Drone.h) */
  datatype DroneType = Chaser | Patroller | Shooter

  /** The dynamic class of an entity and the fields that class adds. */
  datatype Body =
    | Base
      // A plain Entity: the default update and collision behaviour.
    | PlayerPart(inputs: map<PlayerInput, bool>, speed: real, health: real, score: int)
      // Player: m_inputs, m_speed, m_health, m_score.
    | DronePart(droneType: DroneType, speed: real, fireRate: real, fireTimer: real)
      // Drone: m_droneType, m_speed, m_fireRate, m_fireTimer.

  /** An entity: m_id, m_type, m_position, m_velocity, m_radius, m_active and
      the derived part. */
  datatype Entity = Entity(
    id: int,
    kind: EntityType,
    position: Vector2,
    velocity: Vector2,
    radius: real,
    active: bool,
    body: Body)

  /** The value Entity::Entity gives an entity: the given tag, position and
      radius, the given id, zero velocity and active. */
  function Fresh(id: int, kind: EntityType, position: Vector2, radius: real, body: Body): (e: Entity)
    ensures e.id == id && e.kind == kind && e.position == position && e.radius == radius
    ensures e.velocity == Zero && e.active && e.body == body
  {
    Entity(id, kind, position, Zero, radius, true, body)
  }

  /** Entity::s_nextId: the one counter all entity constructions of the
      process draw their ids from. */
  class IdCounter {
    var nextId: int

    /** `int Entity::s_nextId = 0;` */
    constructor ()
      ensures nextId == 0
    {
      nextId := 0;
    }

    /** The constructor Entity::Entity: the new entity takes the counter's
        current value as its id, and the counter moves on by one, so ids are
        handed out as n, n + 1, ... and never reused. */
    method Create(kind: EntityType, position: Vector2, radius: real, body: Body) returns (e: Entity)
      modifies this
      ensures nextId == old(nextId) + 1
      ensures e == Fresh(old(nextId), kind, position, radius, body)
    {
      e := Entity(nextId, kind, position, Vector2(0.0, 0.0), radius, true, body);
      nextId := nextId + 1;
    }
  }

  /** Entity::update: the position advances by velocity * dt, and nothing
      else about the entity changes. */
  function Integrate(e: Entity, dt: real): (r: Entity)
    ensures r.(position := e.position) == e
  {
    e.(position := e.position.Add(e.velocity.Scale(dt)))
  }

  /** The displacement of one step is the velocity scaled by dt. */
  lemma IntegrateDisplacement(e: Entity, dt: real)
    ensures Integrate(e, dt).position.Sub(e.position) == e.velocity.Scale(dt)
  {
  }

  /** With an unchanged velocity, two steps of dt1 and dt2 end where one step
      of dt1 + dt2 does. */
  lemma IntegrateAdditive(e: Entity, dt1: real, dt2: real)
    ensures Integrate(Integrate(e, dt1), dt2) == Integrate(e, dt1 + dt2)
  {
    var v := e.velocity;
    assert v.x * dt1 + v.x * dt2 == v.x * (dt1 + dt2);
    assert v.y * dt1 + v.y * dt2 == v.y * (dt1 + dt2);
  }

  /** An entity at rest stays where it is. */
  lemma IntegrateAtRest(e: Entity, dt: real)
    requires e.velocity == Zero
    ensures Integrate(e, dt) == e
  {
    ScaleZero(dt);
  }

  /** Repeating Entity::update n times with the same dt. */
  function IntegrateTimes(e: Entity, dt: real, n: nat): Entity
    decreases n
  {
    if n == 0 then e else Integrate(IntegrateTimes(e, dt, n - 1), dt)
  }

  /** Constant velocity over n ticks of dt ends at position + velocity * (n * dt). */
  lemma {:induction false} IntegrateTimesLinear(e: Entity, dt: real, n: nat)
    ensures IntegrateTimes(e, dt, n) == Integrate(e, (n as real) * dt)
  {
    if n > 0 {
      var t := ((n - 1) as real) * dt;
      IntegrateTimesLinear(e, dt, n - 1);
      IntegrateAdditive(e, t, dt);
      OneMoreStep(n, dt);
      assert t + dt == (n as real) * dt;
    }
  }

  lemma OneMoreStep(n: nat, dt: real)
    requires n > 0
    ensures ((n - 1) as real) * dt + dt == (n as real) * dt
  {
    assert Mul((n - 1) as real, dt) + dt == Mul((n - 1) as real + 1.0, dt);
  }
}
