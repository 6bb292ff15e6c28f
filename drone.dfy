/** The drones of backend/src/Drone.h and Drone.cpp: three variants with a
    fixed speed and fire rate, each with its own movement and fire behaviour. */
module Drones {
  import opened Vectors
  import opened Entities

  const DroneRadius: real := 12.0
  /** patrol() flips direction once the shared timer exceeds this many seconds. */
  const PatrolPeriod: real := 2.0
  /** patrol() restarts a drone whose squared speed is below this. */
  const StuckBelow: real := 0.1

  /** m_speed by variant (Drone::Drone). */
  function SpeedOf(t: DroneType): (s: real)
    ensures s > 0.0
  {
    match t
    case Chaser => 150.0
    case Patroller => 100.0
    case Shooter => 50.0
  }

  /** m_fireRate by variant (Drone::Drone); a chaser does not shoot. */
  function FireRateOf(t: DroneType): (f: real)
    ensures f >= 0.0 && (f == 0.0 <==> t == Chaser)
  {
    match t
    case Chaser => 0.0
    case Patroller => 2.0
    case Shooter => 1.0
  }

  predicate IsDrone(e: Entity) {
    e.kind == Drone && e.body.DronePart?
  }

  /** The value Drone::Drone gives a drone of variant t with the given id. */
  function Initial(id: int, position: Vector2, t: DroneType): (d: Entity)
    ensures IsDrone(d) && d.id == id && d.position == position && d.velocity == Zero && d.active
    ensures d.radius == 12.0 && d.body.droneType == t && d.body.fireTimer == 0.0
    ensures t == Chaser ==> d.body.speed == 150.0 && d.body.fireRate == 0.0
    ensures t == Patroller ==> d.body.speed == 100.0 && d.body.fireRate == 2.0
    ensures t == Shooter ==> d.body.speed == 50.0 && d.body.fireRate == 1.0
  {
    Fresh(id, Drone, position, DroneRadius, DronePart(t, SpeedOf(t), FireRateOf(t), 0.0))
  }

  /** Drone::Drone: an entity construction, so it draws the next id. */
  method Create(ids: IdCounter, position: Vector2, t: DroneType) returns (d: Entity)
    modifies ids
    ensures ids.nextId == old(ids.nextId) + 1
    ensures d == Initial(old(ids.nextId), position, t)
  {
    d := ids.Create(Drone, position, DroneRadius, DronePart(t, SpeedOf(t), FireRateOf(t), 0.0));
  }

  /** chasePlayer: the velocity becomes (1, 0) times the speed.  The player's
      position plays no part; nothing else changes. */
  function Chase(d: Entity): (r: Entity)
    requires d.body.DronePart?
    ensures r.velocity == Vector2(d.body.speed, 0.0)
    ensures r.(velocity := d.velocity) == d
  {
    d.(velocity := Vector2(1.0, 0.0).Scale(d.body.speed))
  }

  /** The velocity patrol() leaves, given whether the shared timer ran out:
      x negated on a flip, then (speed, 0) if the squared speed is below 0.1. */
  function PatrolVelocity(d: Entity, flip: bool): (v: Vector2)
    requires d.body.DronePart?
    ensures v.LengthSquared() >= StuckBelow || v == Vector2(d.body.speed, 0.0)
    ensures d.velocity.LengthSquared() >= StuckBelow ==>
      v == if flip then Vector2(-d.velocity.x, d.velocity.y) else d.velocity
  {
    FlipKeepsLengthSquared(d.velocity);
    var turned := if flip then d.velocity.(x := -d.velocity.x) else d.velocity;
    if turned.LengthSquared() < StuckBelow then Vector2(1.0, 0.0).Scale(d.body.speed) else turned
  }

  /** patrol() on a drone, given the value of the shared timer before the
      call: the drone afterwards and the timer afterwards.  The timer grows by
      dt and goes back to 0 once it exceeds 2; only the velocity changes. */
  function Patrolled(d: Entity, dt: real, timer: real): (r: (Entity, real))
    requires d.body.DronePart?
    ensures timer + dt > PatrolPeriod ==> r.1 == 0.0
    ensures timer + dt <= PatrolPeriod ==> r.1 == timer + dt
    ensures r.0.(velocity := d.velocity) == d
    ensures r.0.velocity.LengthSquared() >= StuckBelow || r.0.velocity == Vector2(d.body.speed, 0.0)
  {
    var timer' := timer + dt;
    var flip := timer' > PatrolPeriod;
    (d.(velocity := PatrolVelocity(d, flip)), if flip then 0.0 else timer')
  }

  /** Negating one component keeps the squared length. */
  lemma FlipKeepsLengthSquared(v: Vector2)
    ensures v.(x := -v.x).LengthSquared() == v.LengthSquared()
  {
    assert (-v.x) * (-v.x) == v.x * v.x;
  }

  /** A patroller moving slower than the threshold restarts at (speed, 0),
      whether or not the timer runs out in this call. */
  lemma PatrolRestartsStuckDrone(d: Entity, dt: real, timer: real)
    requires d.body.DronePart? && d.velocity.LengthSquared() < StuckBelow
    ensures Patrolled(d, dt, timer).0.velocity == Vector2(d.body.speed, 0.0)
  {
    FlipKeepsLengthSquared(d.velocity);
  }

  /** A moving patroller turns round (x negated, y kept) exactly when the
      shared timer runs out, and otherwise keeps its velocity. */
  lemma PatrolTurnsExactlyOnTimeout(d: Entity, dt: real, timer: real)
    requires d.body.DronePart? && d.velocity.LengthSquared() >= StuckBelow
    ensures timer + dt > PatrolPeriod ==> Patrolled(d, dt, timer).0.velocity == Vector2(-d.velocity.x, d.velocity.y)
    ensures timer + dt <= PatrolPeriod ==> Patrolled(d, dt, timer).0.velocity == d.velocity
  {
    FlipKeepsLengthSquared(d.velocity);
  }

  /** With non-negative steps the shared timer stays within [0, 2]. */
  lemma PatrolTimerBounded(d: Entity, dt: real, timer: real)
    requires d.body.DronePart? && dt >= 0.0 && 0.0 <= timer <= PatrolPeriod
    ensures 0.0 <= Patrolled(d, dt, timer).1 <= PatrolPeriod
  {
  }

  /** The timer is one static shared by every drone: two patrollers updated
      in the same tick advance it by 2 * dt, so the flip period seen by each
      shrinks with the number of patrollers. */
  lemma PatrolTimerShared(d1: Entity, d2: Entity, dt: real, timer: real)
    requires d1.body.DronePart? && d2.body.DronePart?
    requires dt >= 0.0 && timer + dt + dt <= PatrolPeriod
    ensures Patrolled(d2, dt, Patrolled(d1, dt, timer).1).1 == timer + 2.0 * dt
  {
  }

  /** Drone::patrol's `static float patrolTimer`: one clock for every drone
      of the process. */
  class PatrolClock {
    var patrolTimer: real

    /** `static float patrolTimer = 0.0f;` */
    constructor ()
      ensures patrolTimer == 0.0
    {
      patrolTimer := 0.0;
    }

    /** Drone::patrol, step by step on the shared timer. */
    method Patrol(d: Entity, dt: real) returns (r: Entity)
      requires d.body.DronePart?
      modifies this
      ensures (r, patrolTimer) == Patrolled(d, dt, old(patrolTimer))
    {
      patrolTimer := patrolTimer + dt;
      var velocity := d.velocity;
      if patrolTimer > PatrolPeriod {
        velocity := velocity.(x := -velocity.x);
        patrolTimer := 0.0;
      }
      if velocity.LengthSquared() < StuckBelow {
        velocity := Vector2(1.0, 0.0).Scale(d.body.speed);
      }
      r := d.(velocity := velocity);
    }
  }

  /** shoot(): the fire timer counts down by dt and is set back to the fire
      rate once it reaches 0 or below; nothing else changes (no projectile
      is created). */
  function Shoot(d: Entity, dt: real): (r: Entity)
    requires d.body.DronePart?
    ensures r.body.DronePart? && r.(body := d.body) == d
    ensures r.body.(fireTimer := d.body.fireTimer) == d.body
    ensures d.body.fireTimer - dt <= 0.0 ==> r.body.fireTimer == d.body.fireRate
    ensures d.body.fireTimer - dt > 0.0 ==> r.body.fireTimer == d.body.fireTimer - dt
  {
    var t := d.body.fireTimer - dt;
    d.(body := d.body.(fireTimer := if t <= 0.0 then d.body.fireRate else t))
  }

  /** With dt >= 0, a positive fire rate and a timer not above it, the timer
      after shoot() lies in (0, fireRate]. */
  lemma ShootKeepsTimerInRange(d: Entity, dt: real)
    requires d.body.DronePart? && dt >= 0.0 && d.body.fireRate > 0.0
    requires d.body.fireTimer <= d.body.fireRate
    ensures 0.0 < Shoot(d, dt).body.fireTimer <= d.body.fireRate
  {
  }

  /** A drone that shoots every dt: the fire timer is reset on the first
      call (it starts at 0) and then stays in (0, fireRate] however many
      calls follow. */
  function ShootTimes(d: Entity, dt: real, n: nat): (r: Entity)
    requires d.body.DronePart?
    ensures r.body.DronePart?
    decreases n
  {
    if n == 0 then d else Shoot(ShootTimes(d, dt, n - 1), dt)
  }

  lemma {:induction false} ShootTimesInRange(d: Entity, dt: real, n: nat)
    requires d.body.DronePart? && dt >= 0.0 && d.body.fireRate > 0.0
    requires d.body.fireTimer <= d.body.fireRate && n >= 1
    ensures 0.0 < ShootTimes(d, dt, n).body.fireTimer <= d.body.fireRate
    ensures ShootTimes(d, dt, n).body.fireRate == d.body.fireRate
  {
    if n > 1 {
      ShootTimesInRange(d, dt, n - 1);
    }
    ShootKeepsTimerInRange(ShootTimes(d, dt, n - 1), dt);
  }

  /** Drone::update on values, given the shared patrol timer: the variant's
      behaviour, then the base movement.  Returns the drone and the timer. */
  function Updated(d: Entity, dt: real, timer: real): (r: (Entity, real))
    requires d.body.DronePart?
    ensures r.0.body.DronePart? && r.0.body.(fireTimer := d.body.fireTimer) == d.body
    ensures r.0.(position := d.position, velocity := d.velocity, body := d.body) == d
    ensures r.0.position.Sub(d.position) == r.0.velocity.Scale(dt)
    ensures d.body.droneType != Patroller ==> r.1 == timer
    ensures d.body.droneType == Chaser ==> r.0.velocity == Vector2(d.body.speed, 0.0)
    ensures d.body.droneType == Patroller ==>
      r.0.velocity == Patrolled(d, dt, timer).0.velocity && r.1 == Patrolled(d, dt, timer).1
    ensures d.body.droneType == Shooter ==> r.0.velocity == d.velocity
    ensures d.body.droneType != Chaser && d.body.fireRate > 0.0 ==> r.0.body.fireTimer == Shoot(d, dt).body.fireTimer
    ensures d.body.droneType == Chaser || d.body.fireRate <= 0.0 ==> r.0.body.fireTimer == d.body.fireTimer
  {
    match d.body.droneType
    case Chaser =>
      (Integrate(Chase(d), dt), timer)
    case Patroller =>
      var (p, timer') := Patrolled(d, dt, timer);
      (Integrate(if p.body.fireRate > 0.0 then Shoot(p, dt) else p, dt), timer')
    case Shooter =>
      (Integrate(if d.body.fireRate > 0.0 then Shoot(d, dt) else d, dt), timer)
  }

  /** A chaser moves along +x at its speed and never touches its fire timer
      or the patrol timer. */
  lemma ChaserRunsRight(d: Entity, dt: real, timer: real)
    requires d.body.DronePart? && d.body.droneType == Chaser
    ensures Updated(d, dt, timer).0.velocity == Vector2(d.body.speed, 0.0)
    ensures Updated(d, dt, timer).0.position == Vector2(d.position.x + d.body.speed * dt, d.position.y)
    ensures Updated(d, dt, timer).0.body == d.body
    ensures Updated(d, dt, timer).1 == timer
  {
  }

  /** A fresh chaser keeps fireTimer 0 for good. */
  lemma ChaserNeverFires(position: Vector2, dt: real, timer: real)
    ensures Updated(Initial(0, position, Chaser), dt, timer).0.body.fireTimer == 0.0
  {
  }

  /** A shooter never assigns its velocity: at rest, it stays where it is. */
  lemma ShooterStaysPut(d: Entity, dt: real, timer: real)
    requires d.body.DronePart? && d.body.droneType == Shooter && d.velocity == Zero
    ensures Updated(d, dt, timer).0.velocity == Zero
    ensures Updated(d, dt, timer).0.position == d.position
  {
    ScaleZero(dt);
  }

  /** Drone::update, step by step: the variant's behaviour with the shared
      patrol clock, then the base movement. */
  method Update(d: Entity, dt: real, clock: PatrolClock) returns (r: Entity)
    requires d.body.DronePart?
    modifies clock
    ensures (r, clock.patrolTimer) == Updated(d, dt, old(clock.patrolTimer))
  {
    var e := d;
    match d.body.droneType {
      case Chaser =>
        e := Chase(e);
      case Patroller =>
        e := clock.Patrol(e, dt);
        if e.body.fireRate > 0.0 {
          e := Shoot(e, dt);
        }
      case Shooter =>
        if e.body.fireRate > 0.0 {
          e := Shoot(e, dt);
        }
    }
    r := Integrate(e, dt);
  }

  /** Drone::handleCollision: a projectile deactivates the drone; any other
      entity leaves it as it was. */
  function Collided(d: Entity, other: Entity): (r: Entity)
    requires d.body.DronePart?
    ensures r.(active := d.active) == d
    ensures r.active <==> d.active && other.kind != Projectile
  {
    if other.kind == Projectile then d.(active := false) else d
  }
}
