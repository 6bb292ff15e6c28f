/** The player of backend/src/Player.h and Player.cpp: an entity whose
    velocity comes from four direction flags, with health and score. */
module Players {
  import opened Vectors
  import opened Entities

  const PlayerRadius: real := 15.0
  const PlayerSpeed: real := 200.0
  const FullHealth: real := 100.0
  /** What one touch of a drone costs (Player::handleCollision). */
  const DroneDamage: real := 10.0

  /** The input map as the constructor fills it: all five flags released. */
  const Released: map<PlayerInput, bool> :=
    map[Up := false, Down := false, Left := false, Right := false, Fire := false]

  /** Every flag is in the released map, and none is pressed. */
  lemma AllReleased(k: PlayerInput)
    ensures k in Released && !Pressed(Released, k)
  {
    match k
    case Up =>
    case Down =>
    case Left =>
    case Right =>
    case Fire =>
  }

  predicate IsPlayer(e: Entity) {
    e.kind == Player && e.body.PlayerPart?
  }

  /** A player's health and active flag agree: it is active exactly while its
      health is above zero.  Every operation of this module keeps this. */
  predicate Sound(e: Entity) {
    e.body.PlayerPart? ==> (e.active <==> e.body.health > 0.0)
  }

  /** `m_inputs[k]`: unordered_map::operator[] reads a missing key as false. */
  function Pressed(inputs: map<PlayerInput, bool>, k: PlayerInput): bool {
    k in inputs && inputs[k]
  }

  /** The value Player::Player gives a player with the given id. */
  function Initial(id: int, position: Vector2): (p: Entity)
    ensures IsPlayer(p) && Sound(p)
    ensures p.id == id && p.position == position && p.velocity == Zero && p.active
    ensures p.radius == 15.0 && p.body.speed == 200.0 && p.body.health == 100.0 && p.body.score == 0
    ensures p.body.inputs == Released
  {
    Fresh(id, Player, position, PlayerRadius, PlayerPart(Released, PlayerSpeed, FullHealth, 0))
  }

  /** Player::Player: an entity construction, so it draws the next id. */
  method Create(ids: IdCounter, position: Vector2) returns (p: Entity)
    modifies ids
    ensures ids.nextId == old(ids.nextId) + 1
    ensures p == Initial(old(ids.nextId), position)
  {
    p := ids.Create(Player, position, PlayerRadius, PlayerPart(Released, PlayerSpeed, FullHealth, 0));
  }

  /** One axis of the direction: +1 for the positive flag, -1 for the
      negative one, and 0 for both or neither. */
  function Axis(positive: bool, negative: bool): (a: real)
    ensures a == 0.0 <==> positive == negative
    ensures a > 0.0 <==> positive && !negative
    ensures a == -1.0 || a == 0.0 || a == 1.0
  {
    (if positive then 1.0 else 0.0) - (if negative then 1.0 else 0.0)
  }

  /** The direction the flags ask for: x grows to the right, y grows downwards. */
  function Heading(inputs: map<PlayerInput, bool>): (h: Vector2)
    ensures OnGrid(h)
  {
    Vector2(Axis(Pressed(inputs, Right), Pressed(inputs, Left)),
            Axis(Pressed(inputs, Down), Pressed(inputs, Up)))
  }

  /** Both components are -1, 0 or 1. */
  predicate OnGrid(d: Vector2) {
    (d.x == -1.0 || d.x == 0.0 || d.x == 1.0) && (d.y == -1.0 || d.y == 0.0 || d.y == 1.0)
  }

  /** The squared length of a grid direction: 0 for no direction, 1 along an
      axis and 2 on a diagonal. */
  lemma GridLengthSquared(d: Vector2)
    requires OnGrid(d)
    ensures d == Zero ==> d.LengthSquared() == 0.0
    ensures d != Zero && (d.x == 0.0 || d.y == 0.0) ==> d.LengthSquared() == 1.0
    ensures d.x != 0.0 && d.y != 0.0 ==> d.LengthSquared() == 2.0
  {
    assert d.x * d.x == (if d.x == 0.0 then 0.0 else 1.0);
    assert d.y * d.y == (if d.y == 0.0 then 0.0 else 1.0);
  }

  /** What length() returns for a direction on the grid: the root of 0, 1
      or 2. */
  function GridLength(d: Vector2, sqrtTwo: real): (len: real)
    requires OnGrid(d) && IsSqrt(sqrtTwo, 2.0)
    ensures d.IsLength(len)
  {
    GridLengthSquared(d);
    if d.x != 0.0 && d.y != 0.0 then sqrtTwo
    else if d != Zero then 1.0
    else 0.0
  }

  /** The velocity Player::update sets, in closed form: a straight heading
      times the speed, a diagonal one times the speed over the square root of
      2.  Update below derives it the source's way, by normalising.
      VelocityMagnitude shows that both give the same speed. */
  function Velocity(p: Entity, sqrtTwo: real): (v: Vector2)
    requires p.body.PlayerPart? && IsSqrt(sqrtTwo, 2.0)
    ensures Heading(p.body.inputs) == Zero ==> v == Zero
    ensures Heading(p.body.inputs).x == 0.0 ==> v.x == 0.0
    ensures Heading(p.body.inputs).y == 0.0 ==> v.y == 0.0
  {
    var d := Heading(p.body.inputs);
    if d.x != 0.0 && d.y != 0.0 then d.Scale(p.body.speed / sqrtTwo) else d.Scale(p.body.speed)
  }

  /** normalize() on a non-zero grid direction leaves a straight one as it
      is and divides a diagonal one by the square root of 2. */
  lemma NormalizedHeading(d: Vector2, sqrtTwo: real, speed: real)
    requires OnGrid(d) && IsSqrt(sqrtTwo, 2.0) && d != Zero
    ensures d.Normalized(GridLength(d, sqrtTwo)).Scale(speed)
         == if d.x != 0.0 && d.y != 0.0 then d.Scale(speed / sqrtTwo) else d.Scale(speed)
  {
    var u := d.Normalized(GridLength(d, sqrtTwo));
    if d.x != 0.0 && d.y != 0.0 {
      assert sqrtTwo > 0.0;
      assert u == Vector2(d.x / sqrtTwo, d.y / sqrtTwo);
      assert (d.x / sqrtTwo) * speed == d.x * (speed / sqrtTwo);
      assert (d.y / sqrtTwo) * speed == d.y * (speed / sqrtTwo);
    } else {
      assert u == d;
    }
  }

  /** Whatever flags are held, a moving player moves at exactly its speed:
      a diagonal is no faster than a straight line. */
  lemma VelocityMagnitude(p: Entity, sqrtTwo: real)
    requires p.body.PlayerPart? && IsSqrt(sqrtTwo, 2.0)
    requires Heading(p.body.inputs) != Zero
    ensures Velocity(p, sqrtTwo).LengthSquared() == p.body.speed * p.body.speed
  {
    GridScaleMagnitude(Heading(p.body.inputs), p.body.speed, sqrtTwo);
  }

  lemma GridScaleMagnitude(d: Vector2, s: real, sqrtTwo: real)
    requires OnGrid(d) && IsSqrt(sqrtTwo, 2.0) && d != Zero
    ensures (if d.x != 0.0 && d.y != 0.0 then d.Scale(s / sqrtTwo) else d.Scale(s)).LengthSquared() == s * s
  {
    if d.x != 0.0 && d.y != 0.0 {
      GridLengthSquared(d);
      DiagonalMagnitude(d, s, sqrtTwo);
      var v := d.Scale(s / sqrtTwo);
      assert v.LengthSquared() == s * s;
    } else {
      GridLengthSquared(d);
      StraightMagnitude(d, s);
      var v := d.Scale(s);
      assert v.LengthSquared() == s * s;
    }
  }

  lemma StraightMagnitude(d: Vector2, s: real)
    requires d.LengthSquared() == 1.0
    ensures d.Scale(s).LengthSquared() == s * s
  {
    ScaleLengthSquared(d, s);
    calc {
      d.Scale(s).LengthSquared();
      Mul(Mul(s, s), d.LengthSquared());
      Mul(Mul(s, s), 1.0);
    }
  }

  lemma DiagonalMagnitude(d: Vector2, s: real, sqrtTwo: real)
    requires d.LengthSquared() == 2.0 && IsSqrt(sqrtTwo, 2.0)
    ensures d.Scale(s / sqrtTwo).LengthSquared() == s * s
  {
    var k := s / sqrtTwo;
    ScaleLengthSquared(d, k);
    DiagonalSpeed(s, sqrtTwo);
    calc {
      d.Scale(k).LengthSquared();
      Mul(Mul(k, k), d.LengthSquared());
      Mul(Mul(k, k), 2.0);
      s * s;
    }
  }

  /** (s / r)^2 * 2 == s^2 when r is the square root of 2. */
  lemma DiagonalSpeed(s: real, r: real)
    requires IsSqrt(r, 2.0)
    ensures (s / r) * (s / r) * 2.0 == s * s
  {
    var k := s / r;
    assert r != 0.0;
    assert Mul(k, r) == s;
    calc {
      s * s;
      Mul(Mul(k, r), Mul(k, r));
      Mul(Mul(k, k), Mul(r, r));
      Mul(Mul(k, k), 2.0);
    }
  }

  /** The second half of Player::update: normalise a non-zero direction,
      then scale it by the speed. */
  function UnitThenScale(direction: Vector2, sqrtTwo: real, speed: real): (v: Vector2)
    requires OnGrid(direction) && IsSqrt(sqrtTwo, 2.0)
    ensures v == if direction.x != 0.0 && direction.y != 0.0 then direction.Scale(speed / sqrtTwo)
                 else direction.Scale(speed)
  {
    if direction.LengthSquared() > 0.0 then
      NormalizedHeading(direction, sqrtTwo, speed);
      direction.Normalized(GridLength(direction, sqrtTwo)).Scale(speed)
    else
      LengthSquaredZero(direction);
      direction.Scale(speed)
  }

  /** What Player::update leaves: the new velocity, the position moved by it
      over dt, and every other field as it was. */
  function Updated(p: Entity, dt: real, sqrtTwo: real): (r: Entity)
    requires p.body.PlayerPart? && IsSqrt(sqrtTwo, 2.0)
    ensures r.velocity == Velocity(p, sqrtTwo)
    ensures r.position.Sub(p.position) == r.velocity.Scale(dt)
    ensures r.(position := p.position, velocity := p.velocity) == p
  {
    IntegrateDisplacement(p.(velocity := Velocity(p, sqrtTwo)), dt);
    Integrate(p.(velocity := Velocity(p, sqrtTwo)), dt)
  }

  /** The direction Player::update builds from the flags: up and down move
      y, left and right move x. */
  method Direction(inputs: map<PlayerInput, bool>) returns (direction: Vector2)
    ensures direction == Heading(inputs)
  {
    direction := Zero;
    if Pressed(inputs, Up) {
      direction := direction.(y := direction.y - 1.0);
    }
    if Pressed(inputs, Down) {
      direction := direction.(y := direction.y + 1.0);
    }
    assert direction == Vector2(0.0, Axis(Pressed(inputs, Down), Pressed(inputs, Up)));
    if Pressed(inputs, Left) {
      direction := direction.(x := direction.x - 1.0);
    }
    if Pressed(inputs, Right) {
      direction := direction.(x := direction.x + 1.0);
    }
  }

  /** Player::update, step by step: build the direction from the flags,
      normalise it if it is not zero, scale it by the speed into the
      velocity, then apply the base movement. */
  method Update(p: Entity, dt: real, sqrtTwo: real) returns (q: Entity)
    requires p.body.PlayerPart? && IsSqrt(sqrtTwo, 2.0)
    ensures q == Updated(p, dt, sqrtTwo)
  {
    var direction := Direction(p.body.inputs);
    var velocity := UnitThenScale(direction, sqrtTwo, p.body.speed);
    q := Integrate(p.(velocity := velocity), dt);
  }

  /** Player::handleCollision.  Touching a drone costs 10 health and
      deactivates the player once health is at or below zero; it never
      reactivates it.  Touching anything else (a power-up's effect is an empty
      hook in the source) changes nothing. */
  function Collided(p: Entity, other: Entity): (r: Entity)
    requires p.body.PlayerPart?
    ensures r.body.PlayerPart?
    ensures r.(active := p.active, body := p.body) == p
    ensures r.body.(health := p.body.health) == p.body
    ensures other.kind == Drone ==>
      r.body.health == p.body.health - 10.0 && (r.active <==> p.active && r.body.health > 0.0)
    ensures other.kind != Drone ==> r == p
    ensures Sound(p) ==> Sound(r)
  {
    if other.kind == Drone then
      var hurt := p.(body := p.body.(health := p.body.health - DroneDamage));
      if hurt.body.health <= 0.0 then hurt.(active := false) else hurt
    else
      p
  }

  /** Player::setInput: flag `input` becomes `pressed`, the others keep their
      values, and nothing else about the player changes. */
  function SetInput(p: Entity, input: PlayerInput, pressed: bool): (r: Entity)
    requires p.body.PlayerPart?
    ensures r.body.PlayerPart?
    ensures Pressed(r.body.inputs, input) == pressed
    ensures forall k :: k != input ==> Pressed(r.body.inputs, k) == Pressed(p.body.inputs, k)
    ensures r.(body := p.body) == p && r.body.(inputs := p.body.inputs) == p.body
    ensures Sound(p) ==> Sound(r)
  {
    p.(body := p.body.(inputs := p.body.inputs[input := pressed]))
  }

  /** Player::reset: full health, score 0 and active again; position,
      velocity and inputs are left as they were. */
  function Reset(p: Entity): (r: Entity)
    requires p.body.PlayerPart?
    ensures r.body.PlayerPart? && Sound(r)
    ensures r.active && r.body.health == 100.0 && r.body.score == 0
    ensures r.(active := p.active, body := p.body) == p
    ensures r.body.(health := p.body.health, score := p.body.score) == p.body
  {
    p.(active := true, body := p.body.(health := FullHealth, score := 0))
  }

  /** Repeating a setInput call changes nothing more, and the last write wins. */
  lemma SetInputLastWriteWins(p: Entity, input: PlayerInput, first: bool, second: bool)
    requires p.body.PlayerPart?
    ensures SetInput(SetInput(p, input, first), input, second) == SetInput(p, input, second)
  {
    assert p.body.inputs[input := first][input := second] == p.body.inputs[input := second];
  }

  /** With no flag pressed the player stands still and keeps its position. */
  lemma NoInputStandsStill(p: Entity, dt: real, sqrtTwo: real)
    requires p.body.PlayerPart? && IsSqrt(sqrtTwo, 2.0)
    requires forall k :: !Pressed(p.body.inputs, k)
    ensures Updated(p, dt, sqrtTwo).velocity == Zero
    ensures Updated(p, dt, sqrtTwo).position == p.position
  {
    assert Heading(p.body.inputs) == Zero;
    ScaleZero(dt);
  }

  /** Up and Down together cancel on the y axis; Left and Right together
      cancel on the x axis. */
  lemma OppositeFlagsCancel(p: Entity, sqrtTwo: real)
    requires p.body.PlayerPart? && IsSqrt(sqrtTwo, 2.0)
    ensures Pressed(p.body.inputs, Up) == Pressed(p.body.inputs, Down) ==> Velocity(p, sqrtTwo).y == 0.0
    ensures Pressed(p.body.inputs, Left) == Pressed(p.body.inputs, Right) ==> Velocity(p, sqrtTwo).x == 0.0
  {
  }

  /** A fresh player at the origin holding only Right moves to (200, 0) in
      one second. */
  lemma RightForOneSecond(sqrtTwo: real)
    requires IsSqrt(sqrtTwo, 2.0)
    ensures Updated(SetInput(Initial(0, Zero), Right, true), 1.0, sqrtTwo).position == Vector2(200.0, 0.0)
  {
    var p := SetInput(Initial(0, Zero), Right, true);
    assert Heading(p.body.inputs) == Vector2(1.0, 0.0);
    assert Velocity(p, sqrtTwo) == Vector2(200.0, 0.0);
  }

  /** n touches of the same drone in a row. */
  function HitBy(p: Entity, drone: Entity, n: nat): (r: Entity)
    requires p.body.PlayerPart?
    ensures r.body.PlayerPart?
    decreases n
  {
    if n == 0 then p else Collided(HitBy(p, drone, n - 1), drone)
  }

  /** After n drone touches health is 10 * n lower, and the player is active
      exactly when it was and health is still above zero. */
  lemma {:induction false} HitByDrone(p: Entity, drone: Entity, n: nat)
    requires p.body.PlayerPart? && Sound(p) && drone.kind == Drone
    ensures HitBy(p, drone, n).body.health == p.body.health - 10.0 * (n as real)
    ensures HitBy(p, drone, n).active <==> p.active && HitBy(p, drone, n).body.health > 0.0
  {
    if n > 0 {
      HitByDrone(p, drone, n - 1);
      assert HitBy(p, drone, n) == Collided(HitBy(p, drone, n - 1), drone);
      assert 10.0 * ((n - 1) as real) + 10.0 == 10.0 * (n as real);
    }
  }

  /** A fresh player survives nine drone touches and is deactivated by the
      tenth; reset makes it active with full health again. */
  lemma TenHitsDeactivate(position: Vector2, drone: Entity)
    requires drone.kind == Drone
    ensures HitBy(Initial(0, position), drone, 9).active
    ensures !HitBy(Initial(0, position), drone, 10).active
    ensures Reset(HitBy(Initial(0, position), drone, 10)).active
  {
    HitByDrone(Initial(0, position), drone, 9);
    HitByDrone(Initial(0, position), drone, 10);
  }
}
