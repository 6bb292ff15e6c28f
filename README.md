# Dodgeball engine model

This Dafny project models the C++ simulation engine of the dodgeball game under `backend/src`. It covers five parts:

- the `Vector2` value type;
- the `Entity` base class with its process-wide id counter;
- the `Player` and its four direction flags;
- the three kinds of `Drone`;
- the `Game`, which runs the MENU / PLAYING / GAME_OVER state machine.

Each PLAYING tick of the game does five things in order:

1. updates every entity;
2. runs the all-pairs circle collision sweep;
3. removes the inactive entities, keeping the player;
4. checks for game over;
5. spawns a drone at the arena edge when the spawn timer runs out.

Modules follow the source files:

| module | file | source |
|---|---|---|
| `Vectors` | `vector2.dfy` | `vector2.h` |
| `Entities` | `entity.dfy` | `Entity.h`, `Entity.cpp` |
| `Players` | `player.dfy` | `Player.h`, `Player.cpp` |
| `Drones` | `drone.dfy` | `Drone.h`, `Drone.cpp` |
| `Collisions` | `collisions.dfy` | `Game::checkCollisions` |
| `Reaping` | `reap.dfy` | `Game::removeInactiveEntities` |
| `Rules` | `rules.dfy` | the rest of `Game.cpp`, as functions on a `World` value |
| `Games` | `game.dfy` | the `Game` class |

**Entities.** Each entity is a value: a `datatype Entity` whose `body` is `Base`, a `PlayerPart` or a `DronePart`. An entity's mutating members are functions that return the updated value. The game keeps the entities in a `seq` field and writes the new value back at the same index. `m_player` is the first element of that sequence when it is a player (`PlayerFirst`):

- `initialize` pushes the player first;
- nothing is ever inserted before it;
- the reap keeps it.

**Shared state.** The source's process-wide state is held in small classes that games and drones share by reference:

- `Entities.IdCounter` holds `Entity::s_nextId`;
- `Drones.PatrolClock` holds the function-local `static float patrolTimer` of `Drone::patrol`;
- `Games.SpawnClock` holds the `static float spawnTimer` of `Game::update`.

**Proofs.** `Games.Game` holds its state, its entity list and references to those three objects. Its public methods and the spawn and update loops are proved against a function in `Rules` on a `World` snapshot, for example `Snapshot() == Tick(old(Snapshot()), …)`. The collision loops (`CheckCollisions`, `CheckRow`, `CheckPair`) are proved against `Collisions.Sweep`, `Collisions.Inner` and `Collisions.PairStep`, and `RemoveInactiveEntities` against `Reaping.Reap`; these functions work on the entity sequence. Lemmas about those functions state what the game promises, and the invariant `WellFormed` is preserved by every public operation.

**Numbers and randomness.**
- `float` is modelled as `real`.
- `std::sqrt` cannot be defined in Dafny. A length is therefore described by its defining property: `IsSqrt(r, x)` means `r >= 0` and `r * r == x`. Where the player normalises a diagonal direction, the root of 2 is a parameter `sqrtTwo` with `IsSqrt(sqrtTwo, 2.0)`.
- Every `std::rand()` result is an input. A `Roll(kind, side, offset)` carries the three draws that one spawn makes, in the order the source makes them.

**Behaviour of the code worth knowing.**
- `patrolTimer` is one static shared by all patrolling drones of the process, not a per-drone timer. Every patroller's update advances the same timer, and the one update that pushes it past 2 s flips only that drone (`Drones.PatrolTimerShared`, `Drones.PatrolTurnsExactlyOnTimeout`).
- The spawn timer is reset to 0 (not reduced by 2) and compared with a strict `>`. With dt = 0.5 a drone therefore spawns on the fifth tick, not the fourth (`Rules.HalfSecondTicksSpawnOnTheFifth`).
- A chaser ignores the player's position. It always runs to the right at its speed.
- `initialize` does not reset the shared timers or the id counter.

## Model

| member | source | states |
|---|---|---|
| Vectors.Vector2.Scale | backend/src/vector2.h:16 | `v * 0` is the zero vector and `v * 1` is `v` |
| Vectors.Vector2.Add | backend/src/vector2.h:14 | component-wise sum; Sub undoes it (`Vectors.AddSubCancel`, `Vectors.SubAddCancel`) |
| Vectors.Vector2.Sub | backend/src/vector2.h:15 | component-wise difference; zero exactly for equal vectors and undone by Add (`Vectors.SubIsZero`, `Vectors.SubAddCancel`) |
| Vectors.Vector2.Div | backend/src/vector2.h:17 | dividing by a non-zero s and scaling back by s gives the original vector |
| Vectors.Vector2.LengthSquared | backend/src/vector2.h:21 | the squared length is never negative |
| Vectors.LengthSquaredZero | backend/src/vector2.h:21 | lengthSquared(v) equals dot(v, v), and it is 0 exactly for the zero vector |
| Vectors.Vector2.Normalized | backend/src/vector2.h:22-34 | normalized leaves the zero vector unchanged; a non-zero vector becomes one of squared length 1 that scales back to the original by its length |
| Vectors.NormalizeCases | backend/src/vector2.h:20-28 | the length is positive exactly for a non-zero vector, and dividing by it gives squared length 1 |
| Vectors.UnitAfterDivision | backend/src/vector2.h:24-27 | dividing both components by the length gives a unit vector that scales back to the input |
| Vectors.ScaleLengthSquared | backend/src/vector2.h:16-21 | scaling by s multiplies the squared length by s * s |
| Vectors.ScaleZero | backend/src/vector2.h:16 | the zero vector scaled by anything stays zero |
| Vectors.SqrtUnique | backend/src/vector2.h:20 | the non-negative square root that length() returns is unique |
| Vectors.DistanceSquared | backend/src/vector2.h:36-38 | the squared distance between two points is never negative |
| Vectors.DistanceSquaredSymmetric | backend/src/vector2.h:36-38 | the squared distance does not depend on the order of the points |
| Vectors.DistanceSquaredZero | backend/src/vector2.h:36-38 | the squared distance is 0 exactly when the points coincide |
| Vectors.SubIsZero | backend/src/vector2.h:15 | b - a is the zero vector exactly when a == b |
| Vectors.AddSubCancel | backend/src/vector2.h:14-15 | (a + b) - b == a |
| Vectors.SubAddCancel | backend/src/vector2.h:14-15 | (a - b) + b == a |
| Vectors.SubSelf | backend/src/vector2.h:15 | a - a is the zero vector |
| Vectors.DotSymmetric | backend/src/vector2.h:40-42 | dot(a, b) == dot(b, a) |
| Vectors.Dot | backend/src/vector2.h:40-42 | the dot product; symmetric, and dot(v, v) is the squared length (`Vectors.DotSymmetric`, `Vectors.LengthSquaredZero`) |
| Vectors.DistanceSymmetric | backend/src/vector2.h:36-38 | distance(a, b) == distance(b, a) |
| Vectors.DistanceToSelf | backend/src/vector2.h:36-38 | distance(a, a) == 0 |
| Vectors.DistanceBelowIffSquared | backend/src/vector2.h:36-38 | for s >= 0, distance(a, b) < s exactly when the squared distance is below s * s |
| Entities.Fresh | backend/src/Entity.cpp:6-13 | a new entity has the given id, type, position and radius, zero velocity, and is active |
| Entities.IdCounter.constructor | backend/src/Entity.cpp:4 | the id counter starts at 0 |
| Entities.IdCounter.Create | backend/src/Entity.cpp:6-13 | a construction takes the counter's value as its id and advances the counter by one, so ids run n, n + 1, … and are never reused |
| Entities.Integrate | backend/src/Entity.cpp:15-17 | the base update changes no field but the position |
| Entities.IntegrateDisplacement | backend/src/Entity.cpp:15-17 | the base update moves the position by velocity * dt |
| Entities.IntegrateAdditive | backend/src/Entity.cpp:15-17 | with the velocity unchanged, update(dt1) then update(dt2) equals update(dt1 + dt2) |
| Entities.IntegrateAtRest | backend/src/Entity.cpp:15-17 | with zero velocity the base update leaves the entity as it is |
| Entities.IntegrateTimesLinear | backend/src/Entity.cpp:15-17 | n updates of dt reach where one update of n * dt does |
| Players.AllReleased | backend/src/Player.cpp:9-14 | a new player's input map has every one of the five flags, all false |
| Players.Initial | backend/src/Player.cpp:4-15 | a new player has radius 15, speed 200, health 100, score 0, zero velocity, all flags released, and is active |
| Players.Create | backend/src/Player.cpp:4-15 | the constructor takes the next id from the counter and builds the initial player |
| Players.Axis | backend/src/Player.cpp:21-32 | one axis of the direction is 0 exactly when both or neither of its flags are set, and is +1 when only the positive flag is set |
| Players.Heading | backend/src/Player.cpp:19-32 | the direction the four flags build has both components in {-1, 0, 1}; `Players.Direction` proves the source's `+=`/`-=` steps equal it |
| Players.GridLengthSquared | backend/src/Player.cpp:19-35 | the built direction has squared length 0, 1 (one axis) or 2 (diagonal) |
| Players.GridLength | backend/src/Player.cpp:35-37 | the length used to normalise the direction is its true length |
| Players.Velocity | backend/src/Player.cpp:17-40 | no flag gives zero velocity, and an axis whose flags cancel has a zero velocity component |
| Players.NormalizedHeading | backend/src/Player.cpp:35-40 | normalising the grid direction and scaling by the speed gives the direction scaled by speed / sqrt 2 on a diagonal and by speed otherwise |
| Players.VelocityMagnitude | backend/src/Player.cpp:35-40 | whenever a direction is pressed the velocity has magnitude equal to the speed, diagonals included |
| Players.GridScaleMagnitude | backend/src/Player.cpp:35-40 | a non-zero grid direction scaled as the update scales it has squared length speed squared |
| Players.StraightMagnitude | backend/src/Player.cpp:40 | a unit direction scaled by s has squared length s * s |
| Players.DiagonalMagnitude | backend/src/Player.cpp:35-40 | a diagonal direction scaled by s / sqrt 2 has squared length s * s |
| Players.UnitThenScale | backend/src/Player.cpp:34-40 | normalising the direction when it is non-zero and then scaling by the speed gives the closed form of the velocity |
| Players.Updated | backend/src/Player.cpp:17-44 | the update sets the velocity from the flags, moves by velocity * dt and changes nothing else |
| Players.Direction | backend/src/Player.cpp:19-32 | the step-by-step direction is the one the flags ask for |
| Players.Update | backend/src/Player.cpp:17-44 | the imperative update computes exactly the specified new player |
| Players.Collided | backend/src/Player.cpp:46-56 | a drone hit lowers health by exactly 10 and leaves the player active exactly when it was active and health stays above 0; it never reactivates; any other kind changes nothing |
| Players.SetInput | backend/src/Player.cpp:58-60 | flag i becomes p, every other flag and field is unchanged |
| Players.Reset | backend/src/Player.cpp:62-66 | health 100, score 0, active again; nothing else changes |
| Players.SetInputLastWriteWins | backend/src/Player.cpp:58-60 | a second setInput on the same flag overrides the first, so repeating a call changes nothing |
| Players.NoInputStandsStill | backend/src/Player.cpp:19-43 | with no flag set the velocity is zero and the position does not change |
| Players.OppositeFlagsCancel | backend/src/Player.cpp:21-32 | Up with Down, or Left with Right, cancel to a zero velocity component |
| Players.RightForOneSecond | backend/src/Player.cpp:30-43 | a new player at (0, 0) holding Right for one second of update ends at (200, 0) |
| Players.HitBy | backend/src/Player.cpp:46-52 | repeated drone hits keep the entity a player |
| Players.HitByDrone | backend/src/Player.cpp:47-52 | n drone hits lower health by 10 * n, and the player is active exactly when it was and health is still above 0 |
| Players.TenHitsDeactivate | backend/src/Player.cpp:46-66 | a new player survives nine drone hits, is deactivated by the tenth, and reset reactivates it |
| Drones.Initial | backend/src/Drone.cpp:5-25 | radius 12, fireTimer 0, zero velocity, active; Chaser 150 / 0, Patroller 100 / 2, Shooter 50 / 1 |
| Drones.SpeedOf | backend/src/Drone.cpp:11-24 | the per-type speed of the constructor's switch is positive (150, 100, 50) |
| Drones.FireRateOf | backend/src/Drone.cpp:11-24 | the per-type fire rate is never negative and is 0 exactly for a chaser, which does not shoot |
| Drones.Create | backend/src/Drone.cpp:5-25 | the constructor takes the next id from the counter and builds the initial drone |
| Drones.Chase | backend/src/Drone.cpp:58-62 | the chaser's velocity becomes (speed, 0), nothing else changes |
| Drones.Patrolled | backend/src/Drone.cpp:64-77 | the shared timer resets to 0 once it passes 2 and otherwise grows by dt; only the velocity changes, and it ends at squared length at least 0.1 or at (speed, 0) |
| Drones.PatrolVelocity | backend/src/Drone.cpp:69-76 | the velocity ends with squared length at least 0.1 or at (speed, 0); a drone already moving that fast just has x negated on a flip and is otherwise left as it was |
| Drones.FlipKeepsLengthSquared | backend/src/Drone.cpp:70 | negating velocity.x keeps its squared length |
| Drones.PatrolRestartsStuckDrone | backend/src/Drone.cpp:74-76 | a patroller whose velocity has squared length below 0.1 restarts at (speed, 0) |
| Drones.PatrolTurnsExactlyOnTimeout | backend/src/Drone.cpp:66-72 | a moving patroller has its x velocity negated exactly on the update that takes the timer past 2 |
| Drones.PatrolTimerBounded | backend/src/Drone.cpp:66-72 | with dt >= 0 the shared timer stays within [0, 2] |
| Drones.PatrolTimerShared | backend/src/Drone.cpp:66-67 | two patrollers updated in the same frame both advance the one shared timer |
| Drones.PatrolClock.constructor | backend/src/Drone.cpp:66 | the static timer starts at 0 |
| Drones.PatrolClock.Patrol | backend/src/Drone.cpp:64-77 | the imperative patrol updates the drone and the shared timer as specified |
| Drones.Shoot | backend/src/Drone.cpp:79-90 | the fire timer counts down by dt and resets to fireRate exactly when it reaches 0; nothing else changes |
| Drones.ShootKeepsTimerInRange | backend/src/Drone.cpp:79-86 | with dt >= 0, fireRate > 0 and a fire timer no higher than fireRate, the fire timer ends in (0, fireRate] |
| Drones.ShootTimes | backend/src/Drone.cpp:79-90 | repeated shooting keeps the entity a drone |
| Drones.ShootTimesInRange | backend/src/Drone.cpp:79-86 | with dt >= 0, fireRate > 0 and a fire timer no higher than fireRate, the fire timer is in (0, fireRate] after any n >= 1 shots |
| Drones.Updated | backend/src/Drone.cpp:27-49 | the update keeps the type, speed, fire rate and every other field but position, velocity and fire timer; moves by velocity * dt; a chaser's velocity becomes (speed, 0), a patroller's velocity and the shared timer are what `Patrolled` gives, a shooter keeps its velocity; a patroller or shooter with a positive fire rate gets `Shoot`'s fire timer and every other drone keeps its timer; only a patroller touches the shared timer |
| Drones.ChaserRunsRight | backend/src/Drone.cpp:58-62 | a chaser's update sets the velocity to (speed, 0) and advances x by speed * dt |
| Drones.ChaserNeverFires | backend/src/Drone.cpp:30-32 | a chaser never shoots, so its fire timer stays 0 |
| Drones.ShooterStaysPut | backend/src/Drone.cpp:39-48 | a shooter never assigns a velocity, so at rest it never moves |
| Drones.Update | backend/src/Drone.cpp:27-49 | the imperative update computes the specified drone and shared timer |
| Drones.Collided | backend/src/Drone.cpp:51-56 | a projectile deactivates the drone; anything else leaves it as it was |
| Collisions.Collide | backend/src/Entity.cpp:19-22 | the virtual handleCollision keeps id, type, position and radius; the base hook changes nothing |
| Collisions.KeepsAllTransitive | backend/src/Game.cpp:100-120 | what collisions keep is kept across several of them |
| Collisions.OverlapIffCloser | backend/src/Game.cpp:111-114 | the squared test agrees with the source's `distance < ra + rb` |
| Collisions.Overlap | backend/src/Game.cpp:111-114 | the circle test on squares; `Collisions.OverlapIffCloser` proves it equals `distance < ra + rb` for all radii |
| Collisions.OverlapSymmetric | backend/src/Game.cpp:111-114 | the overlap test does not depend on the order of the pair |
| Collisions.OverlapKept | backend/src/Game.cpp:111-117 | a collision never changes whether two entities overlap |
| Collisions.PairStep | backend/src/Game.cpp:102-118 | one pair changes only entities i and j, and nothing when it is skipped or apart |
| Collisions.Inner | backend/src/Game.cpp:101-119 | the inner loop keeps every entity's identity and shape |
| Collisions.Outer | backend/src/Game.cpp:100-120 | the outer loop keeps every entity's identity and shape |
| Collisions.Sweep | backend/src/Game.cpp:98-121 | checkCollisions keeps every entity's identity and shape |
| Collisions.InnerHitsSound | backend/src/Game.cpp:101-118 | every pair of the inner loop that collides has both members active and overlapping, in increasing j |
| Collisions.OuterHitsSound | backend/src/Game.cpp:100-120 | every colliding pair has i < j, both active on entry to the outer loop and overlapping, visited in lexicographic order |
| Collisions.SweepHitsSound | backend/src/Game.cpp:98-121 | each pair the sweep collides is an i < j pair, active on entry to the sweep and overlapping, and no pair is visited twice |
| Collisions.InnerHitsExact | backend/src/Game.cpp:101-118 | the inner loop hands (i, k) to the hooks exactly when both are active and overlap in the sequence as the loop finds it on reaching k |
| Collisions.OuterHitsExact | backend/src/Game.cpp:100-120 | the outer loop hands (a, k) to the hooks exactly when both are active and overlap in the sequence as the loops find it on reaching (a, k) |
| Collisions.InnerHits | backend/src/Game.cpp:101-118 | the pairs of one row handed to the hooks, in order; `Collisions.InnerHitsSound` and `Collisions.InnerHitsExact` characterise them |
| Collisions.OuterHits | backend/src/Game.cpp:100-120 | the pairs of the rows from i on handed to the hooks, in order; `Collisions.OuterHitsSound` and `Collisions.OuterHitsExact` characterise them |
| Collisions.SweepHits | backend/src/Game.cpp:98-121 | every pair checkCollisions hands to the hooks, in call order; `Collisions.SweepHitsExact` states exactly which, each once |
| Collisions.SweepHitsExact | backend/src/Game.cpp:98-121 | a pair goes to both hooks exactly when it is i < j and both are active and overlapping at the moment the loops examine it, whatever earlier hits did to them, and each such pair goes exactly once, in increasing order |
| Collisions.InnerVisitKept | backend/src/Game.cpp:101-119 | from the sequence the inner loop finds on reaching k to the one it leaves, every entity keeps identity and shape and none is reactivated |
| Collisions.OuterVisitKept | backend/src/Game.cpp:100-120 | from the sequence the sweep finds on reaching (a, k) to the one it leaves, every entity keeps identity and shape and none is reactivated |
| Collisions.Visit | backend/src/Game.cpp:100-104 | the sequence at the moment (i, j) is examined keeps every entity's identity and shape from entry, and reactivates none |
| Collisions.SweepHitsComplete | backend/src/Game.cpp:98-121 | an overlapping pair whose members are both still active after the sweep was collided (a consequence of SweepHitsExact) |
| Collisions.PlayerMeetsDrone | backend/src/Game.cpp:111-117 | a player touching a drone loses 10 health and the drone is unharmed; apart, nothing happens |
| Collisions.OnlyProjectilesHurtDrones | backend/src/Drone.cpp:51-56 | a drone is unchanged by a collision with anything but a projectile |
| Collisions.TouchOverlaps | backend/src/Game.cpp:111-114 | a player and a drone 10 apart overlap (10 < 15 + 12) |
| Collisions.TwoEntitySweep | backend/src/Game.cpp:100-101 | with two entities the sweep is the single pair (0, 1) |
| Reaping.KeepActive | backend/src/Game.cpp:135-141 | the filter never grows the list and keeps only active entities |
| Reaping.KeepActiveExtend | backend/src/Game.cpp:128-131 | the filter of one more element adds it when it is active |
| Reaping.KeepActiveIsStableFilter | backend/src/Game.cpp:135-141 | the survivors are exactly the active entities, at strictly increasing original positions, in their original order |
| Reaping.StableFilterStep | backend/src/Game.cpp:135-141 | the inductive step of the stable-filter property when the last entity survives |
| Reaping.KeepActiveMembership | backend/src/Game.cpp:135-141 | an entity survives exactly when it was in the list and is active |
| Reaping.KeepActiveConcat | backend/src/Game.cpp:128-141 | the filter distributes over concatenation |
| Reaping.KeepActiveOfActive | backend/src/Game.cpp:135-141 | a list without inactive entities is left as it is |
| Reaping.KeepActiveIdempotent | backend/src/Game.cpp:135-141 | filtering twice is filtering once |
| Reaping.KeepActiveDistinct | backend/src/Game.cpp:135-141 | distinct ids stay distinct |
| Reaping.Reap | backend/src/Game.cpp:123-143 | the reap never grows the list |
| Reaping.ReapOutcome | backend/src/Game.cpp:123-133 | with the player first, the player stays first and unchanged, every other survivor is active, and the survivors are exactly the active entities after it |
| Reaping.ReapWithoutPlayer | backend/src/Game.cpp:134-142 | without the player every inactive entity goes |
| Reaping.ReapIdempotent | backend/src/Game.cpp:123-143 | a second reap right after the first removes nothing |
| Reaping.SubsequenceDistinct | backend/src/Game.cpp:128-141 | entities taken at strictly increasing positions keep distinct ids |
| Reaping.TailDistinct | backend/src/Game.cpp:127-133 | the entities after the player keep distinct ids |
| Reaping.ConsDistinct | backend/src/Game.cpp:127-133 | the player in front of survivors with other ids keeps ids distinct |
| Reaping.ReapDistinct | backend/src/Game.cpp:123-143 | the reap keeps ids distinct |
| Rules.DroneTypeOf | backend/src/Game.cpp:28 | `rand() % 3` picks Chaser, Patroller, Shooter for remainders 0, 1, 2 |
| Rules.SpawnPosition | backend/src/Game.cpp:76-91 | the drone is on the arena edge: top, right, bottom or left for side 0 to 3, at the coordinate roll modulo the width or height |
| Rules.EveryEdgePointReachable | backend/src/Game.cpp:76-91 | every whole-numbered point of the border is some roll's spawn position |
| Rules.Spawn | backend/src/Game.cpp:73-96 | exactly one drone with the next id is appended; nothing else changes |
| Rules.SpawnAll | backend/src/Game.cpp:27-29 | n spawns append n drones in roll order with consecutive ids and change nothing else |
| Rules.SpawnRoll | backend/src/Game.cpp:73-96 | one spawnDrone with its rand() draws in the source's order: kind % 3, then side % 4, then the offset along that edge; `Rules.Spawn` and `Rules.SpawnPosition` state the outcome |
| Rules.UpdateOne | backend/src/Game.cpp:38-40 | an entity's update keeps its id, type, radius, activity and the player's own fields; only a drone touches the patrol timer |
| Rules.UpdateAll | backend/src/Game.cpp:38-40 | the update loop keeps the length, and each entity changes only as its own update changes it |
| Rules.UpdateAllExtend | backend/src/Game.cpp:38-40 | the update loop over one more entity adds that entity's update, with the timer threaded through |
| Rules.NextSpawnTimer | backend/src/Game.cpp:54-58 | the spawn timer resets to 0 once it passes 2 and otherwise grows by dt |
| Rules.Tick | backend/src/Game.cpp:32-35 | update does nothing outside PLAYING |
| Rules.Input | backend/src/Game.cpp:63-71 | PLAYING forwards to the player only; MENU + FIRE pressed initializes; GAME_OVER + FIRE pressed goes to MENU; any other input outside PLAYING changes nothing |
| Rules.Start | backend/src/Game.cpp:7-10 | a new game is in MENU with no entities, and the invariant holds |
| Rules.PopulatedShape | backend/src/Game.cpp:32-51 | a list of the same shape as a populated one is populated |
| Rules.UpdatePopulated | backend/src/Game.cpp:38-40 | the update loop keeps the player first and the list populated |
| Rules.SweepPopulated | backend/src/Game.cpp:98-121 | the collision sweep keeps the player first and the list populated |
| Rules.ReapPopulated | backend/src/Game.cpp:123-133 | the reap keeps the player first and the list populated, with every drone active |
| Rules.SpawnPopulated | backend/src/Game.cpp:73-96 | spawning keeps the list populated |
| Rules.InitializedShape | backend/src/Game.cpp:17-30 | after initialize the game is PLAYING with 6 entities: the player at (400, 300), then 5 drones on the edge with the next ids; the invariant holds |
| Rules.Initialized | backend/src/Game.cpp:17-30 | initialize as a function: the player, then one drone per roll; `Rules.InitializedShape` and `Rules.InitializedWellFormed` state the outcome |
| Rules.InitializedDrones | backend/src/Game.cpp:26-29 | the five drones after the player are the rolled ones on the edge |
| Rules.InitializedWellFormed | backend/src/Game.cpp:17-30 | initialize establishes the invariant |
| Rules.InputPreservesWellFormed | backend/src/Game.cpp:63-71 | handleInput keeps the invariant |
| Rules.TickOutcome | backend/src/Game.cpp:36-61 | after a PLAYING tick the same player is first and the only entity that may be inactive; the state is GAME_OVER exactly when the player is inactive, in particular when its health is at most 0 |
| Rules.SettledPopulated | backend/src/Game.cpp:38-46 | update, sweep and reap keep the player first and leave no other entity inactive |
| Rules.Settled | backend/src/Game.cpp:37-46 | the list after the update loop, the sweep and the reap; `Rules.SettledPopulated` and `Rules.TickOutcome` state that only the player, kept first, can be inactive in it |
| Rules.SpawnKeepsSettled | backend/src/Game.cpp:57-60 | a spawn after the reap keeps the invariant and the player |
| Rules.TickPreservesWellFormed | backend/src/Game.cpp:32-61 | update keeps the invariant in every state |
| Rules.TickSpawn | backend/src/Game.cpp:53-60 | once the timer passes 2 it resets to 0 and one drone is appended on the edge with the next id; otherwise the timer grows by dt and nothing is appended |
| Rules.SpawnTimerRamp | backend/src/Game.cpp:54-58 | from 0, while n ticks of dt > 0 stay within 2 the timer after each tick k is k * dt |
| Rules.HalfSecondTicksSpawnOnTheFifth | backend/src/Game.cpp:54-58 | with dt = 0.5 the timer is 2 after four ticks and drops to 0 on the fifth |
| Games.SpawnClock.constructor | backend/src/Game.cpp:54 | the static spawn timer starts at 0 |
| Games.UpdateEntity | backend/src/Game.cpp:39 | the virtual update computes the specified entity and patrol timer |
| Games.CompactionStep | backend/src/Game.cpp:128-133 | moving a survivor down extends the kept prefix by it and leaves the unread tail alone |
| Games.RemoveIf | backend/src/Game.cpp:127-141 | remove_if and erase over the list from a start index keep the prefix and the active entities after it, in order |
| Games.MoveSurvivor | backend/src/Game.cpp:128-131 | one step of remove_if keeps the compaction invariant |
| Games.CompactionDone | backend/src/Game.cpp:123-143 | once the whole list is read the kept prefix is the reap |
| Games.Game.constructor | backend/src/Game.cpp:7-13 | a new game is in MENU with no entities in an 800 x 600 world, sharing the given counter and timers |
| Games.Game.SpawnDrone | backend/src/Game.cpp:73-96 | spawnDrone appends the specified drone and advances the id counter |
| Games.Game.Initialize | backend/src/Game.cpp:17-30 | initialize produces the specified world and establishes the invariant |
| Games.Game.SpawnDrones | backend/src/Game.cpp:27-29 | the spawn loop appends one drone per roll |
| Games.Game.CheckCollisions | backend/src/Game.cpp:98-121 | the nested loops compute the specified sweep and leave the state alone |
| Games.Game.CheckRow | backend/src/Game.cpp:101-119 | the inner loop for one i computes the specified row |
| Games.Game.CheckPair | backend/src/Game.cpp:102-118 | one pair: skipped when either is inactive, otherwise the two hooks run in order when the entities overlap |
| Games.Game.RemoveInactiveEntities | backend/src/Game.cpp:123-143 | the in-place compaction computes the specified reap |
| Games.Game.UpdateEntities | backend/src/Game.cpp:38-40 | the loop over the entities computes the specified update and patrol timer |
| Games.Game.Update | backend/src/Game.cpp:32-61 | update computes the specified tick and keeps the invariant |
| Games.Game.Step | backend/src/Game.cpp:36-60 | one PLAYING frame computes the specified tick |
| Games.Game.HandleInput | backend/src/Game.cpp:63-71 | handleInput computes the specified transition and keeps the invariant |

## Left out

- IEEE `float` rounding, infinities and NaN: numbers are exact reals.
- The actual values of `std::sqrt`: lengths and distances are described by `IsSqrt`, and the root of 2 is a parameter.
- Vectors.Vector2.Div: requires a non-zero divisor, because IEEE division by zero has no counterpart over the reals.
- `std::srand(std::time(nullptr))` and the `std::rand()` generator: random draws are inputs (`Roll`).
- The width of `int`: `s_nextId` is unbounded, so the wrap-around after 2^31 constructions is not modelled.
- The default branch of `spawnDrone`'s switch, which leaves the position default-constructed, cannot be taken because `rand() % 4` lies in 0..3 (`side % 4` over non-negative draws).
- Entity aliasing: entities are values. The `shared_ptr` identity that `std::find(…, m_player)` compares is modelled as "the first element is a player" (`PlayerFirst`).
- Entity mutation in place: the members of `Entity`, `Player` and `Drone` that assign fields are functions returning the new value. The game writes that value back into its list. `normalize` in place is `Normalized` assigned back.
- Entity and Drone `update` and `handleCollision` are called through virtual dispatch. The model uses a match on the body instead (`Games.UpdateEntity`, `Collisions.Collide`).
- Projectile firing is a stub in the source with no spawn, and power-up collection is an empty hook. Both stay inert.
- The getters of `Game`, `Entity`, `Player` and `Drone` are plain field reads and have no rows of their own.
- The destructor `Game::~Game` is left out: it is defaulted.
- `WasmBindings.cpp`, the JavaScript module loader, the React components and the input hook are not part of this model. They are foreign bindings, I/O and UI.
- Collisions.OverlapIffCloser: the collision test is stated as `DistanceSquared < (ra + rb)^2` with `ra + rb >= 0`. It agrees with the source's `distance < ra + rb` for all radii; the `ra + rb >= 0` guard only stands in for the fact that a distance is never negative.
