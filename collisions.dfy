/** Game::checkCollisions (backend/src/Game.cpp): the sweep over all index
    pairs i < j, with the virtual handleCollision hooks it calls. */
module Collisions {
  import opened Vectors
  import opened Entities
  import Players
  import Drones

  /** Both bodies belong to the same class. */
  predicate SameVariant(a: Body, b: Body) {
    (a.Base? <==> b.Base?) && (a.PlayerPart? <==> b.PlayerPart?) && (a.DronePart? <==> b.DronePart?)
  }

  /** What a collision hook may change: r is e with, at most, a lower active
      flag and (for a player) other health.  Identity, type, position,
      velocity and radius stay, and a sound player stays sound. */
  predicate Keeps(e: Entity, r: Entity) {
    && r.id == e.id && r.kind == e.kind && r.position == e.position
    && r.velocity == e.velocity && r.radius == e.radius
    && SameVariant(e.body, r.body)
    && (r.active ==> e.active)
    && (Players.Sound(e) ==> Players.Sound(r))
  }

  /** Keeps, element by element, over sequences of the same length. */
  predicate KeepsAll(es: seq<Entity>, rs: seq<Entity>) {
    |rs| == |es| && forall k :: 0 <= k < |es| ==> Keeps(es[k], rs[k])
  }

  lemma KeepsAllTransitive(a: seq<Entity>, b: seq<Entity>, c: seq<Entity>)
    requires KeepsAll(a, b) && KeepsAll(b, c)
    ensures KeepsAll(a, c)
  {
  }

  /** Entity::handleCollision, dispatched on the class of e: the player and
      drone overrides, and the base class's empty hook for anything else. */
  function Collide(e: Entity, other: Entity): (r: Entity)
    ensures Keeps(e, r)
    ensures e.body.Base? ==> r == e
  {
    match e.body
    case Base => e
    case PlayerPart(_, _, _, _) => Players.Collided(e, other)
    case DronePart(_, _, _, _) => Drones.Collided(e, other)
  }

  /** `distance(a, b) < a.radius + b.radius`, compared on squares. */
  predicate Overlap(a: Entity, b: Entity) {
    var s := a.radius + b.radius;
    s >= 0.0 && DistanceSquared(a.position, b.position) < s * s
  }

  /** Overlap is exactly the source's test: for d = distance(a, b),
      Overlap(a, b) holds iff d < a.radius + b.radius, whatever the radii. */
  lemma OverlapIffCloser(d: real, a: Entity, b: Entity)
    requires IsDistance(d, a.position, b.position)
    ensures Overlap(a, b) <==> d < a.radius + b.radius
  {
    var s := a.radius + b.radius;
    if s >= 0.0 {
      DistanceBelowIffSquared(d, a.position, b.position, s);
    }
  }

  /** The pair test does not depend on the order of the two entities. */
  lemma OverlapSymmetric(a: Entity, b: Entity)
    ensures Overlap(a, b) <==> Overlap(b, a)
  {
    DistanceSquaredSymmetric(a.position, b.position);
  }

  /** Overlap reads only position and radius, which no hook changes. */
  lemma OverlapKept(a: Entity, b: Entity, a': Entity, b': Entity)
    requires Keeps(a, a') && Keeps(b, b')
    ensures Overlap(a', b') <==> Overlap(a, b)
  {
  }

  /** The pair (i, j) is handled: both are active at the moment it is
      examined and they overlap. */
  predicate Hit(es: seq<Entity>, i: nat, j: nat)
    requires i < |es| && j < |es|
  {
    es[i].active && es[j].active && Overlap(es[i], es[j])
  }

  /** One pass of the inner loop body: skip the pair if either is inactive or
      they do not overlap; otherwise a.handleCollision(b), then
      b.handleCollision(a) with the a that handler left. */
  function PairStep(es: seq<Entity>, i: nat, j: nat): (r: seq<Entity>)
    requires i < j < |es|
    ensures KeepsAll(es, r)
    ensures forall k :: 0 <= k < |es| && k != i && k != j ==> r[k] == es[k]
    ensures !Hit(es, i, j) ==> r == es
  {
    if Hit(es, i, j) then
      var a := Collide(es[i], es[j]);
      var b := Collide(es[j], a);
      es[i := a][j := b]
    else
      es
  }

  /** The inner loop from j on, for a fixed i. */
  function Inner(es: seq<Entity>, i: nat, j: nat): (r: seq<Entity>)
    requires i < j <= |es|
    ensures KeepsAll(es, r)
    decreases |es| - j
  {
    if j == |es| then es
    else
      var next := PairStep(es, i, j);
      var r := Inner(next, i, j + 1);
      KeepsAllTransitive(es, next, r);
      r
  }

  /** The outer loop from i on. */
  function Outer(es: seq<Entity>, i: nat): (r: seq<Entity>)
    requires i <= |es|
    ensures KeepsAll(es, r)
    decreases |es| - i
  {
    if i == |es| then es
    else
      var next := Inner(es, i, i + 1);
      var r := Outer(next, i + 1);
      KeepsAllTransitive(es, next, r);
      r
  }

  /** The entity sequence after checkCollisions. */
  function Sweep(es: seq<Entity>): (r: seq<Entity>)
    ensures KeepsAll(es, r)
  {
    Outer(es, 0)
  }

  /** The pairs the inner loop hands to the hooks, in the order it does. */
  function InnerHits(es: seq<Entity>, i: nat, j: nat): seq<(nat, nat)>
    requires i < j <= |es|
    decreases |es| - j
  {
    if j == |es| then []
    else (if Hit(es, i, j) then [(i, j)] else []) + InnerHits(PairStep(es, i, j), i, j + 1)
  }

  /** The pairs the outer loop hands to the hooks, in order. */
  function OuterHits(es: seq<Entity>, i: nat): seq<(nat, nat)>
    requires i <= |es|
    decreases |es| - i
  {
    if i == |es| then []
    else InnerHits(es, i, i + 1) + OuterHits(Inner(es, i, i + 1), i + 1)
  }

  /** Every pair checkCollisions hands to the hooks during one call. */
  function SweepHits(es: seq<Entity>): seq<(nat, nat)> {
    OuterHits(es, 0)
  }

  /** Lexicographic order on index pairs: the order the loops visit them in. */
  predicate Before(p: (nat, nat), q: (nat, nat)) {
    p.0 < q.0 || (p.0 == q.0 && p.1 < q.1)
  }

  predicate StrictlyOrdered(hs: seq<(nat, nat)>) {
    forall a, b :: 0 <= a < b < |hs| ==> Before(hs[a], hs[b])
  }

  /** A handled pair of the inner loop: (i, k) with j <= k, both entities
      active in the sequence the loop started from, and overlapping. */
  predicate InnerHitOf(es: seq<Entity>, i: nat, j: nat, p: (nat, nat))
    requires i < |es|
  {
    p.0 == i && j <= p.1 < |es| && es[i].active && es[p.1].active && Overlap(es[i], es[p.1])
  }

  lemma {:induction false} InnerHitsSound(es: seq<Entity>, i: nat, j: nat)
    requires i < j <= |es|
    ensures forall p :: p in InnerHits(es, i, j) ==> InnerHitOf(es, i, j, p)
    ensures StrictlyOrdered(InnerHits(es, i, j))
    decreases |es| - j
  {
    if j < |es| {
      var next := PairStep(es, i, j);
      InnerHitsSound(next, i, j + 1);
      forall p | p in InnerHits(next, i, j + 1)
        ensures InnerHitOf(es, i, j, p)
      {
        assert InnerHitOf(next, i, j + 1, p);
        OverlapKept(es[i], es[p.1], next[i], next[p.1]);
      }
      var front: seq<(nat, nat)> := if Hit(es, i, j) then [(i, j)] else [];
      var back := InnerHits(next, i, j + 1);
      forall a, b | 0 <= a < b < |front + back|
        ensures Before((front + back)[a], (front + back)[b])
      {
        if a >= |front| {
          assert (front + back)[a] == back[a - |front|];
          assert (front + back)[b] == back[b - |front|];
        } else {
          assert back[b - |front|] in back;
        }
      }
    }
  }

  /** A handled pair of the outer loop from i on. */
  predicate HitOf(es: seq<Entity>, i: nat, p: (nat, nat)) {
    i <= p.0 < p.1 < |es| && es[p.0].active && es[p.1].active && Overlap(es[p.0], es[p.1])
  }

  lemma {:induction false} OuterHitsSound(es: seq<Entity>, i: nat)
    requires i <= |es|
    ensures forall p :: p in OuterHits(es, i) ==> HitOf(es, i, p)
    ensures StrictlyOrdered(OuterHits(es, i))
    decreases |es| - i
  {
    if i < |es| {
      var next := Inner(es, i, i + 1);
      InnerHitsSound(es, i, i + 1);
      OuterHitsSound(next, i + 1);
      forall p | p in OuterHits(next, i + 1)
        ensures HitOf(es, i, p)
      {
        assert HitOf(next, i + 1, p);
        OverlapKept(es[p.0], es[p.1], next[p.0], next[p.1]);
      }
      var front, back := InnerHits(es, i, i + 1), OuterHits(next, i + 1);
      forall a, b | 0 <= a < b < |front + back|
        ensures Before((front + back)[a], (front + back)[b])
      {
        if b < |front| {
        } else if a >= |front| {
          assert (front + back)[a] == back[a - |front|];
          assert (front + back)[b] == back[b - |front|];
        } else {
          assert front[a] in front;
          assert back[b - |front|] in back;
        }
      }
    }
  }

  /** Soundness of the sweep: every pair handed to the hooks is (i, j) with
      i < j, both entities active on entry and overlapping, and the pairs come
      in strictly increasing order, so no pair is handled twice. */
  lemma SweepHitsSound(es: seq<Entity>)
    ensures forall p :: p in SweepHits(es) ==> HitOf(es, 0, p)
    ensures StrictlyOrdered(SweepHits(es))
  {
    OuterHitsSound(es, 0);
  }

  /** The sequence the inner loop, started at j from es, has reached when it
      examines the pair (i, k): the pairs (i, j) .. (i, k - 1) are done. */
  function InnerVisit(es: seq<Entity>, i: nat, j: nat, k: nat): (r: seq<Entity>)
    requires i < j <= k < |es|
    ensures KeepsAll(es, r)
    decreases k - j
  {
    if k == j then es
    else
      var next := PairStep(es, i, j);
      var r := InnerVisit(next, i, j + 1, k);
      KeepsAllTransitive(es, next, r);
      r
  }

  /** The sequence the outer loop, started at i from es, has reached when it
      examines the pair (a, k): rows i .. a - 1 are done, and so are the pairs
      of row a before k. */
  function OuterVisit(es: seq<Entity>, i: nat, a: nat, k: nat): (r: seq<Entity>)
    requires i <= a < k < |es|
    ensures KeepsAll(es, r)
    decreases a - i
  {
    if a == i then InnerVisit(es, i, i + 1, k)
    else
      var next := Inner(es, i, i + 1);
      var r := OuterVisit(next, i + 1, a, k);
      KeepsAllTransitive(es, next, r);
      r
  }

  /** The entity sequence at the moment checkCollisions examines (i, j). */
  function Visit(es: seq<Entity>, i: nat, j: nat): (r: seq<Entity>)
    requires i < j < |es|
    ensures KeepsAll(es, r)
  {
    OuterVisit(es, 0, i, j)
  }

  /** The inner loop hands (i, k) to the hooks exactly when the pair is a hit
      in the sequence as the loop finds it on reaching k. */
  lemma {:induction false} InnerHitsExact(es: seq<Entity>, i: nat, j: nat, k: nat)
    requires i < j <= k < |es|
    ensures (i, k) in InnerHits(es, i, j) <==> Hit(InnerVisit(es, i, j, k), i, k)
    decreases k - j
  {
    var next := PairStep(es, i, j);
    InnerHitsSound(next, i, j + 1);
    if k > j {
      InnerHitsExact(next, i, j + 1, k);
    }
  }

  /** The outer loop hands (a, k) to the hooks exactly when the pair is a hit
      in the sequence as the loops find it on reaching (a, k). */
  lemma {:induction false} OuterHitsExact(es: seq<Entity>, i: nat, a: nat, k: nat)
    requires i <= a < k < |es|
    ensures (a, k) in OuterHits(es, i) <==> Hit(OuterVisit(es, i, a, k), a, k)
    decreases a - i
  {
    var next := Inner(es, i, i + 1);
    InnerHitsSound(es, i, i + 1);
    OuterHitsSound(next, i + 1);
    if a == i {
      InnerHitsExact(es, i, i + 1, k);
    } else {
      OuterHitsExact(next, i + 1, a, k);
    }
  }

  /** checkCollisions hands a pair p to the hooks exactly when p.0 < p.1 and
      both entities are active and overlap at the moment the loops reach p,
      whatever earlier hits did to them; and it hands each such pair over
      once, in increasing order. */
  lemma SweepHitsExact(es: seq<Entity>)
    ensures forall p: (nat, nat) :: p in SweepHits(es) <==> p.0 < p.1 < |es| && Hit(Visit(es, p.0, p.1), p.0, p.1)
    ensures StrictlyOrdered(SweepHits(es))
  {
    OuterHitsSound(es, 0);
    forall p: (nat, nat) | p.0 < p.1 < |es|
      ensures p in SweepHits(es) <==> Hit(Visit(es, p.0, p.1), p.0, p.1)
    {
      OuterHitsExact(es, 0, p.0, p.1);
    }
  }

  /** What the inner loop does after reaching k only narrows what it found. */
  lemma {:induction false} InnerVisitKept(es: seq<Entity>, i: nat, j: nat, k: nat)
    requires i < j <= k < |es|
    ensures KeepsAll(InnerVisit(es, i, j, k), Inner(es, i, j))
    decreases k - j
  {
    if k > j {
      InnerVisitKept(PairStep(es, i, j), i, j + 1, k);
    }
  }

  /** What the sweep does after reaching (a, k) only narrows what it found. */
  lemma {:induction false} OuterVisitKept(es: seq<Entity>, i: nat, a: nat, k: nat)
    requires i <= a < k < |es|
    ensures KeepsAll(OuterVisit(es, i, a, k), Outer(es, i))
    decreases a - i
  {
    var next := Inner(es, i, i + 1);
    if a == i {
      InnerVisitKept(es, i, i + 1, k);
      KeepsAllTransitive(InnerVisit(es, i, i + 1, k), next, Outer(next, i + 1));
    } else {
      OuterVisitKept(next, i + 1, a, k);
    }
  }

  /** A pair i < j that overlaps and whose two entities are both still active
      after the sweep was handed to the hooks: an entity active at the end was
      active when the pair was reached, and no hook moves an entity. */
  lemma SweepHitsComplete(es: seq<Entity>, i: nat, j: nat)
    requires i < j < |es| && Overlap(es[i], es[j])
    requires Sweep(es)[i].active && Sweep(es)[j].active
    ensures (i, j) in SweepHits(es)
  {
    var v := Visit(es, i, j);
    OuterVisitKept(es, 0, i, j);
    OverlapKept(es[i], es[j], v[i], v[j]);
    OuterHitsExact(es, 0, i, j);
  }

  /** A player and a drone alone: if both are active and overlap, the
      sweep leaves the player as one drone touch leaves it (10 health less)
      and the drone, which only reacts to projectiles, as it was; if they do
      not overlap, nothing changes. */
  lemma PlayerMeetsDrone(p: Entity, d: Entity)
    requires Players.IsPlayer(p) && Drones.IsDrone(d)
    ensures p.active && d.active && Overlap(p, d) ==> Sweep([p, d]) == [Players.Collided(p, d), d]
    ensures !Overlap(p, d) ==> Sweep([p, d]) == [p, d]
  {
    var hurt := Players.Collided(p, d);
    assert Collide(p, d) == hurt;
    OnlyProjectilesHurtDrones(d, hurt);
    TwoEntitySweep([p, d], PairStep([p, d], 0, 1));
  }

  lemma OnlyProjectilesHurtDrones(d: Entity, other: Entity)
    requires Drones.IsDrone(d) && other.kind != Projectile
    ensures Collide(d, other) == d
  {
  }

  /** A fresh player with a drone 10 units to its right overlaps it: the
      distance 10 is below the radii's sum 15 + 12. */
  lemma TouchOverlaps(p: Entity, d: Entity)
    requires p.position == Zero && d.position == Vector2(10.0, 0.0)
    requires p.radius == 15.0 && d.radius == 12.0
    ensures Overlap(p, d)
  {
    TenApart();
    SumOfRadii(p.radius, d.radius);
  }

  lemma TenApart()
    ensures DistanceSquared(Zero, Vector2(10.0, 0.0)) == 100.0
  {
    assert Vector2(10.0, 0.0).Sub(Zero) == Vector2(10.0, 0.0);
  }

  lemma SumOfRadii(a: real, b: real)
    requires a == 15.0 && b == 12.0
    ensures 100.0 < (a + b) * (a + b)
  {
  }

  /** With two entities the sweep is the single pair step (0, 1). */
  lemma TwoEntitySweep(es: seq<Entity>, after: seq<Entity>)
    requires |es| == 2 && after == PairStep(es, 0, 1)
    ensures Sweep(es) == after
  {
    assert Inner(es, 0, 1) == Inner(after, 0, 2) == after;
    assert Inner(after, 1, 2) == after;
    assert Outer(after, 1) == Outer(after, 2) == after;
  }
}
