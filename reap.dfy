/** Game::removeInactiveEntities (backend/src/Game.cpp): remove_if and erase
    over the entity list, keeping the player. */
module Reaping {
  import opened Entities
  import Players

  /** No two entities share an id. */
  predicate DistinctIds(es: seq<Entity>) {
    forall a, b :: 0 <= a < b < |es| ==> es[a].id != es[b].id
  }

  /** remove_if(!isActive) followed by erase: the active entities, in their
      order.  Written from the back, the way a left-to-right compaction builds
      it. */
  function KeepActive(es: seq<Entity>): (r: seq<Entity>)
    ensures |r| <= |es|
    ensures forall k :: 0 <= k < |r| ==> r[k].active
    decreases |es|
  {
    if es == [] then []
    else KeepActive(es[..|es| - 1]) + (if es[|es| - 1].active then [es[|es| - 1]] else [])
  }

  /** One more element of a slice: what survives of es[i..j + 1] is what
      survives of es[i..j], then es[j] if it is active. */
  lemma KeepActiveExtend(es: seq<Entity>, i: nat, j: nat)
    requires i <= j < |es|
    ensures KeepActive(es[i..j + 1]) == KeepActive(es[i..j]) + (if es[j].active then [es[j]] else [])
  {
    assert es[i..j + 1][..j - i] == es[i..j];
  }

  /** The positions of the active entities, in increasing order. */
  function ActiveIndices(es: seq<Entity>): seq<nat>
    decreases |es|
  {
    if es == [] then []
    else ActiveIndices(es[..|es| - 1]) + (if es[|es| - 1].active then [|es| - 1] else [])
  }

  /** KeepActive(es) is es restricted to its active positions, taken in
      increasing order: its k-th element is es[idx[k]], the positions idx
      strictly increase, and a position is among them exactly when its
      entity is active.  So the survivors keep their relative order and
      nothing active is lost. */
  lemma {:induction false} KeepActiveIsStableFilter(es: seq<Entity>)
    ensures var idx := ActiveIndices(es);
      && |idx| == |KeepActive(es)|
      && (forall k :: 0 <= k < |idx| ==> idx[k] < |es| && KeepActive(es)[k] == es[idx[k]])
      && (forall a, b :: 0 <= a < b < |idx| ==> idx[a] < idx[b])
      && (forall i :: 0 <= i < |es| ==> (i in idx <==> es[i].active))
    decreases |es|
  {
    if es != [] {
      var n := |es| - 1;
      var front := es[..n];
      KeepActiveIsStableFilter(front);
      var fi, fk := ActiveIndices(front), KeepActive(front);
      assert forall k :: 0 <= k < |fi| ==> fi[k] < n;
      if es[n].active {
        StableFilterStep(es, fi, fk);
      } else {
        assert ActiveIndices(es) == fi && KeepActive(es) == fk;
        forall i | 0 <= i < |es|
          ensures i in fi <==> es[i].active
        {
          if i < n {
            assert es[i] == front[i];
          }
        }
      }
    }
  }

  /** The inductive step of KeepActiveIsStableFilter when the last entity
      is active. */
  lemma StableFilterStep(es: seq<Entity>, fi: seq<nat>, fk: seq<Entity>)
    requires |es| > 0 && es[|es| - 1].active
    requires fi == ActiveIndices(es[..|es| - 1]) && fk == KeepActive(es[..|es| - 1])
    requires |fi| == |fk|
    requires forall k :: 0 <= k < |fi| ==> fi[k] < |es| - 1 && fk[k] == es[..|es| - 1][fi[k]]
    requires forall a, b :: 0 <= a < b < |fi| ==> fi[a] < fi[b]
    requires forall i :: 0 <= i < |es| - 1 ==> (i in fi <==> es[..|es| - 1][i].active)
    ensures var idx := ActiveIndices(es);
      && |idx| == |KeepActive(es)|
      && (forall k :: 0 <= k < |idx| ==> idx[k] < |es| && KeepActive(es)[k] == es[idx[k]])
      && (forall a, b :: 0 <= a < b < |idx| ==> idx[a] < idx[b])
      && (forall i :: 0 <= i < |es| ==> (i in idx <==> es[i].active))
  {
    var n := |es| - 1;
    var idx := fi + [n];
    assert ActiveIndices(es) == idx;
    assert KeepActive(es) == fk + [es[n]];
    forall k | 0 <= k < |idx|
      ensures idx[k] < |es| && (fk + [es[n]])[k] == es[idx[k]]
    {
      if k < |fi| {
        assert es[..n][fi[k]] == es[fi[k]];
      }
    }
    forall i | 0 <= i < |es|
      ensures i in idx <==> es[i].active
    {
      if i < n {
        assert es[..n][i] == es[i];
        assert i in idx <==> i in fi;
      }
    }
  }

  /** An entity survives exactly when it was there and is active. */
  lemma {:induction false} KeepActiveMembership(es: seq<Entity>, e: Entity)
    ensures e in KeepActive(es) <==> e in es && e.active
    decreases |es|
  {
    if es != [] {
      var front := es[..|es| - 1];
      KeepActiveMembership(front, e);
      assert es == front + [es[|es| - 1]];
    }
  }

  /** Filtering distributes over concatenation: what survives of a + b is
      what survives of a followed by what survives of b. */
  lemma {:induction false} KeepActiveConcat(a: seq<Entity>, b: seq<Entity>)
    ensures KeepActive(a + b) == KeepActive(a) + KeepActive(b)
    decreases |b|
  {
    if b == [] {
      assert a + b == a;
    } else {
      var front, last := b[..|b| - 1], b[|b| - 1];
      var tail := if last.active then [last] else [];
      assert (a + b)[..|a + b| - 1] == a + front;
      assert (a + b)[|a + b| - 1] == last;
      assert KeepActive(a + b) == KeepActive(a + front) + tail;
      KeepActiveConcat(a, front);
      assert KeepActive(b) == KeepActive(front) + tail;
    }
  }

  /** A list with nothing inactive is left as it is. */
  lemma {:induction false} KeepActiveOfActive(es: seq<Entity>)
    requires forall k :: 0 <= k < |es| ==> es[k].active
    ensures KeepActive(es) == es
    decreases |es|
  {
    if es != [] {
      KeepActiveOfActive(es[..|es| - 1]);
    }
  }

  /** Removing the inactive entities twice removes no more than once. */
  lemma KeepActiveIdempotent(es: seq<Entity>)
    ensures KeepActive(KeepActive(es)) == KeepActive(es)
  {
    KeepActiveOfActive(KeepActive(es));
  }

  /** Distinct ids stay distinct. */
  lemma KeepActiveDistinct(es: seq<Entity>)
    requires DistinctIds(es)
    ensures DistinctIds(KeepActive(es))
  {
    KeepActiveIsStableFilter(es);
    SubsequenceDistinct(es, KeepActive(es), ActiveIndices(es));
  }

  /** The player handle m_player is the first entity when that entity is a
      player: Game::initialize pushes it first and nothing is ever inserted
      before it. */
  predicate PlayerFirst(es: seq<Entity>) {
    |es| > 0 && Players.IsPlayer(es[0])
  }

  /** Game::removeInactiveEntities: when the player is in the list, every
      other inactive entity goes; otherwise every inactive entity goes. */
  function Reap(es: seq<Entity>): (r: seq<Entity>)
    ensures |r| <= |es|
  {
    if PlayerFirst(es) then [es[0]] + KeepActive(es[1..]) else KeepActive(es)
  }

  /** After the reap the player is still first, and it is the only entity that
      may be inactive; the other survivors are exactly the active entities
      after it. */
  lemma ReapOutcome(es: seq<Entity>)
    requires PlayerFirst(es)
    ensures PlayerFirst(Reap(es)) && Reap(es)[0] == es[0]
    ensures forall k :: 0 < k < |Reap(es)| ==> Reap(es)[k].active
    ensures forall e :: e in Reap(es)[1..] <==> e in es[1..] && e.active
  {
    var r := Reap(es);
    assert r[1..] == KeepActive(es[1..]);
    forall e
      ensures e in r[1..] <==> e in es[1..] && e.active
    {
      KeepActiveMembership(es[1..], e);
    }
  }

  /** Without the player every inactive entity goes. */
  lemma ReapWithoutPlayer(es: seq<Entity>)
    requires !PlayerFirst(es)
    ensures forall k :: 0 <= k < |Reap(es)| ==> Reap(es)[k].active
  {
  }

  /** A second reap right after the first removes nothing. */
  lemma ReapIdempotent(es: seq<Entity>)
    ensures Reap(Reap(es)) == Reap(es)
  {
    if PlayerFirst(es) {
      var r := Reap(es);
      assert r[1..] == KeepActive(es[1..]);
      KeepActiveIdempotent(es[1..]);
    } else {
      KeepActiveIdempotent(es);
      var r := Reap(es);
      if PlayerFirst(r) {
        assert r[0].active;
        KeepActiveOfActive(r[1..]);
        assert r == [r[0]] + r[1..];
      } else {
        KeepActiveOfActive(r);
      }
    }
  }

  /** Taking entities at strictly increasing positions keeps ids distinct. */
  lemma SubsequenceDistinct(es: seq<Entity>, r: seq<Entity>, idx: seq<nat>)
    requires DistinctIds(es) && |idx| == |r|
    requires forall k :: 0 <= k < |idx| ==> idx[k] < |es| && r[k] == es[idx[k]]
    requires forall a, b :: 0 <= a < b < |idx| ==> idx[a] < idx[b]
    ensures DistinctIds(r)
  {
    forall a, b | 0 <= a < b < |r|
      ensures r[a].id != r[b].id
    {
      assert idx[a] < idx[b];
    }
  }

  lemma TailDistinct(es: seq<Entity>)
    requires DistinctIds(es) && |es| > 0
    ensures DistinctIds(es[1..])
  {
    forall a, b | 0 <= a < b < |es| - 1
      ensures es[1..][a].id != es[1..][b].id
    {
      assert es[1..][a] == es[a + 1] && es[1..][b] == es[b + 1];
    }
  }

  /** Putting an entity with a fresh id in front keeps ids distinct. */
  lemma ConsDistinct(h: Entity, t: seq<Entity>)
    requires DistinctIds(t) && forall e | e in t :: e.id != h.id
    ensures DistinctIds([h] + t)
  {
    var r := [h] + t;
    forall a, b | 0 <= a < b < |r|
      ensures r[a].id != r[b].id
    {
      assert r[b] == t[b - 1];
      if a > 0 {
        assert r[a] == t[a - 1];
      } else {
        assert r[b] in t;
      }
    }
  }

  /** The reap keeps ids distinct. */
  lemma ReapDistinct(es: seq<Entity>)
    requires DistinctIds(es)
    ensures DistinctIds(Reap(es))
  {
    if PlayerFirst(es) {
      var tail := es[1..];
      TailDistinct(es);
      KeepActiveDistinct(tail);
      forall e | e in KeepActive(tail)
        ensures e.id != es[0].id
      {
        KeepActiveMembership(tail, e);
        var k :| 0 <= k < |tail| && tail[k] == e;
        assert es[k + 1] == e;
      }
      ConsDistinct(es[0], KeepActive(tail));
    } else {
      KeepActiveDistinct(es);
    }
  }
}
