/** The PhysicsSystem object: the entity collection, the collision-group
    index and the rule table it keeps, and the methods that change them.
    Every method is proved against the functions of WorldStep,
    Broadphase and GroupIndex; the lemmas before the class state what the
    group index means and that every operation keeps it exact. */
module Physics {
  import opened Common
  import opened PhysicsBody
  import opened Narrowphase
  import opened Contact
  import opened Broadphase
  import opened WorldBounds
  import opened GroupIndex
  import opened WorldStep

  // ---- the entity set ----

  /** The position of the entity with the given id, if any. */
  function Find(es: seq<Body>, id: string): (r: Option<nat>)
    ensures r.Some? ==> r.value < |es| && es[r.value].id == id
    ensures r.None? <==> id !in Ids(es)
  {
    if |es| == 0 then None
    else if es[|es| - 1].id == id then Some(|es| - 1)
    else
      var r := Find(es[..|es| - 1], id);
      assert Ids(es) == Ids(es[..|es| - 1]) + [es[|es| - 1].id];
      r
  }

  /** `entities.add(entity)`: a Set ignores an object it already holds;
      the model identifies entities by id. */
  function Inserted(es: seq<Body>, e: Body): (r: seq<Body>)
  {
    if e.id in Ids(es) then es else es + [e]
  }

  /** `entities.delete(entity)`: the others keep their order. */
  function Without(es: seq<Body>, id: string): (r: seq<Body>)
  {
    match Find(es, id)
    case None => es
    case Some(k) => es[..k] + es[k + 1..]
  }

  /** The entity may join only as itself: if its id is taken, it is the
      object already held. */
  predicate SameObjectIfPresent(es: seq<Body>, e: Body)
  {
    e.id in Ids(es) ==> e in es
  }

  /** The index is exact: an id is in the set of group g iff it is the id of
      a held entity that has g among its groups. */
  predicate Indexed(es: seq<Body>, m: Groups)
  {
    Witnessed(es, m) && Covered(es, m)
  }

  /** Every member of a group set is a held entity of that group. */
  predicate Witnessed(es: seq<Body>, m: Groups)
  {
    forall g, id :: g in m && id in m[g] ==> exists i :: 0 <= i < |es| && es[i].id == id && g in es[i].groups
  }

  /** Every held entity is in the set of each of its groups. */
  predicate Covered(es: seq<Body>, m: Groups)
  {
    forall i, g :: 0 <= i < |es| && g in es[i].groups ==> g in m && es[i].id in m[g]
  }

  lemma InsertedKeepsDistinct(es: seq<Body>, e: Body)
    requires DistinctIds(es)
    ensures DistinctIds(Inserted(es, e))
    ensures Ids(Inserted(es, e)) == if e.id in Ids(es) then Ids(es) else Ids(es) + [e.id]
  {
    if e.id !in Ids(es) {
      var r := es + [e];
      assert Ids(r) == Ids(es) + [e.id];
      forall i, j | 0 <= i < j < |r| ensures r[i].id != r[j].id {
        if j == |es| {
          assert Ids(es)[i] == r[i].id;
        }
      }
    }
  }

  /** `addEntity` keeps the index exact. */
  lemma {:induction false} AddKeepsIndex(es: seq<Body>, m: Groups, e: Body)
    requires DistinctIds(es) && Indexed(es, m) && SameObjectIfPresent(es, e)
    ensures DistinctIds(Inserted(es, e))
    ensures Indexed(Inserted(es, e), AddToGroups(m, e.groups, e.id))
  {
    InsertedKeepsDistinct(es, e);
    var r := Inserted(es, e);
    var m' := AddToGroups(m, e.groups, e.id);
    assert exists k :: 0 <= k < |r| && r[k] == e by {
      if e.id !in Ids(es) {
        assert r[|es|] == e;
      }
    }
    var k :| 0 <= k < |r| && r[k] == e;
    forall g, id | g in m' && id in m'[g]
      ensures exists i :: 0 <= i < |r| && r[i].id == id && g in r[i].groups
    {
      if g in m && id in m[g] {
        var i :| 0 <= i < |es| && es[i].id == id && g in es[i].groups;
        assert r[i] == es[i];
      } else {
        assert g in e.groups && id == e.id;
        assert r[k].id == id && g in r[k].groups;
      }
    }
    forall i, g | 0 <= i < |r| && g in r[i].groups ensures g in m' && r[i].id in m'[g] {
      if i < |es| {
        assert r[i] == es[i];
      } else {
        assert r[i] == e;
      }
    }
  }

  /** `delete` keeps ids distinct and removes the id. */
  lemma WithoutKeepsDistinct(es: seq<Body>, id: string)
    requires DistinctIds(es)
    ensures DistinctIds(Without(es, id)) && id !in Ids(Without(es, id))
  {
    match Find(es, id)
    case None =>
    case Some(k) =>
      var r := es[..k] + es[k + 1..];
      assert forall i :: 0 <= i < k ==> r[i] == es[i];
      assert forall i :: k <= i < |r| ==> r[i] == es[i + 1];
      forall i | 0 <= i < |r| ensures r[i].id != id {
        if i < k { assert es[i].id != es[k].id; } else { assert es[i + 1].id != es[k].id; }
      }
  }

  /** Every entity left after `delete` was held before. */
  lemma WithoutTakesFromOld(es: seq<Body>, id: string)
    ensures var r := Without(es, id); forall i :: 0 <= i < |r| ==> r[i] in es
  {
    match Find(es, id)
    case None =>
    case Some(k) =>
      var r := es[..k] + es[k + 1..];
      assert forall i :: 0 <= i < k ==> r[i] == es[i];
      assert forall i :: k <= i < |r| ==> r[i] == es[i + 1];
  }

  /** Every entity with another id survives `delete`. */
  lemma WithoutKeepsOthers(es: seq<Body>, id: string)
    ensures var r := Without(es, id); forall i :: 0 <= i < |es| && es[i].id != id ==> es[i] in r
  {
    match Find(es, id)
    case None =>
    case Some(k) =>
      var r := es[..k] + es[k + 1..];
      forall i | 0 <= i < |es| && es[i].id != id ensures es[i] in r {
        if i < k { assert r[i] == es[i]; } else { assert i > k; assert r[i - 1] == es[i]; }
      }
  }

  /** With distinct ids, the only held entity carrying the id of a held
      entity is that entity. */
  lemma OnlyHolderOfId(es: seq<Body>, e: Body)
    requires DistinctIds(es) && SameObjectIfPresent(es, e)
    ensures forall i :: 0 <= i < |es| && es[i].id == e.id ==> es[i] == e
  {
    forall i | 0 <= i < |es| && es[i].id == e.id ensures es[i] == e {
      assert Ids(es)[i] == e.id;
      var j :| 0 <= j < |es| && es[j] == e;
      assert es[i].id == es[j].id;
    }
  }

  /** After `removeEntity` of a held entity, or of one whose id is absent,
      its id is in no group. */
  lemma RemovedIdIsInNoGroup(es: seq<Body>, m: Groups, e: Body)
    requires DistinctIds(es) && Witnessed(es, m) && SameObjectIfPresent(es, e)
    ensures forall g :: g in RemoveFromGroups(m, e.groups, e.id) ==> e.id !in RemoveFromGroups(m, e.groups, e.id)[g]
  {
    OnlyHolderOfId(es, e);
    var m' := RemoveFromGroups(m, e.groups, e.id);
    forall g | g in m' ensures e.id !in m'[g] {
      if g !in e.groups && e.id in m[g] {
        assert false;
      }
    }
  }

  lemma RemoveKeepsWitnessed(es: seq<Body>, m: Groups, e: Body)
    requires DistinctIds(es) && Witnessed(es, m) && SameObjectIfPresent(es, e)
    ensures Witnessed(Without(es, e.id), RemoveFromGroups(m, e.groups, e.id))
  {
    WithoutKeepsOthers(es, e.id);
    RemovedIdIsInNoGroup(es, m, e);
    var r := Without(es, e.id);
    var m' := RemoveFromGroups(m, e.groups, e.id);
    forall g, id | g in m' && id in m'[g]
      ensures exists i :: 0 <= i < |r| && r[i].id == id && g in r[i].groups
    {
      assert id in m[g] && id != e.id;
      var i :| 0 <= i < |es| && es[i].id == id && g in es[i].groups;
      var j :| 0 <= j < |r| && r[j] == es[i];
    }
  }

  lemma RemoveKeepsCovered(es: seq<Body>, m: Groups, e: Body)
    requires DistinctIds(es) && Covered(es, m)
    ensures Covered(Without(es, e.id), RemoveFromGroups(m, e.groups, e.id))
  {
    WithoutKeepsDistinct(es, e.id);
    WithoutTakesFromOld(es, e.id);
    var r := Without(es, e.id);
    var m' := RemoveFromGroups(m, e.groups, e.id);
    forall i, g | 0 <= i < |r| && g in r[i].groups ensures g in m' && r[i].id in m'[g] {
      var j :| 0 <= j < |es| && es[j] == r[i];
      assert g in m && r[i].id in m[g];
      assert Ids(r)[i] == r[i].id;
      assert r[i].id != e.id;
    }
  }

  /** `removeEntity` keeps the index exact, and the id is then in no group. */
  lemma RemoveKeepsIndex(es: seq<Body>, m: Groups, e: Body)
    requires DistinctIds(es) && Indexed(es, m) && SameObjectIfPresent(es, e)
    ensures DistinctIds(Without(es, e.id))
    ensures Indexed(Without(es, e.id), RemoveFromGroups(m, e.groups, e.id))
    ensures forall g :: g in RemoveFromGroups(m, e.groups, e.id) ==> e.id !in RemoveFromGroups(m, e.groups, e.id)[g]
  {
    WithoutKeepsDistinct(es, e.id);
    RemovedIdIsInNoGroup(es, m, e);
    RemoveKeepsWitnessed(es, m, e);
    RemoveKeepsCovered(es, m, e);
  }

  /** A second `removeEntity` of the same entity changes nothing. */
  lemma RemoveEntityIsIdempotent(es: seq<Body>, m: Groups, e: Body)
    requires DistinctIds(es)
    ensures Without(Without(es, e.id), e.id) == Without(es, e.id)
    ensures RemoveFromGroups(RemoveFromGroups(m, e.groups, e.id), e.groups, e.id) == RemoveFromGroups(m, e.groups, e.id)
  {
    WithoutKeepsDistinct(es, e.id);
    RemoveIsIdempotent(m, e.groups, e.id);
  }

  /** Entities that agree position by position on id and groups. */
  predicate SameTags(es: seq<Body>, fs: seq<Body>)
  {
    |fs| == |es| && forall i :: 0 <= i < |es| ==> fs[i].id == es[i].id && fs[i].groups == es[i].groups
  }

  /** The index depends only on ids and groups. */
  lemma TagsKeepIndex(es: seq<Body>, fs: seq<Body>, m: Groups)
    requires SameTags(es, fs) && DistinctIds(es) && Indexed(es, m)
    ensures DistinctIds(fs) && Indexed(fs, m)
  {
    forall g, id | g in m && id in m[g]
      ensures exists i :: 0 <= i < |fs| && fs[i].id == id && g in fs[i].groups
    {
      var i :| 0 <= i < |es| && es[i].id == id && g in es[i].groups;
      assert fs[i].id == id && g in fs[i].groups;
    }
  }

  /** `update` never changes which entity sits where nor its groups. */
  lemma StepKeepsTags(es: seq<Body>, g: Vec, h: real, enableSleeping: bool, iterations: nat,
                      matrix: map<string, Callback>, broadphase: string, cands: seq<seq<nat>>, w: Bounds)
    requires broadphase == "quadtree" ==> CandidatesWithin(cands, |es|)
    ensures SameTags(es, IntegrateTimes(es, g, h, enableSleeping, iterations))
    ensures SameTags(es, Step(es, g, h, enableSleeping, iterations, matrix, broadphase, cands, w))
  {
    var moved := IntegrateTimes(es, g, h, enableSleeping, iterations);
    IntegrateTimesPointwise(es, g, h, enableSleeping, iterations);
    forall i | 0 <= i < |es| ensures moved[i].id == es[i].id && moved[i].groups == es[i].groups {
      IterateKeepsAttributes(es[i], g, h, enableSleeping, iterations);
    }
  }

  /** One more turn of the `handleCollisions` loop. */
  lemma CollidePrefixStep(es: seq<Body>, matrix: map<string, Callback>, ps: seq<Pair>, k: nat)
    requires ProperPairs(ps, |es|) && k < |ps|
    ensures ProperPairs(ps[..k], |es|) && ProperPairs(ps[..k + 1], |es|)
    ensures CollideAll(es, matrix, ps[..k + 1]) == ResolvePair(CollideAll(es, matrix, ps[..k]), matrix, ps[k])
  {
    assert forall l :: 0 <= l <= k ==> ps[..k + 1][l] == ps[l];
    assert ps[..k + 1][..k] == ps[..k];
  }

  /** Collisions change velocities only. */
  lemma CollideKeepsTags(es: seq<Body>, matrix: map<string, Callback>, ps: seq<Pair>)
    requires ProperPairs(ps, |es|)
    ensures SameTags(es, CollideAll(es, matrix, ps))
  {
  }

  /** The loop of `handleCollisions` over its pairs: each pair is tested
      as the two entities are at that moment, and resolved when it
      collides. */
  method ResolvePairs(es: seq<Body>, matrix: map<string, Callback>, pairs: seq<Pair>) returns (r: seq<Body>)
    requires ProperPairs(pairs, |es|)
    ensures r == CollideAll(es, matrix, pairs)
  {
    r := es;
    var k := 0;
    while k < |pairs|
      invariant 0 <= k <= |pairs|
      invariant ProperPairs(pairs[..k], |es|)
      invariant r == CollideAll(es, matrix, pairs[..k])
    {
      CollidePrefixStep(es, matrix, pairs, k);
      r := ResolvePair(r, matrix, pairs[k]);
      k := k + 1;
    }
    assert pairs[..k] == pairs;
  }

  /** A registered rule lets every pair of entities carrying its two groups,
      in that order, through the group filter. */
  lemma RegisteredRuleAdmits(matrix: map<string, Callback>, g1: string, g2: string, cb: Callback,
                             gs1: seq<string>, gs2: seq<string>)
    requires g1 in gs1 && g2 in gs2
    ensures CheckCollisionGroups(matrix[GroupKey(g1, g2) := cb], gs1, gs2)
  {
    var i :| 0 <= i < |gs1| && gs1[i] == g1;
    var j :| 0 <= j < |gs2| && gs2[j] == g2;
    assert GroupKey(gs1[i], gs2[j]) in matrix[GroupKey(g1, g2) := cb];
  }

  /** The candidate pairs the quadtree scan has met after the first k
      candidates of entity i. */
  function Scanned(cands: seq<seq<nat>>, i: nat, k: nat): (r: seq<Pair>)
    requires i < |cands| && k <= |cands[i]|
  {
    Candidates(cands[..i]) + Row(i, cands[i][..k])
  }

  /** All of them name entities. */
  lemma ScannedWithin(cands: seq<seq<nat>>, n: nat, i: nat, k: nat)
    requires CandidatesWithin(cands, n) && i < |cands| && k <= |cands[i]|
    ensures PairsWithin(Scanned(cands, i, k), n)
  {
    var ps := Candidates(cands[..i]);
    assert forall a :: 0 <= a < i ==> cands[..i][a] == cands[a];
    CandidatesBelow(cands[..i], n);
    var qs := Scanned(cands, i, k);
    forall l | 0 <= l < |qs| ensures qs[l].0 < n && qs[l].1 < n {
      if l >= |ps| {
        assert qs[l] == (i, cands[i][l - |ps|]);
      }
    }
  }

  /** So do those of the entities before i. */
  lemma ScannedRowsWithin(cands: seq<seq<nat>>, n: nat, i: nat)
    requires CandidatesWithin(cands, n) && i <= |cands|
    ensures PairsWithin(Candidates(cands[..i]), n)
  {
    assert forall a :: 0 <= a < i ==> cands[..i][a] == cands[a];
    CandidatesBelow(cands[..i], n);
  }

  /** Before the first candidate of entity i, the scan has met the rows of
      the entities before it. */
  lemma ScannedRowStart(cands: seq<seq<nat>>, i: nat)
    requires i < |cands|
    ensures Scanned(cands, i, 0) == Candidates(cands[..i])
  {
  }

  /** After the last candidate of entity i, the scan has met the rows of
      the entities up to and including it. */
  lemma ScannedRowEnd(cands: seq<seq<nat>>, i: nat)
    requires i < |cands|
    ensures Scanned(cands, i, |cands[i]|) == Candidates(cands[..i + 1])
  {
    assert cands[i][..|cands[i]|] == cands[i];
    assert cands[..i + 1][..i] == cands[..i];
  }

  /** Meeting one more candidate is one more step of the scan. */
  lemma ScannedStep(ids: seq<string>, cands: seq<seq<nat>>, i: nat, k: nat)
    requires CandidatesWithin(cands, |ids|) && i < |cands| && k < |cands[i]|
    ensures PairsWithin(Scanned(cands, i, k), |ids|) && PairsWithin(Scanned(cands, i, k + 1), |ids|)
    ensures Dedup(ids, Scanned(cands, i, k + 1)) == Keep(ids, Dedup(ids, Scanned(cands, i, k)), (i, cands[i][k]))
  {
    ScannedWithin(cands, |ids|, i, k);
    ScannedWithin(cands, |ids|, i, k + 1);
    var after := Scanned(cands, i, k + 1);
    assert cands[i][..k + 1] == cands[i][..k] + [cands[i][k]];
    assert after == Scanned(cands, i, k) + [(i, cands[i][k])];
    DedupStep(ids, after);
    assert after[..|after| - 1] == Scanned(cands, i, k);
  }

  /** The `checked` set grows by the key of the pair kept. */
  lemma KeysSnoc(ids: seq<string>, ps: seq<Pair>, p: Pair)
    requires PairsWithin(ps, |ids|) && p.0 < |ids| && p.1 < |ids|
    ensures PairsWithin(ps + [p], |ids|)
    ensures Keys(ids, ps + [p]) == Keys(ids, ps) + {KeyOf(ids, p)}
  {
    var qs := ps + [p];
    assert forall k :: 0 <= k < |ps| ==> qs[k] == ps[k];
    assert qs[|ps|] == p;
  }

  // ---- the system ----

  class PhysicsSystem {
    var entities: seq<Body>
    var gravity: Vec
    var worldBounds: Bounds
    var collisionGroups: Groups
    var collisionMatrix: map<string, Callback>
    var timeScale: real
    var iterations: nat
    var enableSleeping: bool
    var broadphase: string

    /** Distinct entities and an exact group index. */
    ghost predicate Valid()
      reads this
    {
      DistinctIds(entities) && Indexed(entities, collisionGroups)
    }

    constructor()
      ensures Valid()
      ensures entities == [] && collisionGroups == map[] && collisionMatrix == map[]
      ensures gravity == Vec(0.0, 9.81) && worldBounds == Unlimited
      ensures timeScale == 1.0 && iterations == 3 && enableSleeping && broadphase == "quadtree"
    {
      entities := [];
      gravity := Vec(0.0, 9.81);
      worldBounds := Unlimited;
      collisionGroups := map[];
      collisionMatrix := map[];
      timeScale := 1.0;
      iterations := 3;
      enableSleeping := true;
      broadphase := "quadtree";
    }

    method AddEntity(e: Body)
      requires Valid() && SameObjectIfPresent(entities, e)
      modifies this
      ensures unchanged(this`gravity, this`worldBounds, this`collisionMatrix, this`timeScale,
                        this`iterations, this`enableSleeping, this`broadphase)
      ensures Valid()
      ensures entities == Inserted(old(entities), e)
      ensures collisionGroups == AddToGroups(old(collisionGroups), e.groups, e.id)
    {
      AddKeepsIndex(entities, collisionGroups, e);
      entities := Inserted(entities, e);
      collisionGroups := Join(collisionGroups, e.groups, e.id);
    }

    method RemoveEntity(e: Body)
      requires Valid() && SameObjectIfPresent(entities, e)
      modifies this
      ensures unchanged(this`gravity, this`worldBounds, this`collisionMatrix, this`timeScale,
                        this`iterations, this`enableSleeping, this`broadphase)
      ensures Valid()
      ensures entities == Without(old(entities), e.id)
      ensures collisionGroups == RemoveFromGroups(old(collisionGroups), e.groups, e.id)
      ensures forall g :: g in collisionGroups ==> e.id !in collisionGroups[g]
    {
      RemoveKeepsIndex(entities, collisionGroups, e);
      entities := Without(entities, e.id);
      collisionGroups := Leave(collisionGroups, e.groups, e.id);
    }

    method SetGravity(x: real, y: real)
      modifies this
      ensures unchanged(this`entities, this`worldBounds, this`collisionGroups, this`collisionMatrix,
                        this`timeScale, this`iterations, this`enableSleeping, this`broadphase)
      ensures gravity == Vec(x, y)
    {
      gravity := Vec(x, y);
    }

    method SetWorldBounds(left: Side, right: Side, top: Side, bottom: Side)
      modifies this
      ensures unchanged(this`entities, this`gravity, this`collisionGroups, this`collisionMatrix,
                        this`timeScale, this`iterations, this`enableSleeping, this`broadphase)
      ensures worldBounds == Bounds(left, right, top, bottom)
    {
      worldBounds := Bounds(left, right, top, bottom);
    }

    /** Registers the ordered rule (group1, group2), replacing any callback
      already registered under its key. */
    method SetCollisionGroup(group1: string, group2: string, callback: Callback)
      modifies this
      ensures unchanged(this`entities, this`gravity, this`worldBounds, this`collisionGroups,
                        this`timeScale, this`iterations, this`enableSleeping, this`broadphase)
      ensures collisionMatrix == old(collisionMatrix)[GroupKey(group1, group2) := callback]
    {
      collisionMatrix := collisionMatrix[GroupKey(group1, group2) := callback];
    }

    /** One integration pass `updatePhysics(h)` over the entities in order. */
    method UpdatePhysics(h: real)
      requires Valid()
      modifies this
      ensures unchanged(this`gravity, this`worldBounds, this`collisionGroups, this`collisionMatrix,
                        this`timeScale, this`iterations, this`enableSleeping, this`broadphase)
      ensures Valid()
      ensures entities == IntegrateAll(old(entities), gravity, h, enableSleeping)
    {
      var es := entities;
      var i := 0;
      while i < |es|
        invariant 0 <= i <= |es| && |es| == |entities|
        invariant forall k :: 0 <= k < i ==> es[k] == IntegrateEntity(entities[k], gravity.x, gravity.y, h, enableSleeping)
        invariant forall k :: i <= k < |es| ==> es[k] == entities[k]
      {
        es := es[i := IntegrateEntity(es[i], gravity.x, gravity.y, h, enableSleeping)];
        i := i + 1;
      }
      StepKeepsTags(entities, gravity, h, enableSleeping, 1, collisionMatrix, "", [], worldBounds);
      TagsKeepIndex(entities, es, collisionGroups);
      entities := es;
    }

    /** `getCollisionPairsBruteForce`: every (i, j) with i < j, row by row. */
    method CollisionPairsBruteForce() returns (ps: seq<Pair>)
      ensures ps == BrutePairs(|entities|)
    {
      var n := |entities|;
      ps := [];
      var i := 0;
      while i < n
        invariant 0 <= i <= n
        invariant ps == BruteRows(i, n)
      {
        var j := i + 1;
        while j < n
          invariant i + 1 <= j <= n
          invariant ps == BruteRows(i, n) + RowSpan(i, i + 1, j)
        {
          ps := ps + [(i, j)];
          j := j + 1;
        }
        i := i + 1;
      }
    }

    /** `getCollisionPairsQuadTree`, with `cands[i]` the positions that
      `retrieve` returns for entity i: self-pairs and pairs whose key is
      already checked are skipped. */
    method CollisionPairsQuadTree(cands: seq<seq<nat>>) returns (ps: seq<Pair>)
      requires CandidatesWithin(cands, |entities|)
      ensures ps == QuadTreePairs(Ids(entities), cands)
    {
      var ids := Ids(entities);
      ps := [];
      var checked: set<string> := {};
      var i := 0;
      ScannedRowsWithin(cands, |ids|, 0);
      while i < |entities|
        invariant 0 <= i <= |entities|
        invariant PairsWithin(Candidates(cands[..i]), |ids|)
        invariant PairsWithin(ps, |ids|)
        invariant ps == Dedup(ids, Candidates(cands[..i]))
        invariant checked == Keys(ids, ps)
      {
        ScannedRowStart(cands, i);
        ScannedWithin(cands, |ids|, i, 0);
        var k := 0;
        while k < |cands[i]|
          invariant 0 <= k <= |cands[i]|
          invariant PairsWithin(Scanned(cands, i, k), |ids|)
          invariant PairsWithin(ps, |ids|)
          invariant ps == Dedup(ids, Scanned(cands, i, k))
          invariant checked == Keys(ids, ps)
        {
          ScannedStep(ids, cands, i, k);
          var other := cands[i][k];
          if i != other {
            var key := PairKey(ids[i], ids[other]);
            if key !in checked {
              KeysSnoc(ids, ps, (i, other));
              ps := ps + [(i, other)];
              checked := checked + {key};
            }
          }
          k := k + 1;
        }
        ScannedRowEnd(cands, i);
        ScannedRowsWithin(cands, |ids|, i + 1);
        i := i + 1;
      }
      assert cands[..i] == cands;
    }

    /** `handleCollisions`: the pairs of the configured broadphase, each
      resolved when it collides as the entities are at that moment. */
    method HandleCollisions(cands: seq<seq<nat>>)
      requires Valid() && (broadphase == "quadtree" ==> CandidatesWithin(cands, |entities|))
      modifies this
      ensures unchanged(this`gravity, this`worldBounds, this`collisionGroups, this`collisionMatrix,
                        this`timeScale, this`iterations, this`enableSleeping, this`broadphase)
      ensures Valid()
      ensures entities == CollideAll(old(entities), collisionMatrix, PairsFor(broadphase, old(entities), cands))
    {
      var pairs;
      if broadphase == "quadtree" {
        pairs := CollisionPairsQuadTree(cands);
      } else {
        pairs := CollisionPairsBruteForce();
      }
      assert pairs == PairsFor(broadphase, entities, cands);
      var es := ResolvePairs(entities, collisionMatrix, pairs);
      CollideKeepsTags(entities, collisionMatrix, pairs);
      TagsKeepIndex(entities, es, collisionGroups);
      entities := es;
    }

    /** `applyWorldBounds` over the entities in order. */
    method ApplyWorldBounds()
      requires Valid()
      modifies this
      ensures unchanged(this`gravity, this`worldBounds, this`collisionGroups, this`collisionMatrix,
                        this`timeScale, this`iterations, this`enableSleeping, this`broadphase)
      ensures Valid()
      ensures entities == BoundAll(old(entities), worldBounds)
    {
      var es := entities;
      var i := 0;
      while i < |es|
        invariant 0 <= i <= |es| && |es| == |entities|
        invariant forall k :: 0 <= k < i ==> es[k] == BoundEntity(entities[k], worldBounds)
        invariant forall k :: i <= k < |es| ==> es[k] == entities[k]
      {
        es := es[i := BoundEntity(es[i], worldBounds)];
        i := i + 1;
      }
      assert SameTags(entities, es);
      TagsKeepIndex(entities, es, collisionGroups);
      entities := es;
    }

    /** `update(deltaTime)`: `iterations` integration passes of length
      deltaTime * timeScale / iterations, then one collision pass, then one
      world-bounds pass. */
    method Update(deltaTime: real, cands: seq<seq<nat>>)
      requires Valid() && (broadphase == "quadtree" ==> CandidatesWithin(cands, |entities|))
      modifies this
      ensures unchanged(this`gravity, this`worldBounds, this`collisionGroups, this`collisionMatrix,
                        this`timeScale, this`iterations, this`enableSleeping, this`broadphase)
      ensures Valid()
      ensures entities == Step(old(entities), gravity, SubstepLength(deltaTime, timeScale, iterations),
                               enableSleeping, iterations, collisionMatrix, broadphase, cands, worldBounds)
    {
      var h := SubstepLength(deltaTime, timeScale, iterations);
      ghost var start := entities;
      var i := 0;
      while i < iterations
        invariant 0 <= i <= iterations
        invariant Valid()
        invariant entities == IntegrateTimes(start, gravity, h, enableSleeping, i)
        invariant unchanged(this`gravity, this`worldBounds, this`collisionGroups, this`collisionMatrix,
                            this`timeScale, this`iterations, this`enableSleeping, this`broadphase)
      {
        UpdatePhysics(h);
        i := i + 1;
      }
      StepKeepsTags(start, gravity, h, enableSleeping, iterations, collisionMatrix, "", [], worldBounds);
      HandleCollisions(cands);
      ApplyWorldBounds();
    }
  }
}
