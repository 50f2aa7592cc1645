/** The `collisionGroups` index of PhysicsSystem: for each group name, the
    set of entities (by id) that joined it. `addEntity` adds the entity to
    the set of each of its groups, creating missing sets; `removeEntity`
    takes it out of the sets that exist and leaves them in place, even
    when they become empty. */
module GroupIndex {

  type Groups = map<string, set<string>>

  /** One turn of the `addEntity` loop. */
  function AddToGroup(m: Groups, g: string, id: string): (r: Groups)
  {
    var members := if g in m then m[g] else {};
    m[g := members + {id}]
  }

  /** The whole `addEntity` loop over the entity's groups. Afterwards the
      index has a set for every old key and every one of the groups, and
      exactly the groups gained the id. */
  function AddToGroups(m: Groups, gs: seq<string>, id: string): (r: Groups)
    ensures r.Keys == m.Keys + set g | g in gs
    ensures forall g :: g in r ==> r[g] == (if g in m then m[g] else {}) + (if g in gs then {id} else {})
  {
    if |gs| == 0 then m
    else
      var init := gs[..|gs| - 1];
      assert forall g :: g in gs <==> g in init || g == gs[|gs| - 1];
      AddToGroup(AddToGroups(m, init, id), gs[|gs| - 1], id)
  }

  /** One turn of the `removeEntity` loop: a missing group is skipped. */
  function RemoveFromGroup(m: Groups, g: string, id: string): (r: Groups)
  {
    if g in m then m[g := m[g] - {id}] else m
  }

  /** The whole `removeEntity` loop: no key appears or disappears, and the
      id leaves exactly the sets of the groups. */
  function RemoveFromGroups(m: Groups, gs: seq<string>, id: string): (r: Groups)
    ensures r.Keys == m.Keys
    ensures forall g :: g in r ==> r[g] == if g in gs then m[g] - {id} else m[g]
  {
    if |gs| == 0 then m
    else
      var init := gs[..|gs| - 1];
      assert forall g :: g in gs <==> g in init || g == gs[|gs| - 1];
      RemoveFromGroup(RemoveFromGroups(m, init, id), gs[|gs| - 1], id)
  }

  /** The `forEach` loop of `addEntity`: a missing group starts from an
      empty set. */
  method Join(m: Groups, gs: seq<string>, id: string) returns (r: Groups)
    ensures r == AddToGroups(m, gs, id)
  {
    r := m;
    var k := 0;
    while k < |gs|
      invariant 0 <= k <= |gs|
      invariant r == AddToGroups(m, gs[..k], id)
    {
      assert gs[..k + 1][..k] == gs[..k];
      var g := gs[k];
      var members := if g in r then r[g] else {};
      r := r[g := members + {id}];
      k := k + 1;
    }
    assert gs[..k] == gs;
  }

  /** The `forEach` loop of `removeEntity`, skipping missing groups. */
  method Leave(m: Groups, gs: seq<string>, id: string) returns (r: Groups)
    ensures r == RemoveFromGroups(m, gs, id)
  {
    r := m;
    var k := 0;
    while k < |gs|
      invariant 0 <= k <= |gs|
      invariant r == RemoveFromGroups(m, gs[..k], id)
    {
      assert gs[..k + 1][..k] == gs[..k];
      var g := gs[k];
      if g in r {
        r := r[g := r[g] - {id}];
      }
      k := k + 1;
    }
    assert gs[..k] == gs;
  }

  /** A second `removeEntity` of the same entity changes nothing. */
  lemma RemoveIsIdempotent(m: Groups, gs: seq<string>, id: string)
    ensures RemoveFromGroups(RemoveFromGroups(m, gs, id), gs, id) == RemoveFromGroups(m, gs, id)
  {
    var once := RemoveFromGroups(m, gs, id);
    var twice := RemoveFromGroups(once, gs, id);
    assert forall g :: g in twice ==> twice[g] == once[g];
  }

  /** Adding an entity that was in no group and removing it again gives
      back the old index, except that the sets created for its new groups
      stay behind, empty. */
  lemma RemoveUndoesAdd(m: Groups, gs: seq<string>, id: string)
    requires forall g :: g in m ==> id !in m[g]
    ensures var r := RemoveFromGroups(AddToGroups(m, gs, id), gs, id);
      r.Keys == m.Keys + (set g | g in gs)
      && forall g :: g in r ==> r[g] == if g in m then m[g] else {}
  {
    var added := AddToGroups(m, gs, id);
    var r := RemoveFromGroups(added, gs, id);
    assert r.Keys == added.Keys;
    forall g | g in r ensures r[g] == if g in m then m[g] else {} {
      var before := if g in m then m[g] else {};
      assert id !in before;
      if g in gs {
        assert added[g] == before + {id};
        assert r[g] == added[g] - {id};
      } else {
        assert r[g] == added[g] == before;
      }
    }
  }

  /** A group the entity does not belong to is neither created nor
      changed by `addEntity`. */
  lemma AddIsLocal(m: Groups, gs: seq<string>, id: string, g: string)
    requires g !in gs
    ensures g in AddToGroups(m, gs, id) <==> g in m
    ensures g in m ==> AddToGroups(m, gs, id)[g] == m[g]
  {
  }
}
