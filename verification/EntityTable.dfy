/**
 The per-session entity table: two maps updated together. It is proved to behave like a
 plain list in which adding an entity first drops whatever shares one of its ids.
 */
module EntityTables {
  import opened Wrappers
  import opened Sequences

  datatype Vec3 = Vec3(x: real, y: real, z: real)

  datatype Entity = Entity(uniqueID: int, runtimeID: nat, actorType: string, position: Vec3)

  /** The two maps. */
  datatype Table = Table(entities: map<nat, Entity>, runtimeIDByUniqueID: map<int, nat>)

  datatype Operation =
    | Add(e: Entity)
    | RemoveRuntime(runtimeID: nat)
    | RemoveUnique(uniqueID: int)
    | Move(target: nat, position: Vec3, updateX: bool, updateY: bool, updateZ: bool)

  function Moved(e: Entity, op: Operation): Entity
    requires op.Move?
  {
    e.(position := Vec3(
      if op.updateX then op.position.x else e.position.x,
      if op.updateY then op.position.y else e.position.y,
      if op.updateZ then op.position.z else e.position.z))
  }

  // ---------------------------------------------------------------------------
  // The simple list
  // ---------------------------------------------------------------------------

  function Unrelated(e: Entity): Entity -> bool {
    (other: Entity) => other.runtimeID != e.runtimeID && other.uniqueID != e.uniqueID
  }

  function OtherRuntime(runtimeID: nat): Entity -> bool {
    (other: Entity) => other.runtimeID != runtimeID
  }

  function OtherUnique(uniqueID: int): Entity -> bool {
    (other: Entity) => other.uniqueID != uniqueID
  }

  /** One operation on the list. */
  function OnList(list: seq<Entity>, op: Operation): seq<Entity> {
    match op
    case Add(e) => Filter(list, Unrelated(e)) + [e]
    case RemoveRuntime(runtimeID) => Filter(list, OtherRuntime(runtimeID))
    case RemoveUnique(uniqueID) => Filter(list, OtherUnique(uniqueID))
    case Move(target, _, _, _, _) =>
      seq(|list|, i requires 0 <= i < |list| => if list[i].runtimeID == target then Moved(list[i], op) else list[i])
  }

  function ListAfter(ops: seq<Operation>): seq<Entity> {
    if ops == [] then [] else OnList(ListAfter(ops[..|ops| - 1]), ops[|ops| - 1])
  }

  // ---------------------------------------------------------------------------
  // The two maps
  // ---------------------------------------------------------------------------

  /** The maps are each other's inverse. */
  ghost predicate Inverse(t: Table) {
    && (forall r :: r in t.entities ==>
          && t.entities[r].runtimeID == r
          && t.entities[r].uniqueID in t.runtimeIDByUniqueID && t.runtimeIDByUniqueID[t.entities[r].uniqueID] == r)
    && (forall u :: u in t.runtimeIDByUniqueID ==>
          && t.runtimeIDByUniqueID[u] in t.entities && t.entities[t.runtimeIDByUniqueID[u]].uniqueID == u)
  }

  /** The table holds exactly the entities of the list. */
  ghost predicate Represents(t: Table, list: seq<Entity>) {
    Inverse(t) && forall e :: e in list <==> e.runtimeID in t.entities && t.entities[e.runtimeID] == e
  }

  class Factory {
    var entities: map<nat, Entity>
    var runtimeIDByUniqueID: map<int, nat>
    /** The calls that changed the table so far, and the list they amount to. */
    ghost var history: seq<Operation>
    ghost var list: seq<Entity>

    ghost function State(): Table
      reads this
    {
      Table(entities, runtimeIDByUniqueID)
    }

    ghost predicate Valid()
      reads this
    {
      Represents(State(), list) && list == ListAfter(history)
    }

    constructor ()
      ensures Valid() && history == [] && list == []
    {
      entities, runtimeIDByUniqueID, list, history := map[], map[], [], [];
    }

    /** Notes one more call in the history. */
    ghost method Record(op: Operation)
      requires list == ListAfter(history)
      modifies `list, `history
      ensures history == old(history) + [op] && list == OnList(old(list), op) == ListAfter(history)
    {
      assert (history + [op])[..|history|] == history;
      list, history := OnList(list, op), history + [op];
    }

    method Add(e: Entity)
      requires Valid()
      modifies this
      ensures Valid() && list == OnList(old(list), Operation.Add(e))
      ensures history == old(history) + [Operation.Add(e)]
      ensures forall x :: x in list <==> x == e || (x in old(list) && x.runtimeID != e.runtimeID && x.uniqueID != e.uniqueID)
    {
      if e.runtimeID in entities {
        runtimeIDByUniqueID := runtimeIDByUniqueID - {entities[e.runtimeID].uniqueID};
      }
      if e.uniqueID in runtimeIDByUniqueID {
        entities := entities - {runtimeIDByUniqueID[e.uniqueID]};
      }
      entities := entities[e.runtimeID := e];
      runtimeIDByUniqueID := runtimeIDByUniqueID[e.uniqueID := e.runtimeID];
      Record(Operation.Add(e));
      AddRefines(old(State()), old(list), e, State());
      forall x ensures x in list <==> x == e || (x in old(list) && Unrelated(e)(x)) {
        FilterMembers(old(list), Unrelated(e), x);
      }
    }

    method RemoveFromRuntimeID(runtimeID: nat)
      requires Valid()
      modifies this
      ensures Valid() && list == OnList(old(list), RemoveRuntime(runtimeID))
      ensures history == old(history) + [RemoveRuntime(runtimeID)]
      ensures forall x :: x in list <==> x in old(list) && x.runtimeID != runtimeID
    {
      if runtimeID in entities {
        runtimeIDByUniqueID := runtimeIDByUniqueID - {entities[runtimeID].uniqueID};
      }
      entities := entities - {runtimeID};
      Record(RemoveRuntime(runtimeID));
      RemoveRuntimeRefines(old(State()), old(list), runtimeID, State());
      forall x ensures x in list <==> x in old(list) && OtherRuntime(runtimeID)(x) {
        FilterMembers(old(list), OtherRuntime(runtimeID), x);
      }
    }

    method RemoveFromUniqueID(uniqueID: int)
      requires Valid()
      modifies this
      ensures Valid() && list == OnList(old(list), RemoveUnique(uniqueID))
      ensures history == old(history) + [RemoveUnique(uniqueID)]
      ensures forall x :: x in list <==> x in old(list) && x.uniqueID != uniqueID
    {
      ghost var before, listed := State(), list;
      Record(RemoveUnique(uniqueID));
      forall x ensures x in list <==> x in listed && OtherUnique(uniqueID)(x) {
        FilterMembers(listed, OtherUnique(uniqueID), x);
      }
      if uniqueID !in runtimeIDByUniqueID {
        RemoveUniqueRefines(before, listed, uniqueID, State());
        return;
      }
      var runtimeID := runtimeIDByUniqueID[uniqueID];
      runtimeIDByUniqueID := runtimeIDByUniqueID - {uniqueID};
      entities := entities - {runtimeID};
      RemoveUniqueRefines(before, listed, uniqueID, State());
    }

    /** Updates the selected position components of one entity. */
    method UpdatePosition(runtimeID: nat, position: Vec3, updateX: bool, updateY: bool, updateZ: bool)
      requires Valid()
      modifies this
      ensures Valid() && list == OnList(old(list), Move(runtimeID, position, updateX, updateY, updateZ))
      ensures history == old(history) + [Move(runtimeID, position, updateX, updateY, updateZ)]
      ensures entities.Keys == old(entities.Keys) && runtimeIDByUniqueID == old(runtimeIDByUniqueID)
      ensures forall r :: r in entities && r != runtimeID ==> entities[r] == old(entities[r])
      ensures runtimeID in entities ==>
                var was, now := old(entities[runtimeID]), entities[runtimeID];
                && now.uniqueID == was.uniqueID && now.runtimeID == was.runtimeID && now.actorType == was.actorType
                && now.position.x == (if updateX then position.x else was.position.x)
                && now.position.y == (if updateY then position.y else was.position.y)
                && now.position.z == (if updateZ then position.z else was.position.z)
    {
      ghost var op := Move(runtimeID, position, updateX, updateY, updateZ);
      ghost var before, listed := State(), list;
      Record(op);
      if runtimeID !in entities {
        MoveRefines(before, listed, op, State());
        return;
      }
      var e := entities[runtimeID];
      if updateX {
        e := e.(position := e.position.(x := position.x));
      }
      if updateY {
        e := e.(position := e.position.(y := position.y));
      }
      if updateZ {
        e := e.(position := e.position.(z := position.z));
      }
      entities := entities[runtimeID := e];
      MoveRefines(before, listed, op, State());
    }

    /** Looks an entity up by runtime id: the one of the list with that id, if there is one. */
    method ByRuntimeID(runtimeID: nat) returns (found: Option<Entity>)
      requires Valid()
      ensures found.Some? ==> found.value in list && found.value.runtimeID == runtimeID
      ensures found.None? ==> forall e :: e in list ==> e.runtimeID != runtimeID
    {
      if runtimeID in entities {
        assert entities[runtimeID] in list;
        return Some(entities[runtimeID]);
      }
      return None;
    }
  }

  // ---------------------------------------------------------------------------
  // Each operation on the maps is the operation on the list
  // ---------------------------------------------------------------------------

  lemma AddRefines(before: Table, list: seq<Entity>, e: Entity, after: Table)
    requires Represents(before, list)
    requires var unique := if e.runtimeID in before.entities
                           then before.runtimeIDByUniqueID - {before.entities[e.runtimeID].uniqueID} else before.runtimeIDByUniqueID;
             var kept := if e.uniqueID in unique then before.entities - {unique[e.uniqueID]} else before.entities;
             after == Table(kept[e.runtimeID := e], unique[e.uniqueID := e.runtimeID])
    ensures Represents(after, OnList(list, Add(e)))
  {
    hide Filter;
    assert Inverse(after);
    forall x ensures x in OnList(list, Add(e)) <==> x.runtimeID in after.entities && after.entities[x.runtimeID] == x {
      AddedMember(before, list, e, x);
    }
  }

  /** Who is in the list after an addition, told from the maps before. */
  lemma AddedMember(before: Table, list: seq<Entity>, e: Entity, x: Entity)
    requires Represents(before, list)
    ensures x in OnList(list, Add(e)) <==>
              x == e || (x.runtimeID in before.entities && before.entities[x.runtimeID] == x
                         && x.runtimeID != e.runtimeID && x.uniqueID != e.uniqueID)
  {
    hide Filter, Inverse;
    FilterMembers(list, Unrelated(e), x);
  }

  lemma RemoveRuntimeRefines(before: Table, list: seq<Entity>, runtimeID: nat, after: Table)
    requires Represents(before, list)
    requires after == Table(before.entities - {runtimeID},
                            if runtimeID in before.entities then before.runtimeIDByUniqueID - {before.entities[runtimeID].uniqueID}
                            else before.runtimeIDByUniqueID)
    ensures Represents(after, OnList(list, RemoveRuntime(runtimeID)))
  {
    forall x ensures x in OnList(list, RemoveRuntime(runtimeID)) <==> x.runtimeID in after.entities && after.entities[x.runtimeID] == x {
      FilterMembers(list, OtherRuntime(runtimeID), x);
    }
  }

  lemma RemoveUniqueRefines(before: Table, list: seq<Entity>, uniqueID: int, after: Table)
    requires Represents(before, list)
    requires after == if uniqueID in before.runtimeIDByUniqueID
                      then Table(before.entities - {before.runtimeIDByUniqueID[uniqueID]}, before.runtimeIDByUniqueID - {uniqueID})
                      else before
    ensures Represents(after, OnList(list, RemoveUnique(uniqueID)))
  {
    forall x ensures x in OnList(list, RemoveUnique(uniqueID)) <==> x.runtimeID in after.entities && after.entities[x.runtimeID] == x {
      FilterMembers(list, OtherUnique(uniqueID), x);
    }
  }

  lemma MoveRefines(before: Table, list: seq<Entity>, op: Operation, after: Table)
    requires Represents(before, list) && op.Move?
    requires after == if op.target in before.entities
                      then before.(entities := before.entities[op.target := Moved(before.entities[op.target], op)]) else before
    ensures Represents(after, OnList(list, op))
  {
    var moved := OnList(list, op);
    forall x ensures x in moved <==> x.runtimeID in after.entities && after.entities[x.runtimeID] == x {
      if x in moved {
        var i :| 0 <= i < |moved| && moved[i] == x;
        assert list[i] in list;
      }
      if x.runtimeID in after.entities && after.entities[x.runtimeID] == x {
        var original := before.entities[x.runtimeID];
        assert original in list;
        var i :| 0 <= i < |list| && list[i] == original;
        assert moved[i] == x;
      }
    }
  }

  /** In the list, ids identify entities: no two listed entities share either one. */
  lemma IdsIdentify(t: Table, list: seq<Entity>, a: Entity, b: Entity)
    requires Represents(t, list) && a in list && b in list
    requires a.runtimeID == b.runtimeID || a.uniqueID == b.uniqueID
    ensures a == b
  {
  }

  /** No two places of the list share an id. */
  ghost predicate IdsDistinct(list: seq<Entity>) {
    forall i, j :: 0 <= i < j < |list| ==> list[i].runtimeID != list[j].runtimeID && list[i].uniqueID != list[j].uniqueID
  }

  lemma {:induction false} FilterKeepsDistinct(list: seq<Entity>, keep: Entity -> bool)
    requires IdsDistinct(list)
    ensures IdsDistinct(Filter(list, keep))
  {
    if list != [] {
      var rest := Filter(list[1..], keep);
      FilterKeepsDistinct(list[1..], keep);
      forall j | 0 <= j < |rest| ensures list[0].runtimeID != rest[j].runtimeID && list[0].uniqueID != rest[j].uniqueID {
        FilterMembers(list[1..], keep, rest[j]);
      }
    }
  }

  lemma StepKeepsDistinct(list: seq<Entity>, op: Operation)
    requires IdsDistinct(list)
    ensures IdsDistinct(OnList(list, op))
  {
    hide Filter;
    match op
    case Add(e) => {
      var kept := Filter(list, Unrelated(e));
      FilterKeepsDistinct(list, Unrelated(e));
      forall i | 0 <= i < |kept| ensures kept[i].runtimeID != e.runtimeID && kept[i].uniqueID != e.uniqueID {
        FilterMembers(list, Unrelated(e), kept[i]);
      }
    }
    case RemoveRuntime(r) => FilterKeepsDistinct(list, OtherRuntime(r));
    case RemoveUnique(u) => FilterKeepsDistinct(list, OtherUnique(u));
    case Move(_, _, _, _, _) => {}
  }

  /** After any run no two places of the list share an id, so no entity is listed twice. */
  lemma {:induction false} RunsKeepIdsDistinct(ops: seq<Operation>)
    ensures IdsDistinct(ListAfter(ops))
  {
    if ops != [] {
      RunsKeepIdsDistinct(ops[..|ops| - 1]);
      StepKeepsDistinct(ListAfter(ops[..|ops| - 1]), ops[|ops| - 1]);
    }
  }
}
