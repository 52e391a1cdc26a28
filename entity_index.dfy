/** The index the multiple-selection engine works over: the groups of a grouped view
    (`{ groupID: entityIds[] }`) flattened into one ordered list of
    `(entityID, groupID)` pairs, `groups.map(g => entities[g].map(...)).flat(1)`. */
module EntityIndex {
  import opened Common
  import opened JsObject

  /** The unit of selection: one appearance of an entity in one group. */
  datatype EntityDetails = EntityDetails(entityID: string, groupID: string)

  /** `entities[groupID].map((entityID) => ({ entityID, groupID }))` */
  function GroupBlock(groupID: string, ids: seq<string>): (b: seq<EntityDetails>)
    ensures |b| == |ids|
    ensures forall j :: 0 <= j < |ids| ==> b[j] == EntityDetails(ids[j], groupID)
  {
    seq(|ids|, j requires 0 <= j < |ids| => EntityDetails(ids[j], groupID))
  }

  /** `list.map((en) => en.entityID)` */
  function EntityIds(list: seq<EntityDetails>): (ids: seq<string>)
    ensures |ids| == |list|
    ensures forall i :: 0 <= i < |list| ==> ids[i] == list[i].entityID
  {
    seq(|list|, i requires 0 <= i < |list| => list[i].entityID)
  }

  /** Every listed group has an entry in `entities` (a missing one makes the
      flattening throw a TypeError). */
  predicate Covers(entities: Obj<seq<string>>, groups: seq<string>)
  {
    forall g :: g in groups ==> g in entities.vals
  }

  /** The sum of `entities[g].length` over the listed groups. */
  function Size(groups: seq<string>, entities: Obj<seq<string>>): nat
    requires Covers(entities, groups)
  {
    if groups == [] then 0 else |entities.vals[groups[0]]| + Size(groups[1..], entities)
  }

  /** The flattened list, group by group in the order of `groups`. */
  function Flatten(groups: seq<string>, entities: Obj<seq<string>>): (r: seq<EntityDetails>)
    requires Covers(entities, groups)
    ensures |r| == Size(groups, entities)
    ensures forall k :: 0 <= k < |r| ==>
      r[k].groupID in groups && r[k].entityID in entities.vals[r[k].groupID]
  {
    if groups == [] then []
    else
      var head := GroupBlock(groups[0], entities.vals[groups[0]]);
      var rest := Flatten(groups[1..], entities);
      assert forall k :: |head| <= k < |head| + |rest| ==> (head + rest)[k] == rest[k - |head|];
      head + rest
  }

  /** The `entityDetails` of the selection group component: the flattening over the
      `groups` it is given, which throws a TypeError when some listed group has no
      entry in `entities`. */
  function GroupEntityDetails(groups: seq<string>, entities: Obj<seq<string>>): (r: Result<seq<EntityDetails>>)
    ensures r.Ok? <==> forall g :: g in groups ==> g in entities.vals
    ensures r.Ok? ==> |r.value| == Size(groups, entities)
    ensures r.Ok? ==> r.value == Flatten(groups, entities)
    ensures r.Err? ==> r.error.TypeError?
  {
    if Covers(entities, groups) then
      var list := Flatten(groups, entities);
      Ok(list)
    else
      Err(TypeError("Cannot read properties of undefined (reading 'map')"))
  }

  /** The hook's `entitiesList`: the flattening over `Object.keys(entities)`. */
  function EntitiesList(entities: Obj<seq<string>>): (r: seq<EntityDetails>)
    requires WellFormed(entities)
    ensures GroupEntityDetails(entities.keys, entities) == Ok(r)
    ensures |r| == Size(entities.keys, entities)
    ensures forall k :: 0 <= k < |r| ==> r[k].groupID in entities.vals && r[k].entityID in entities.vals[r[k].groupID]
  {
    Flatten(entities.keys, entities)
  }

  /** `list.filter((entity) => entity.groupID === groupID)` */
  function InGroup(list: seq<EntityDetails>, groupID: string): (r: seq<EntityDetails>)
    ensures forall e :: e in r <==> e in list && e.groupID == groupID
    ensures |r| <= |list|
  {
    if list == [] then []
    else if list[0].groupID == groupID then [list[0]] + InGroup(list[1..], groupID)
    else InGroup(list[1..], groupID)
  }

  lemma {:induction false} SizeAppend(g1: seq<string>, g2: seq<string>, entities: Obj<seq<string>>)
    requires Covers(entities, g1 + g2)
    ensures Covers(entities, g1) && Covers(entities, g2)
    ensures Size(g1 + g2, entities) == Size(g1, entities) + Size(g2, entities)
  {
    if g1 != [] {
      assert (g1 + g2)[1..] == g1[1..] + g2;
      SizeAppend(g1[1..], g2, entities);
    } else {
      assert g1 + g2 == g2;
    }
  }

  /** Flattening distributes over concatenation of the group list: the flattened
      list is the concatenation of the per-group blocks. */
  lemma {:induction false} FlattenAppend(g1: seq<string>, g2: seq<string>, entities: Obj<seq<string>>)
    requires Covers(entities, g1 + g2)
    ensures Covers(entities, g1) && Covers(entities, g2)
    ensures Flatten(g1 + g2, entities) == Flatten(g1, entities) + Flatten(g2, entities)
  {
    if g1 != [] {
      assert (g1 + g2)[1..] == g1[1..] + g2;
      FlattenAppend(g1[1..], g2, entities);
    } else {
      assert g1 + g2 == g2;
    }
  }

  /** Entity `j` of group `groups[i]` sits at position `Size(groups[..i]) + j`: groups
      follow the order of `groups`, entities keep their order inside their group, and
      each pair carries the id of the group it came from. */
  lemma FlattenAt(groups: seq<string>, entities: Obj<seq<string>>, i: nat, j: nat)
    requires Covers(entities, groups)
    requires i < |groups| && j < |entities.vals[groups[i]]|
    ensures Covers(entities, groups[..i])
    ensures Size(groups[..i], entities) + j < |Flatten(groups, entities)|
    ensures Flatten(groups, entities)[Size(groups[..i], entities) + j]
         == EntityDetails(entities.vals[groups[i]][j], groups[i])
  {
    var pre, g, post := groups[..i], groups[i], groups[i + 1..];
    assert groups == pre + ([g] + post);
    FlattenAppend(pre, [g] + post, entities);
    FlattenAppend([g], post, entities);
    var block := GroupBlock(g, entities.vals[g]);
    assert Flatten([g], entities) == block + Flatten([], entities);
    assert Flatten(groups, entities) == Flatten(pre, entities) + (block + Flatten(post, entities));
    assert (Flatten(pre, entities) + (block + Flatten(post, entities)))[|Flatten(pre, entities)| + j] == block[j];
  }

  /** Every entity of an earlier group comes before every entity of a later one. */
  lemma GroupsInOrder(groups: seq<string>, entities: Obj<seq<string>>, i1: nat, i2: nat)
    requires Covers(entities, groups)
    requires i1 < i2 <= |groups|
    ensures Covers(entities, groups[..i1]) && Covers(entities, groups[..i2])
    ensures Size(groups[..i1], entities) + |entities.vals[groups[i1]]| <= Size(groups[..i2], entities)
  {
    assert groups[..i2] == groups[..i1] + groups[i1..i2];
    SizeAppend(groups[..i1], groups[i1..i2], entities);
    assert groups[i1..i2] == [groups[i1]] + groups[i1 + 1..i2];
    SizeAppend([groups[i1]], groups[i1 + 1..i2], entities);
  }

  lemma {:induction false} InGroupAppend(a: seq<EntityDetails>, b: seq<EntityDetails>, g: string)
    ensures InGroup(a + b, g) == InGroup(a, g) + InGroup(b, g)
  {
    if a != [] {
      assert (a + b)[1..] == a[1..] + b;
      InGroupAppend(a[1..], b, g);
    } else {
      assert a + b == b;
    }
  }

  lemma {:induction false} InGroupOfBlock(h: string, ids: seq<string>, g: string)
    ensures InGroup(GroupBlock(h, ids), g) == if h == g then GroupBlock(h, ids) else []
  {
    if ids != [] {
      assert GroupBlock(h, ids) == [EntityDetails(ids[0], h)] + GroupBlock(h, ids[1..]);
      InGroupOfBlock(h, ids[1..], g);
    }
  }

  /** Re-deriving group membership from the flattened list gives back each group's
      entity ids, in order, when the group ids are distinct; a group that is not
      listed gets nothing. */
  lemma {:induction false} FlattenRoundTrip(groups: seq<string>, entities: Obj<seq<string>>, g: string)
    requires Covers(entities, groups) && Distinct(groups)
    ensures g in groups ==> EntityIds(InGroup(Flatten(groups, entities), g)) == entities.vals[g]
    ensures g !in groups ==> InGroup(Flatten(groups, entities), g) == []
  {
    if groups != [] {
      var head := GroupBlock(groups[0], entities.vals[groups[0]]);
      InGroupAppend(head, Flatten(groups[1..], entities), g);
      InGroupOfBlock(groups[0], entities.vals[groups[0]], g);
      DistinctTail(groups);
      FlattenRoundTrip(groups[1..], entities, g);
    }
  }

  /** The hook's `entitiesList` holds `entities[g].length` pairs per key, and filtering
      it by group gives back every group's entity ids in order. */
  lemma EntitiesListRoundTrip(entities: Obj<seq<string>>, g: string)
    requires WellFormed(entities)
    ensures |EntitiesList(entities)| == Size(entities.keys, entities)
    ensures g in entities.vals ==> EntityIds(InGroup(EntitiesList(entities), g)) == entities.vals[g]
    ensures g !in entities.vals ==> InGroup(EntitiesList(entities), g) == []
  {
    assert g in entities.vals <==> g in entities.keys;
    FlattenRoundTrip(entities.keys, entities, g);
  }
}
