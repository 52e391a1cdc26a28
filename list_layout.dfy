/** The list layout's preparation of the bulk-selection input: the ids of the group
    columns, the `entities` object `{ groupID: issueIds[] }` it builds from them and
    the issue ids of the store, which groups it renders, and the position of a group
    among the columns. */
module ListLayout {
  import opened Common
  import opened JsObject
  import opened EntityIndex
  import ProjectIssueStore

  /** A group column of the layout; only its id is read here. */
  datatype GroupColumn = GroupColumn(id: string)

  /** `groups.map((g) => g.id)`. The same projection as `ProjectIssueStore.IdsOf`,
      but over the layout's column records rather than issues: the two record types
      are distinct datatypes, so each has its own projection. */
  function GroupIds(groups: seq<GroupColumn>): (ids: seq<string>)
    ensures |ids| == |groups| && forall i :: 0 <= i < |groups| ==> ids[i] == groups[i].id
  {
    seq(|groups|, i requires 0 <= i < |groups| => groups[i].id)
  }

  /** `orderedGroups` after `orderedGroups[gID] = []` for each id in turn: every
      group starts empty, in column order. */
  function EmptyGroups(groupIds: seq<string>): (o: Obj<seq<string>>)
    ensures WellFormed(o)
    ensures o.vals.Keys == set g | g in groupIds
    ensures forall g :: g in o.vals ==> o.vals[g] == []
    ensures Distinct(groupIds) ==> o.keys == groupIds
  {
    if groupIds == [] then EmptyObj()
    else
      var init := groupIds[..|groupIds| - 1];
      var last := groupIds[|groupIds| - 1];
      assert groupIds == init + [last];
      var o := EmptyGroups(init);
      assert Distinct(groupIds) ==> Distinct(init) && last !in init by {
        if Distinct(groupIds) {
          forall i, j | 0 <= i < j < |init| ensures init[i] != init[j] { assert init[i] == groupIds[i] && init[j] == groupIds[j]; }
          forall i | 0 <= i < |init| ensures init[i] != last { assert init[i] == groupIds[i]; }
        }
      }
      Put(o, last, [])
  }

  /** `groupIds[0]` as a property key: without any column it is `undefined`, which
      becomes the key "undefined". */
  function ListKey(groupIds: seq<string>): string
  {
    if |groupIds| > 0 then groupIds[0] else "undefined"
  }

  /** The shapes of issue ids the layout can be handed. In the flat list
      (`group_by === null`) the store hands over an id list; grouped, it hands over
      ids by group, nothing, or an empty list (a non-empty list spread as an object
      would give index keys, and sub-grouped ids do not reach this layout). */
  ghost predicate Admissible(isList: bool, issueIds: Option<ProjectIssueStore.GroupedIds>)
  {
    if isList then issueIds.Some? && issueIds.value.Ungrouped?
    else
      || issueIds.None?
      || issueIds == Some(ProjectIssueStore.Ungrouped([]))
      || (issueIds.Some? && issueIds.value.Grouped? && WellFormed(issueIds.value.groups))
  }

  /** `entities`: in the flat list every issue id goes under the first column;
      grouped, the ids by group override the empty groups, spread into a fresh
      object first. */
  function Entities(groupIds: seq<string>, isList: bool, issueIds: Option<ProjectIssueStore.GroupedIds>): (e: Obj<seq<string>>)
    requires Admissible(isList, issueIds)
    ensures WellFormed(e)
  {
    var orderedGroups := EmptyGroups(groupIds);
    if isList then Assign(orderedGroups, Single(ListKey(groupIds), issueIds.value.ids))
    else if issueIds.Some? && issueIds.value.Grouped? then Assign(orderedGroups, issueIds.value.groups)
    else Assign(orderedGroups, EmptyObj())
  }

  /** The layout's construction of `groupIds` and `entities`, with `is_list` read
      as `group_by === null`. */
  method BuildEntities(groups: seq<GroupColumn>, groupBy: Option<string>, issueIds: Option<ProjectIssueStore.GroupedIds>)
    returns (groupIds: seq<string>, entities: Obj<seq<string>>)
    requires Admissible(groupBy.None?, issueIds)
    ensures groupIds == GroupIds(groups)
    ensures entities == Entities(groupIds, groupBy.None?, issueIds)
  {
    var isList := groupBy.None?;
    groupIds := GroupIds(groups);
    var orderedGroups := EmptyObj();
    for i := 0 to |groupIds|
      invariant orderedGroups == EmptyGroups(groupIds[..i])
    {
      assert groupIds[..i + 1][..i] == groupIds[..i];
      orderedGroups := Put(orderedGroups, groupIds[i], []);
    }
    assert groupIds[..|groupIds|] == groupIds;
    if isList {
      entities := Assign(orderedGroups, Single(ListKey(groupIds), issueIds.value.ids));
    } else if issueIds.Some? && issueIds.value.Grouped? {
      entities := Assign(orderedGroups, issueIds.value.groups);
    } else {
      entities := Assign(orderedGroups, EmptyObj());
    }
  }

  /** Every column has an entry in `entities`, so the selection group's flattening
      over the columns never meets a missing group. */
  lemma EntitiesCoverColumns(groupIds: seq<string>, isList: bool, issueIds: Option<ProjectIssueStore.GroupedIds>)
    requires Admissible(isList, issueIds)
    ensures Covers(Entities(groupIds, isList, issueIds), groupIds)
    ensures GroupEntityDetails(groupIds, Entities(groupIds, isList, issueIds)).Ok?
  {
  }

  /** Flat list: with distinct columns, `entities` lists exactly the columns in
      order, the first holding every issue id and the others none; without columns
      it is `{ undefined: ids }`. */
  lemma ListEntities(groupIds: seq<string>, ids: seq<string>)
    requires Distinct(groupIds)
    ensures var e := Entities(groupIds, true, Some(ProjectIssueStore.Ungrouped(ids)));
      && (groupIds != [] ==> e.keys == groupIds && e.vals[groupIds[0]] == ids)
      && (groupIds != [] ==> forall g :: g in groupIds && g != groupIds[0] ==> e.vals[g] == [])
      && (groupIds == [] ==> e == Single("undefined", ids))
  {
    var e := Entities(groupIds, true, Some(ProjectIssueStore.Ungrouped(ids)));
    var orderedGroups := EmptyGroups(groupIds);
    AssignSingle(orderedGroups, ListKey(groupIds), ids);
    assert e == Put(orderedGroups, ListKey(groupIds), ids);
    if groupIds == [] {
      assert orderedGroups == EmptyObj();
    }
  }

  /** Grouped: with distinct columns, `entities` starts with the columns in order;
      a column takes its ids from the store when the store has that group and is
      empty otherwise; a group the store has but the columns do not is kept after
      them. */
  lemma GroupedEntities(groupIds: seq<string>, byGroup: Obj<seq<string>>)
    requires Distinct(groupIds) && WellFormed(byGroup)
    ensures var e := Entities(groupIds, false, Some(ProjectIssueStore.Grouped(byGroup)));
      && |groupIds| <= |e.keys| && e.keys[..|groupIds|] == groupIds
      && e.vals.Keys == (set g | g in groupIds) + byGroup.vals.Keys
      && (forall g :: g in groupIds ==> e.vals[g] == if g in byGroup.vals then byGroup.vals[g] else [])
      && (forall g :: g in byGroup.vals ==> e.vals[g] == byGroup.vals[g])
      && (byGroup.vals.Keys <= (set g | g in groupIds) ==> e.keys == groupIds)
  {
  }

  /** When only the first key holds entities, the flattening is that key's block. */
  lemma FlattenFirstOnly(keys: seq<string>, entities: Obj<seq<string>>)
    requires keys != [] && Covers(entities, keys)
    requires forall g :: g in keys[1..] ==> entities.vals[g] == []
    ensures Flatten(keys, entities) == GroupBlock(keys[0], entities.vals[keys[0]])
  {
    FlattenOfEmpty(keys[1..], entities);
  }

  lemma {:induction false} FlattenOfEmpty(groups: seq<string>, entities: Obj<seq<string>>)
    requires Covers(entities, groups)
    requires forall g :: g in groups ==> entities.vals[g] == []
    ensures Flatten(groups, entities) == []
  {
    if groups != [] {
      FlattenOfEmpty(groups[1..], entities);
    }
  }

  /** Flat list: the selection list over `entities` is every issue id, in order,
      in the first column. */
  lemma ListSelectionList(groupIds: seq<string>, ids: seq<string>)
    requires Distinct(groupIds)
    ensures EntitiesList(Entities(groupIds, true, Some(ProjectIssueStore.Ungrouped(ids))))
         == GroupBlock(ListKey(groupIds), ids)
  {
    var e := Entities(groupIds, true, Some(ProjectIssueStore.Ungrouped(ids)));
    ListEntities(groupIds, ids);
    if groupIds != [] {
      var rest := groupIds[1..];
      assert forall g :: g in rest ==> g in groupIds && g != groupIds[0] by {
        forall j | 0 <= j < |rest| ensures rest[j] in groupIds && rest[j] != groupIds[0] {
          assert rest[j] == groupIds[j + 1];
        }
      }
    }
    FlattenFirstOnly(e.keys, e);
  }

  /** Grouped: filtering the selection list by a column gives back the store's ids
      for that group, and nothing for a group the store lacks. Store groups without
      a column stay in `entities` and do not disturb the columns. */
  lemma GroupedSelectionList(groupIds: seq<string>, byGroup: Obj<seq<string>>, g: string)
    requires Distinct(groupIds) && WellFormed(byGroup)
    requires g in groupIds
    ensures var list := EntitiesList(Entities(groupIds, false, Some(ProjectIssueStore.Grouped(byGroup))));
      EntityIds(InGroup(list, g)) == if g in byGroup.vals then byGroup.vals[g] else []
  {
    var e := Entities(groupIds, false, Some(ProjectIssueStore.Grouped(byGroup)));
    GroupedEntities(groupIds, byGroup);
    EntitiesListRoundTrip(e, g);
  }

  /** `issues?.length || 0` */
  function IssuesCount(issues: Option<seq<string>>): nat
  {
    if issues.Some? then |issues.value| else 0
  }

  /** `validateEmptyIssueGroups`: a group is rendered unless empty groups are hidden
      and it has no issues. */
  function ValidateEmptyIssueGroups(issues: Option<seq<string>>, showEmptyGroup: Option<bool>): (shown: bool)
    ensures !shown <==> showEmptyGroup != Some(true) && (issues.None? || issues.value == [])
  {
    var issuesCount := IssuesCount(issues);
    if showEmptyGroup != Some(true) && issuesCount <= 0 then false else true
  }

  /** The issues handed to `validateEmptyIssueGroups` for a column: all the ids in
      the flat list, `issueIds?.[group.id]` when grouped. */
  function ColumnIssues(isList: bool, issueIds: Option<ProjectIssueStore.GroupedIds>, groupId: string): (r: Option<seq<string>>)
    requires Admissible(isList, issueIds)
    ensures isList ==> r == Some(issueIds.value.ids)
    ensures !isList && issueIds.None? ==> r == None
    ensures !isList && issueIds.Some? ==>
      var m := ProjectIssueStore.Member(issueIds.value, groupId);
      r == if m.Some? && m.value.Ungrouped? then Some(m.value.ids) else None
  {
    if isList then Some(issueIds.value.ids)
    else if issueIds.Some? && issueIds.value.Grouped? && groupId in issueIds.value.groups.vals then
      Some(issueIds.value.groups.vals[groupId])
    else None
  }

  /** A column is rendered exactly when empty groups are shown or its entry in
      `entities` is non-empty; in the flat list that entry is the first column's. */
  lemma RenderedIffNonEmpty(groupIds: seq<string>, isList: bool, issueIds: Option<ProjectIssueStore.GroupedIds>,
                            showEmptyGroup: Option<bool>, g: string)
    requires Admissible(isList, issueIds)
    requires g in groupIds
    ensures var e := Entities(groupIds, isList, issueIds);
      ValidateEmptyIssueGroups(ColumnIssues(isList, issueIds, g), showEmptyGroup) <==>
        showEmptyGroup == Some(true) || |e.vals[if isList then ListKey(groupIds) else g]| > 0
  {
    assert |groupIds| > 0;
  }

  /** `getGroupIndex`: the first column whose id equals `groupId`, or -1; an
      undefined `groupId` matches none. */
  function GetGroupIndex(groups: seq<GroupColumn>, groupId: Option<string>): (r: int)
    ensures -1 <= r < |groups|
    ensures r >= 0 ==> groupId == Some(groups[r].id) && forall j :: 0 <= j < r ==> groups[j].id != groupId.value
    ensures r == -1 ==> forall j :: 0 <= j < |groups| ==> groupId != Some(groups[j].id)
  {
    if groups == [] then -1
    else if groupId == Some(groups[0].id) then 0
    else
      var k := GetGroupIndex(groups[1..], groupId);
      if k == -1 then -1 else k + 1
  }

  /** With distinct column ids, the index of a column's own id is its position. */
  lemma GroupIndexOfColumn(groups: seq<GroupColumn>, i: nat)
    requires Distinct(GroupIds(groups))
    requires i < |groups|
    ensures GetGroupIndex(groups, Some(groups[i].id)) == i
  {
    var ids := GroupIds(groups);
    var r := GetGroupIndex(groups, Some(groups[i].id));
    assert r >= 0;
    assert ids[r] == ids[i];
  }
}
