/** The project issue store `ProjectIssues`: for each project the ordered list of its
    issue ids, the loader flag, the read projections that group that list for the
    current layout, and the actions that edit the list and the issue records after
    (or, for some, before) the remote service answers.

    The remote service is not modelled: each action receives the service's answer
    as a `Result` parameter, so every outcome is covered. The grouping helpers and
    the issue map's `getIssuesByIds` are not part of this model either; the getters
    receive them as functions (`Helpers`). */
module ProjectIssueStore {
  import opened Common
  import opened JsObject

  /** A JSON property value of an issue record. */
  datatype Value = Null | Bool(b: bool) | Num(n: int) | Str(s: string) | Arr(items: seq<Value>)

  /** An issue record: its id and its other properties by name. */
  datatype Issue = Issue(id: string, props: map<string, Value>)

  /** The three shapes of `groupedIssueIds`: a flat list, ids by group, and ids by
      sub-group and then group. */
  datatype GroupedIds =
    | Ungrouped(ids: seq<string>)
    | Grouped(groups: Obj<seq<string>>)
    | SubGrouped(subGroups: Obj<Obj<seq<string>>>)

  /** The fields of the project's display filters that the store reads. */
  datatype DisplayFilters = DisplayFilters(
    layout: Option<string>,
    groupBy: Option<string>,
    subGroupBy: Option<string>,
    orderBy: Option<string>)

  /** The collaborators the getters call. */
  datatype Helpers = Helpers(
    // rootStore.issues.getIssuesByIds(ids, "un-archived")
    getIssuesByIds: seq<string> -> Option<seq<Issue>>,
    // groupedIssues(groupBy, orderBy, issues, isCalendarIssues)
    groupedIssues: (string, string, seq<Issue>, bool) -> Obj<seq<string>>,
    // subGroupedIssues(subGroupBy, groupBy, orderBy, issues)
    subGroupedIssues: (string, string, string, seq<Issue>) -> Obj<Obj<seq<string>>>,
    // unGroupedIssues(orderBy, issues)
    unGroupedIssues: (string, seq<Issue>) -> seq<string>,
    // issueCountBasedOnFilters(groupedIssueIds, layout, groupBy, subGroupBy)
    issueCountBasedOnFilters: (GroupedIds, string, Option<string>, Option<string>) -> int)

  /** What the getters read outside the store: the root store's project id, the
      display filters of the project, and the helpers. */
  datatype View = View(projectId: Option<string>, displayFilters: Option<DisplayFilters>, helpers: Helpers)

  datatype LoadType = InitLoader | Mutation

  // ----- read projections -----

  predicate KnownLayout(layout: Option<string>)
  {
    layout.Some? && layout.value in {"list", "kanban", "calendar", "spreadsheet", "gantt_chart"}
  }

  /** The layout dispatch of `groupedIssueIds` once the current issues are known.
      List needs an order; kanban needs a group and an order; calendar groups by
      target date; spreadsheet and gantt lay out a flat list, by default ordered by
      newest first and by manual sort order respectively. Anything else is `[]`. */
  function LayoutIds(f: DisplayFilters, h: Helpers, cur: seq<Issue>): (r: GroupedIds)
    ensures f.layout == Some("list") && Truthy(f.orderBy) && Truthy(f.groupBy) ==>
      r == Grouped(h.groupedIssues(f.groupBy.value, f.orderBy.value, cur, false))
    ensures f.layout == Some("list") && Truthy(f.orderBy) && !Truthy(f.groupBy) ==>
      r == Ungrouped(h.unGroupedIssues(f.orderBy.value, cur))
    ensures f.layout == Some("kanban") && Truthy(f.groupBy) && Truthy(f.orderBy) && Truthy(f.subGroupBy) ==>
      r == SubGrouped(h.subGroupedIssues(f.subGroupBy.value, f.groupBy.value, f.orderBy.value, cur))
    ensures f.layout == Some("kanban") && Truthy(f.groupBy) && Truthy(f.orderBy) && !Truthy(f.subGroupBy) ==>
      r == Grouped(h.groupedIssues(f.groupBy.value, f.orderBy.value, cur, false))
    ensures f.layout == Some("calendar") ==> r == Grouped(h.groupedIssues("target_date", "target_date", cur, true))
    ensures f.layout == Some("spreadsheet") ==> r == Ungrouped(h.unGroupedIssues(OrDefault(f.orderBy, "-created_at"), cur))
    ensures f.layout == Some("gantt_chart") ==> r == Ungrouped(h.unGroupedIssues(OrDefault(f.orderBy, "sort_order"), cur))
    ensures || (f.layout == Some("list") && !Truthy(f.orderBy))
            || (f.layout == Some("kanban") && !(Truthy(f.groupBy) && Truthy(f.orderBy)))
            || !KnownLayout(f.layout)
            ==> r == Ungrouped([])
  {
    var layout := f.layout;
    if layout == Some("list") && Truthy(f.orderBy) then
      if Truthy(f.groupBy) then Grouped(h.groupedIssues(f.groupBy.value, f.orderBy.value, cur, false))
      else Ungrouped(h.unGroupedIssues(f.orderBy.value, cur))
    else if layout == Some("kanban") && Truthy(f.groupBy) && Truthy(f.orderBy) then
      if Truthy(f.subGroupBy) then SubGrouped(h.subGroupedIssues(f.subGroupBy.value, f.groupBy.value, f.orderBy.value, cur))
      else Grouped(h.groupedIssues(f.groupBy.value, f.orderBy.value, cur, false))
    else if layout == Some("calendar") then Grouped(h.groupedIssues("target_date", "target_date", cur, true))
    else if layout == Some("spreadsheet") then Ungrouped(h.unGroupedIssues(OrDefault(f.orderBy, "-created_at"), cur))
    else if layout == Some("gantt_chart") then Ungrouped(h.unGroupedIssues(OrDefault(f.orderBy, "sort_order"), cur))
    else Ungrouped([])
  }

  /** `groupedIssueIds`: undefined without a project id, without display filters, or
      when the project has no id list (an empty list still counts as one); `[]` when
      the issue map returns nothing for the list; otherwise the layout's projection. */
  function GroupedIssueIds(v: View, issues: map<string, seq<string>>): (r: Option<GroupedIds>)
    ensures r.None? <==> !Truthy(v.projectId) || v.displayFilters.None? || v.projectId.value !in issues
    ensures r.Some? && v.helpers.getIssuesByIds(issues[v.projectId.value]).None? ==> r == Some(Ungrouped([]))
    ensures r.Some? && v.helpers.getIssuesByIds(issues[v.projectId.value]).Some? ==>
      r == Some(LayoutIds(v.displayFilters.value, v.helpers, v.helpers.getIssuesByIds(issues[v.projectId.value]).value))
  {
    if !Truthy(v.projectId) then None
    else if v.displayFilters.None? then None
    else if v.projectId.value !in issues then None
    else
      match v.helpers.getIssuesByIds(issues[v.projectId.value])
      case None => Some(Ungrouped([]))
      case Some(cur) => Some(LayoutIds(v.displayFilters.value, v.helpers, cur))
  }

  /** `issuesCount`: 0 without display filters, without grouped ids or without a
      layout; otherwise the helper's count for the grouped ids. */
  function IssuesCount(v: View, issues: map<string, seq<string>>): (n: int)
    ensures v.displayFilters.None? || GroupedIssueIds(v, issues).None? || !Truthy(v.displayFilters.value.layout) ==> n == 0
    ensures v.displayFilters.Some? && GroupedIssueIds(v, issues).Some? && Truthy(v.displayFilters.value.layout) ==>
      var f := v.displayFilters.value;
      n == v.helpers.issueCountBasedOnFilters(GroupedIssueIds(v, issues).value, f.layout.value,
                                              OrUndefined(f.groupBy), OrUndefined(f.subGroupBy))
  {
    var grouped := GroupedIssueIds(v, issues);
    if v.displayFilters.None? || grouped.None? then 0
    else
      var f := v.displayFilters.value;
      if !Truthy(f.layout) then 0
      else v.helpers.issueCountBasedOnFilters(grouped.value, f.layout.value, OrUndefined(f.groupBy), OrUndefined(f.subGroupBy))
  }

  /** `g?.[key]` on a grouped value: a group's id list, a sub-group's groups, and
      nothing for a flat list. */
  function Member(g: GroupedIds, key: string): (r: Option<GroupedIds>)
    ensures g.Ungrouped? ==> r == None
    ensures g.Grouped? ==> (r.Some? <==> key in g.groups.vals) && (r.Some? ==> r.value == Ungrouped(g.groups.vals[key]))
    ensures g.SubGrouped? ==> (r.Some? <==> key in g.subGroups.vals) && (r.Some? ==> r.value == Grouped(g.subGroups.vals[key]))
  {
    match g
    case Ungrouped(_) => None
    case Grouped(o) => if key in o.vals then Some(Ungrouped(o.vals[key])) else None
    case SubGrouped(o) => if key in o.vals then Some(Grouped(o.vals[key])) else None
  }

  /** `getIssueIds(groupId, subGroupId)`. Without group-by and sub-group-by it hands
      back `groupedIssueIds` whole; with both set and both ids given it looks up
      `[subGroupId][groupId]`; with group-by set and a group id given it looks up
      `[groupId]`; otherwise undefined. */
  function GetIssueIds(v: View, issues: map<string, seq<string>>, groupId: Option<string>, subGroupId: Option<string>): (r: Option<GroupedIds>)
    ensures v.displayFilters.None? || GroupedIssueIds(v, issues).None? ==> r == None
    ensures v.displayFilters.Some? && GroupedIssueIds(v, issues).Some? ==>
      var f, g := v.displayFilters.value, GroupedIssueIds(v, issues).value;
      && (!Truthy(f.groupBy) && !Truthy(f.subGroupBy) ==> r == Some(g))
      && (Truthy(f.groupBy) && Truthy(f.subGroupBy) && Truthy(groupId) && Truthy(subGroupId) ==>
            r == (match Member(g, subGroupId.value) case None => None case Some(s) => Member(s, groupId.value)))
      && (Truthy(f.groupBy) && Truthy(groupId) && !(Truthy(f.subGroupBy) && Truthy(subGroupId)) ==>
            r == Member(g, groupId.value))
      && (!Truthy(f.groupBy) && Truthy(f.subGroupBy) ==> r == None)
      && (Truthy(f.groupBy) && !Truthy(groupId) ==> r == None)
  {
    var grouped := GroupedIssueIds(v, issues);
    if v.displayFilters.None? || grouped.None? then None
    else
      var f := v.displayFilters.value;
      if !Truthy(f.groupBy) && !Truthy(f.subGroupBy) then grouped
      else if Truthy(f.groupBy) && Truthy(f.subGroupBy) && Truthy(groupId) && Truthy(subGroupId) then
        match Member(grouped.value, subGroupId.value)
        case None => None
        case Some(s) => Member(s, groupId.value)
      else if Truthy(f.groupBy) && Truthy(groupId) then Member(grouped.value, groupId.value)
      else None
  }

  /** In the list layout grouped by a field, the ids of one group are exactly what
      the grouping helper put under that group, and a group it did not produce has
      none. */
  lemma ListGroupLookup(v: View, issues: map<string, seq<string>>, groupId: string)
    requires Truthy(v.projectId) && v.projectId.value in issues
    requires v.displayFilters.Some?
    requires var f := v.displayFilters.value;
      f.layout == Some("list") && Truthy(f.orderBy) && Truthy(f.groupBy) && !Truthy(f.subGroupBy)
    requires v.helpers.getIssuesByIds(issues[v.projectId.value]).Some?
    requires groupId != ""
    ensures var f := v.displayFilters.value;
      var o := v.helpers.groupedIssues(f.groupBy.value, f.orderBy.value,
                                       v.helpers.getIssuesByIds(issues[v.projectId.value]).value, false);
      GetIssueIds(v, issues, Some(groupId), None) ==
        if groupId in o.vals then Some(Ungrouped(o.vals[groupId])) else None
  {
  }

  // ----- the issue map (rootStore.issues) -----

  /** `addIssue(issues)`: each record is merged into the one already held, its
      properties winning. */
  function AddAll(m: map<string, Issue>, list: seq<Issue>): (r: map<string, Issue>)
    ensures r.Keys == m.Keys + (set i | i in list :: i.id)
    decreases |list|
  {
    if list == [] then m
    else
      var i := list[0];
      var merged := if i.id in m then Issue(i.id, m[i.id].props + i.props) else i;
      assert (set j | j in list :: j.id) == {i.id} + (set j | j in list[1..] :: j.id);
      AddAll(m[i.id := merged], list[1..])
  }

  /** `updateIssue(id, patch)`: the patch is merged into a record that exists. */
  function Patch(m: map<string, Issue>, id: string, patch: map<string, Value>): (r: map<string, Issue>)
    ensures r.Keys == m.Keys
  {
    if id in m then m[id := m[id].(props := m[id].props + patch)] else m
  }

  class IssueMapStore {
    var issuesMap: map<string, Issue>

    constructor ()
      ensures issuesMap == map[]
    {
      issuesMap := map[];
    }

    function GetIssueById(id: string): (r: Option<Issue>)
      reads this
      ensures r.Some? <==> id in issuesMap
      ensures r.Some? ==> r.value == issuesMap[id]
    {
      if id in issuesMap then Some(issuesMap[id]) else None
    }

    method AddIssue(list: seq<Issue>)
      modifies this
      ensures issuesMap == AddAll(old(issuesMap), list)
    {
      issuesMap := AddAll(issuesMap, list);
    }

    method UpdateIssue(id: string, patch: map<string, Value>)
      modifies this
      ensures issuesMap == Patch(old(issuesMap), id, patch)
    {
      issuesMap := Patch(issuesMap, id, patch);
    }

    method RemoveIssue(id: string)
      modifies this
      ensures issuesMap == old(issuesMap) - {id}
    {
      issuesMap := issuesMap - {id};
    }
  }

  // ----- list surgery -----

  /** `response.map((issue) => issue.id)` (the list layout's `GroupIds` is the same
      projection over its column records). */
  function IdsOf(list: seq<Issue>): (ids: seq<string>)
    ensures |ids| == |list| && forall i :: 0 <= i < |list| ==> ids[i] == list[i].id
  {
    seq(|list|, i requires 0 <= i < |list| => list[i].id)
  }

  /** lodash `pull(s, x)`: every occurrence of `x` goes, the rest keep their order. */
  function Pull(s: seq<string>, x: string): (r: seq<string>)
    ensures x !in r
    ensures forall y :: y != x ==> (y in r <==> y in s)
    ensures multiset(r) == multiset(s)[x := 0]
    ensures x !in s ==> r == s
  {
    if s == [] then []
    else
      var rest := Pull(s[1..], x);
      assert s == [s[0]] + s[1..];
      if s[0] == x then rest else [s[0]] + rest
  }

  /** `pull(this.issues[projectId], x)`; pulling from an absent list does nothing. */
  function PullFrom(issues: map<string, seq<string>>, p: string, x: string): (r: map<string, seq<string>>)
    ensures r.Keys == issues.Keys
  {
    if p in issues then issues[p := Pull(issues[p], x)] else issues
  }

  /** `pull` of each of `xs` in turn. */
  function PullAll(s: seq<string>, xs: seq<string>): seq<string>
  {
    if xs == [] then s else Pull(PullAll(s, xs[..|xs| - 1]), xs[|xs| - 1])
  }

  /** Reference definition: the elements of `s` that are not in `xs`, in order. */
  function Without(s: seq<string>, xs: seq<string>): seq<string>
  {
    if s == [] then []
    else if s[0] in xs then Without(s[1..], xs)
    else [s[0]] + Without(s[1..], xs)
  }

  lemma {:induction false} PullWithout(s: seq<string>, xs: seq<string>, x: string)
    ensures Pull(Without(s, xs), x) == Without(s, xs + [x])
  {
    if s != [] {
      PullWithout(s[1..], xs, x);
      assert s[0] in xs + [x] <==> s[0] in xs || s[0] == x;
      if s[0] !in xs {
        var w := [s[0]] + Without(s[1..], xs);
        assert w[1..] == Without(s[1..], xs);
      }
    }
  }

  /** Pulling a list of ids one by one keeps exactly the entries not among them, in
      their original order. */
  lemma {:induction false} PullAllIsWithout(s: seq<string>, xs: seq<string>)
    ensures PullAll(s, xs) == Without(s, xs)
    decreases |xs|
  {
    if xs == [] {
      WithoutNothing(s);
    } else {
      var init := xs[..|xs| - 1];
      PullAllIsWithout(s, init);
      PullWithout(s, init, xs[|xs| - 1]);
      assert init + [xs[|xs| - 1]] == xs;
    }
  }

  lemma {:induction false} WithoutNothing(s: seq<string>)
    ensures Without(s, []) == s
  {
    if s != [] {
      WithoutNothing(s[1..]);
      assert s == [s[0]] + s[1..];
    }
  }

  /** The set of ids a list holds. */
  function Members(s: seq<string>): set<string>
  {
    set x | x in s
  }

  /** `pull` of each id from the project's list; an absent list stays absent. */
  function PullAllFrom(issues: map<string, seq<string>>, p: string, xs: seq<string>): (r: map<string, seq<string>>)
    ensures r.Keys == issues.Keys
  {
    if p in issues then issues[p := PullAll(issues[p], xs)] else issues
  }

  /** `findIndex((id) => id === x)` */
  function FindIndex(s: seq<string>, x: string): (r: int)
    ensures -1 <= r < |s|
    ensures r >= 0 ==> s[r] == x && x !in s[..r]
    ensures r == -1 ==> x !in s
  {
    if s == [] then -1
    else if s[0] == x then 0
    else
      var k := FindIndex(s[1..], x);
      assert k >= 0 ==> s[..k + 1] == [s[0]] + s[1..][..k];
      if k == -1 then -1 else k + 1
  }

  /** `splice(findIndex(x), 1)` when found. */
  function RemoveFirst(s: seq<string>, x: string): (r: seq<string>)
    ensures x !in s ==> r == s
  {
    var i := FindIndex(s, x);
    if i >= 0 then s[..i] + s[i + 1..] else s
  }

  /** The splice takes out exactly one occurrence of a present id and nothing else. */
  lemma RemoveFirstCounts(s: seq<string>, x: string)
    ensures multiset(RemoveFirst(s, x)) == multiset(s) - multiset{x}
    ensures x in s ==> |RemoveFirst(s, x)| == |s| - 1
  {
    var i := FindIndex(s, x);
    if i >= 0 {
      assert s == s[..i] + [x] + s[i + 1..];
    } else {
      assert multiset(s)[x] == 0;
    }
  }

  /** The quick-add placeholder round: `x` appended, then the server's id appended,
      then the first `x` spliced out. When the placeholder id is not already in the
      list, the list ends as the old list followed by the server's id. */
  lemma QuickAddReplacesPlaceholder(s: seq<string>, x: string, y: string)
    requires x !in s
    ensures RemoveFirst(s + [x] + [y], x) == s + [y]
  {
    var t := s + [x] + [y];
    assert t[|s|] == x && t[..|s|] == s;
    assert FindIndex(t, x) == |s|;
    assert t[|s| + 1..] == [y];
  }

  /** The create path: the new id goes last, or starts the list. */
  function AppendId(issues: map<string, seq<string>>, p: string, id: string): (r: map<string, seq<string>>)
    ensures r.Keys == issues.Keys + {p}
    ensures forall q :: q in issues && q != p ==> r[q] == issues[q]
    ensures r[p] == if p in issues then issues[p] + [id] else [id]
  {
    issues[p := if p in issues then issues[p] + [id] else [id]]
  }

  /** The effect of a fetch on the id lists. */
  function AfterFetch(issues: map<string, seq<string>>, p: string, response: Result<seq<Issue>>): map<string, seq<string>>
  {
    if response.Ok? then issues[p := IdsOf(response.value)] else issues
  }

  /** The effect of a fetch on the issue map. */
  function RecordsAfterFetch(m: map<string, Issue>, response: Result<seq<Issue>>): map<string, Issue>
  {
    if response.Ok? then AddAll(m, response.value) else m
  }

  // ----- quick-add linking -----

  /** A linking call quick-add issues after the create succeeds. */
  datatype LinkCall =
    | AddCycleToIssue(cycleId: Value, issueId: string)
    | ChangeModulesInIssue(issueId: string, addModuleIds: seq<Value>, removeModuleIds: seq<Value>)

  predicate TruthyValue(v: Value)
  {
    match v
    case Null => false
    case Bool(b) => b
    case Num(n) => n != 0
    case Str(s) => s != ""
    case Arr(_) => true
  }

  /** `issue[k]`, with undefined read as null. */
  function Prop(i: Issue, k: string): Value
  {
    if k in i.props then i.props[k] else Null
  }

  /** `.filter((moduleId) => moduleId != "None")` */
  function WithoutNoneModule(vs: seq<Value>): (r: seq<Value>)
    ensures forall v :: v in r <==> v in vs && v != Str("None")
    ensures |r| <= |vs|
  {
    if vs == [] then []
    else if vs[0] == Str("None") then WithoutNoneModule(vs[1..])
    else [vs[0]] + WithoutNoneModule(vs[1..])
  }

  /** The cycle the new issue is attached to: none when `cycle_id` is "None". */
  function CurrentCycleId(data: Issue): (c: Value)
    ensures c != Str("None")
    ensures Prop(data, "cycle_id") != Str("None") ==> c == Prop(data, "cycle_id")
  {
    var c := Prop(data, "cycle_id");
    if c != Str("") && c == Str("None") then Null else c
  }

  /** The modules the new issue is attached to: its module ids without "None". */
  function CurrentModuleIds(data: Issue): (ms: seq<Value>)
    ensures var m := Prop(data, "module_ids");
      forall v :: v in ms <==> m.Arr? && v in m.items && v != Str("None")
  {
    var m := Prop(data, "module_ids");
    if m.Arr? && |m.items| > 0 then WithoutNoneModule(m.items) else []
  }

  /** The linking calls issued for the new issue `issueId`: a cycle call exactly when
      `cycle_id` is set and is not "None", then a module call exactly when some module
      id other than "None" is given, adding just the modules that are not "None". */
  function LinkCalls(data: Issue, issueId: string): (calls: seq<LinkCall>)
    ensures var c := Prop(data, "cycle_id");
      (exists call :: call in calls && call.AddCycleToIssue?) <==> TruthyValue(c) && c != Str("None")
    ensures forall call :: call in calls && call.AddCycleToIssue? ==>
      call == AddCycleToIssue(Prop(data, "cycle_id"), issueId)
    ensures var m := Prop(data, "module_ids");
      (exists call :: call in calls && call.ChangeModulesInIssue?) <==>
        m.Arr? && exists v :: v in m.items && v != Str("None")
    ensures forall call :: call in calls && call.ChangeModulesInIssue? ==>
      && call.issueId == issueId && call.removeModuleIds == []
      && (forall v :: v in call.addModuleIds <==> v in Prop(data, "module_ids").items && v != Str("None"))
  {
    var cycleId := CurrentCycleId(data);
    var moduleIds := CurrentModuleIds(data);
    var m := Prop(data, "module_ids");
    assert |moduleIds| > 0 <==> m.Arr? && exists v :: v in m.items && v != Str("None") by {
      if m.Arr? && exists v :: v in m.items && v != Str("None") {
        var v :| v in m.items && v != Str("None");
        assert v in moduleIds;
      }
      if |moduleIds| > 0 {
        assert moduleIds[0] in moduleIds;
      }
    }
    var cycleCalls := if TruthyValue(cycleId) then [AddCycleToIssue(cycleId, issueId)] else [];
    var moduleCalls := if |moduleIds| > 0 then [ChangeModulesInIssue(issueId, moduleIds, [])] else [];
    var calls := cycleCalls + moduleCalls;
    assert forall call :: call in calls <==> call in cycleCalls || call in moduleCalls;
    assert TruthyValue(cycleId) ==> calls[0] in calls;
    assert |moduleIds| > 0 ==> calls[|calls| - 1] in calls;
    calls
  }

  // ----- bulk operations on the issue map -----

  /** `updateIssue(id, patch)` for each id in turn. */
  function PatchEach(m: map<string, Issue>, ids: seq<string>, patch: map<string, Value>): (r: map<string, Issue>)
    ensures r.Keys == m.Keys
  {
    if ids == [] then m else Patch(PatchEach(m, ids[..|ids| - 1], patch), ids[|ids| - 1], patch)
  }

  /** Bulk archiving stamps `archived_at` on every listed record the map holds and
      touches nothing else. */
  lemma {:induction false} ArchiveStampsEach(m: map<string, Issue>, ids: seq<string>, at: Value, id: string)
    requires id in m
    ensures var r := PatchEach(m, ids, map["archived_at" := at]);
      && (id in ids ==> r[id].props == r[id].props["archived_at" := at] && "archived_at" in r[id].props)
      && (id in ids ==> r[id] == m[id].(props := m[id].props["archived_at" := at]))
      && (id !in ids ==> r[id] == m[id])
    decreases |ids|
  {
    if ids != [] {
      var init := ids[..|ids| - 1];
      ArchiveStampsEach(m, init, at, id);
      assert id in ids <==> id in init || id == ids[|ids| - 1];
      var r0 := PatchEach(m, init, map["archived_at" := at]);
      if id == ids[|ids| - 1] && id in init {
        assert r0[id].props + map["archived_at" := at] == r0[id].props;
      }
    }
  }

  /** The new value of one property in a bulk update: a scalar replaces; an array
      becomes `[old, ...new]`, whose first element is the old value itself when that
      was an array and `[]` otherwise. */
  function NewValue(existing: Option<Value>, v: Value): (r: Value)
    ensures !v.Arr? ==> r == v
    ensures v.Arr? ==> r.Arr? && |r.items| == 1 + |v.items| && r.items[1..] == v.items
    ensures v.Arr? ==> r.items[0] == if existing.Some? && existing.value.Arr? then existing.value else Arr([])
  {
    if v.Arr? then
      var prior := if existing.Some? && existing.value.Arr? then existing.value else Arr([]);
      Arr([prior] + v.items)
    else v
  }

  function Lookup(props: map<string, Value>, k: string): Option<Value>
  {
    if k in props then Some(props[k]) else None
  }

  /** The properties of one record after a bulk update, each new value computed from
      the record as it was before the update. */
  function ApplyProperties(props: map<string, Value>, keys: seq<string>, vals: map<string, Value>): (r: map<string, Value>)
    requires forall k :: k in keys ==> k in vals
    ensures r.Keys == props.Keys + (set k | k in keys)
    ensures forall k :: k in keys ==> r[k] == NewValue(Lookup(props, k), vals[k])
    ensures forall k :: k in props && k !in keys ==> r[k] == props[k]
  {
    props + NewValues(props, keys, vals)
  }

  /** The new value of each updated property, by key. */
  function NewValues(props: map<string, Value>, keys: seq<string>, vals: map<string, Value>): (r: map<string, Value>)
    requires forall k :: k in keys ==> k in vals
    ensures r.Keys == set k | k in keys
    ensures forall k :: k in keys ==> r[k] == NewValue(Lookup(props, k), vals[k])
  {
    map k | k in keys :: NewValue(Lookup(props, k), vals[k])
  }

  /** Merging the new values key by key builds the same properties as merging them
      all at once. */
  lemma NewValuesSnoc(props: map<string, Value>, keys: seq<string>, k: string, vals: map<string, Value>)
    requires (forall x :: x in keys ==> x in vals) && k in vals
    ensures forall x :: x in keys + [k] ==> x in vals
    ensures props + NewValues(props, keys + [k], vals)
         == (props + NewValues(props, keys, vals)) + map[k := NewValue(Lookup(props, k), vals[k])]
  {
    assert forall x :: x in keys ==> x in keys + [k];
  }

  function UpdateOne(m: map<string, Issue>, id: string, properties: Obj<Value>): (r: map<string, Issue>)
    requires WellFormed(properties)
    ensures r.Keys == m.Keys
  {
    if id in m then
      m[id := m[id].(props := ApplyProperties(m[id].props, properties.keys, properties.vals))]
    else m
  }

  /** The bulk update of each listed issue in turn. */
  function UpdateAll(m: map<string, Issue>, ids: seq<string>, properties: Obj<Value>): (r: map<string, Issue>)
    requires WellFormed(properties)
    ensures r.Keys == m.Keys
  {
    if ids == [] then m else UpdateOne(UpdateAll(m, ids[..|ids| - 1], properties), ids[|ids| - 1], properties)
  }

  /** A scalar property ends with the new value on every listed record, however many
      times the record is listed. */
  lemma {:induction false} BulkScalarReplaces(m: map<string, Issue>, ids: seq<string>, properties: Obj<Value>, id: string, k: string)
    requires WellFormed(properties)
    requires id in m && id in ids && k in properties.vals && !properties.vals[k].Arr?
    ensures k in UpdateAll(m, ids, properties)[id].props
    ensures UpdateAll(m, ids, properties)[id].props[k] == properties.vals[k]
    decreases |ids|
  {
    assert k in properties.keys;
    var init := ids[..|ids| - 1];
    if id != ids[|ids| - 1] {
      assert id in init;
      BulkScalarReplaces(m, init, properties, id, k);
    }
  }

  /** Records that are not listed are left alone. */
  lemma {:induction false} BulkLeavesOthers(m: map<string, Issue>, ids: seq<string>, properties: Obj<Value>, id: string)
    requires WellFormed(properties)
    requires id in m && id !in ids
    ensures UpdateAll(m, ids, properties)[id] == m[id]
    decreases |ids|
  {
    if ids != [] {
      BulkLeavesOthers(m, ids[..|ids| - 1], properties, id);
    }
  }

  /** A record listed once gets, for an array property, `[old, ...new]`, with `old`
      the previous array (or `[]`), and keeps the properties not in the update. */
  lemma {:induction false} BulkArrayNests(m: map<string, Issue>, ids: seq<string>, properties: Obj<Value>, id: string)
    requires WellFormed(properties) && Distinct(ids)
    requires id in m && id in ids
    ensures UpdateAll(m, ids, properties)[id] ==
      m[id].(props := ApplyProperties(m[id].props, properties.keys, properties.vals))
    decreases |ids|
  {
    var init := ids[..|ids| - 1];
    if id == ids[|ids| - 1] {
      assert id !in init by {
        forall j | 0 <= j < |init| ensures init[j] != id { assert init[j] == ids[j]; }
      }
      BulkLeavesOthers(m, init, properties, id);
    } else {
      assert id in init;
      assert Distinct(init) by {
        forall i, j | 0 <= i < j < |init| ensures init[i] != init[j] { assert init[i] == ids[i] && init[j] == ids[j]; }
      }
      BulkArrayNests(m, init, properties, id);
    }
  }

  /** The map while one record's properties are being updated: the first `n` keys
      of the payload merged so far. */
  ghost function PartialUpdate(m: map<string, Issue>, id: string, d: Issue, properties: Obj<Value>, n: nat): map<string, Issue>
    requires WellFormed(properties) && n <= |properties.keys|
  {
    m[id := d.(props := d.props + NewValues(d.props, properties.keys[..n], properties.vals))]
  }

  lemma PartialUpdateStart(m: map<string, Issue>, id: string, d: Issue, properties: Obj<Value>)
    requires WellFormed(properties)
    requires id in m && m[id] == d
    ensures PartialUpdate(m, id, d, properties, 0) == m
  {
    assert properties.keys[..0] == [];
    assert d.props + NewValues(d.props, [], properties.vals) == d.props;
  }

  /** Merging one more key is the issue map's `updateIssue` of that key alone. */
  lemma PartialUpdateStep(m: map<string, Issue>, id: string, d: Issue, properties: Obj<Value>, n: nat)
    requires WellFormed(properties) && n < |properties.keys|
    ensures var k := properties.keys[n];
      PartialUpdate(m, id, d, properties, n + 1)
        == Patch(PartialUpdate(m, id, d, properties, n), id, map[k := NewValue(Lookup(d.props, k), properties.vals[k])])
  {
    var keys, k := properties.keys[..n], properties.keys[n];
    assert properties.keys[..n + 1] == keys + [k];
    assert forall x :: x in keys ==> x in properties.vals by {
      forall x | x in keys ensures x in properties.keys {
        var i :| 0 <= i < |keys| && keys[i] == x;
        assert properties.keys[i] == x;
      }
    }
    MergeStep(m, id, d, keys, k, properties.vals);
  }

  lemma MergeStep(m: map<string, Issue>, id: string, d: Issue, keys: seq<string>, k: string, vals: map<string, Value>)
    requires (forall x :: x in keys ==> x in vals) && k in vals
    ensures forall x :: x in keys + [k] ==> x in vals
    ensures m[id := d.(props := d.props + NewValues(d.props, keys + [k], vals))]
         == Patch(m[id := d.(props := d.props + NewValues(d.props, keys, vals))], id, map[k := NewValue(Lookup(d.props, k), vals[k])])
  {
    NewValuesSnoc(d.props, keys, k, vals);
  }

  /** Once every key is merged the record has had the whole update. */
  lemma PartialUpdateDone(m: map<string, Issue>, id: string, d: Issue, properties: Obj<Value>)
    requires WellFormed(properties)
    requires id in m && m[id] == d
    ensures PartialUpdate(m, id, d, properties, |properties.keys|) == UpdateOne(m, id, properties)
  {
    assert properties.keys[..|properties.keys|] == properties.keys;
  }

  /** The first listed id the map does not hold, or -1. */
  function FirstMissing(m: map<string, Issue>, ids: seq<string>): (r: int)
    ensures -1 <= r < |ids|
    ensures r >= 0 ==> ids[r] !in m && forall j :: 0 <= j < r ==> ids[j] in m
    ensures r == -1 ==> forall j :: 0 <= j < |ids| ==> ids[j] in m
  {
    if ids == [] then -1
    else if ids[0] !in m then 0
    else
      var k := FirstMissing(m, ids[1..]);
      if k == -1 then -1 else k + 1
  }

  // ----- the store -----

  class ProjectIssues {
    var loader: Option<LoadType>
    var issues: map<string, seq<string>>
    const issueMap: IssueMapStore

    constructor (issueMap: IssueMapStore)
      ensures loader == Some(InitLoader) && issues == map[] && this.issueMap == issueMap
    {
      loader := Some(InitLoader);
      issues := map[];
      this.issueMap := issueMap;
    }

    /** `fetchIssues`: on success the project's list becomes the response's ids in
        response order and the records are merged in; either way the loader ends
        unset and the response (or its error) is handed back. */
    method FetchIssues(projectId: string, loadType: LoadType, response: Result<seq<Issue>>) returns (r: Result<seq<Issue>>)
      modifies this, issueMap
      ensures r == response && loader == None
      ensures issues == AfterFetch(old(issues), projectId, response)
      ensures issueMap.issuesMap == RecordsAfterFetch(old(issueMap.issuesMap), response)
    {
      loader := Some(loadType);
      if response.Err? {
        loader := None;
        return response;
      }
      issues := issues[projectId := IdsOf(response.value)];
      loader := None;
      issueMap.AddIssue(response.value);
      r := response;
    }

    /** `createIssue`: on success the server's id is appended to the project's list
        (or starts it) and its record is added; on failure nothing changes. */
    method CreateIssue(projectId: string, data: Issue, response: Result<Issue>) returns (r: Result<Issue>)
      modifies this, issueMap
      ensures r == response && loader == old(loader)
      ensures response.Ok? ==> issues == AppendId(old(issues), projectId, response.value.id)
      ensures response.Ok? ==> issueMap.issuesMap == AddAll(old(issueMap.issuesMap), [response.value])
      ensures response.Err? ==> issues == old(issues) && issueMap.issuesMap == old(issueMap.issuesMap)
    {
      if response.Err? {
        return response;
      }
      issues := AppendId(issues, projectId, response.value.id);
      issueMap.AddIssue([response.value]);
      r := response;
    }

    /** `updateIssue`: the patch is applied to the record at once; if the service
        rejects it the project is fetched again and the error is handed back. */
    method UpdateIssue(projectId: string, issueId: string, patch: map<string, Value>,
                       response: Result<()>, refetch: Result<seq<Issue>>) returns (r: Result<()>)
      modifies this, issueMap
      ensures r == response
      ensures response.Ok? ==> issues == old(issues) && loader == old(loader)
      ensures response.Ok? ==> issueMap.issuesMap == Patch(old(issueMap.issuesMap), issueId, patch)
      ensures response.Err? ==> loader == None && issues == AfterFetch(old(issues), projectId, refetch)
      ensures response.Err? ==> (issueMap.issuesMap ==
        RecordsAfterFetch(Patch(old(issueMap.issuesMap), issueId, patch), refetch))
    {
      issueMap.UpdateIssue(issueId, patch);
      if response.Err? {
        var _ := FetchIssues(projectId, Mutation, refetch);
        return response;
      }
      r := response;
    }

    /** `removeIssue`: once the service confirms, every occurrence of the id leaves
        the project's list and the record is dropped. */
    method RemoveIssue(projectId: string, issueId: string, response: Result<()>) returns (r: Result<()>)
      modifies this, issueMap
      ensures r == response && loader == old(loader)
      ensures response.Ok? ==> issues == PullFrom(old(issues), projectId, issueId)
      ensures response.Ok? ==> issueMap.issuesMap == old(issueMap.issuesMap) - {issueId}
      ensures response.Err? ==> issues == old(issues) && issueMap.issuesMap == old(issueMap.issuesMap)
    {
      if response.Err? {
        return response;
      }
      issues := PullFrom(issues, projectId, issueId);
      issueMap.RemoveIssue(issueId);
      r := response;
    }

    /** `archiveIssue`: once the service answers with `archived_at`, the record is
        stamped with it and every occurrence of the id leaves the project's list. */
    method ArchiveIssue(projectId: string, issueId: string, response: Result<Value>) returns (r: Result<()>)
      modifies this, issueMap
      ensures loader == old(loader)
      ensures response.Ok? ==> r == Ok(())
      ensures response.Ok? ==> issues == PullFrom(old(issues), projectId, issueId)
      ensures response.Ok? ==> (issueMap.issuesMap ==
        Patch(old(issueMap.issuesMap), issueId, map["archived_at" := response.value]))
      ensures response.Err? ==> r == Err(response.error)
      ensures response.Err? ==> issues == old(issues) && issueMap.issuesMap == old(issueMap.issuesMap)
    {
      if response.Err? {
        return Err(response.error);
      }
      issueMap.UpdateIssue(issueId, map["archived_at" := response.value]);
      issues := PullFrom(issues, projectId, issueId);
      r := Ok(());
    }

    /** `quickAddIssue`: the placeholder id goes into the list and its record into the
        map at once; after the create succeeds the first occurrence of the placeholder
        and its record are removed, and the linking calls for the new issue are
        issued. Any failure (including a project without a list, where `push` throws)
        re-fetches the project and hands the error back. */
    method QuickAddIssue(projectId: string, data: Issue, created: Result<Issue>, linked: Result<()>,
                         refetch: Result<seq<Issue>>) returns (r: Result<Issue>, calls: seq<LinkCall>)
      modifies this, issueMap
      ensures projectId !in old(issues) ==>
        && r.Err? && r.error.TypeError? && calls == []
        && loader == None
        && issues == AfterFetch(old(issues), projectId, refetch)
        && issueMap.issuesMap == RecordsAfterFetch(old(issueMap.issuesMap), refetch)
      ensures projectId in old(issues) && created.Err? ==>
        && r == Err(created.error) && calls == []
        && loader == None
        && issues == AfterFetch(old(issues)[projectId := old(issues)[projectId] + [data.id]], projectId, refetch)
        && issueMap.issuesMap == RecordsAfterFetch(AddAll(old(issueMap.issuesMap), [data]), refetch)
      ensures projectId in old(issues) && created.Ok? ==>
        var placed := old(issues)[projectId := RemoveFirst(old(issues)[projectId] + [data.id] + [created.value.id], data.id)];
        var records := AddAll(AddAll(old(issueMap.issuesMap), [data]), [created.value]) - {data.id};
        && calls == LinkCalls(data, created.value.id)
        && (calls == [] || linked.Ok? ==>
              r == Ok(created.value) && loader == old(loader) && issues == placed && issueMap.issuesMap == records)
        && (calls != [] && linked.Err? ==>
              && r == Err(linked.error) && loader == None
              && issues == AfterFetch(placed, projectId, refetch)
              && issueMap.issuesMap == RecordsAfterFetch(records, refetch))
    {
      calls := [];
      if projectId !in issues {
        var _ := FetchIssues(projectId, Mutation, refetch);
        return Err(TypeError("Cannot read properties of undefined (reading 'push')")), calls;
      }
      ghost var list0, records0 := issues[projectId], issueMap.issuesMap;
      PushPlaceholder(projectId, data);

      var c := CreateIssue(projectId, data, created);
      if c.Err? {
        var _ := FetchIssues(projectId, Mutation, refetch);
        return Err(c.error), calls;
      }
      var response := c.value;
      assert issues[projectId] == list0 + [data.id] + [response.id];

      DropPlaceholder(projectId, data.id);
      assert issues == old(issues)[projectId := RemoveFirst(list0 + [data.id] + [response.id], data.id)];
      assert data.id in list0 + [data.id] + [response.id];
      assert issueMap.issuesMap == AddAll(AddAll(records0, [data]), [response]) - {data.id};

      calls := LinkCalls(data, response.id);
      if |calls| > 0 && linked.Err? {
        var _ := FetchIssues(projectId, Mutation, refetch);
        return Err(linked.error), calls;
      }
      r := Ok(response);
    }

    /** The optimistic step of a quick add: the placeholder's id goes last in the
        project's list and its record into the map. */
    method PushPlaceholder(projectId: string, data: Issue)
      requires projectId in issues
      modifies this, issueMap
      ensures loader == old(loader)
      ensures issues == old(issues)[projectId := old(issues)[projectId] + [data.id]]
      ensures issueMap.issuesMap == AddAll(old(issueMap.issuesMap), [data])
    {
      issues := issues[projectId := issues[projectId] + [data.id]];
      issueMap.AddIssue([data]);
    }

    /** The clean-up after a quick add: the first occurrence of the placeholder id
        leaves the project's list and, when there was one, its record leaves the map. */
    method DropPlaceholder(projectId: string, placeholderId: string)
      requires projectId in issues
      modifies this, issueMap
      ensures loader == old(loader)
      ensures issues == old(issues)[projectId := RemoveFirst(old(issues)[projectId], placeholderId)]
      ensures issueMap.issuesMap ==
        if placeholderId in old(issues)[projectId] then old(issueMap.issuesMap) - {placeholderId}
        else old(issueMap.issuesMap)
    {
      var quickAddIssueIndex := FindIndex(issues[projectId], placeholderId);
      if quickAddIssueIndex >= 0 {
        var ids := issues[projectId];
        issues := issues[projectId := ids[..quickAddIssueIndex] + ids[quickAddIssueIndex + 1..]];
        issueMap.RemoveIssue(placeholderId);
      }
    }

    /** `removeBulkIssues`: every listed id leaves the project's list and the map at
        once; if the service rejects the request the project is fetched again. */
    method RemoveBulkIssues(projectId: string, issueIds: seq<string>, response: Result<()>,
                            refetch: Result<seq<Issue>>) returns (r: Result<()>)
      modifies this, issueMap
      ensures r == response
      ensures response.Ok? ==> loader == old(loader)
      ensures response.Ok? ==> issues == PullAllFrom(old(issues), projectId, issueIds)
      ensures response.Ok? ==> issueMap.issuesMap == old(issueMap.issuesMap) - Members(issueIds)
      ensures response.Err? ==> loader == None
      ensures response.Err? ==> issues == AfterFetch(PullAllFrom(old(issues), projectId, issueIds), projectId, refetch)
      ensures response.Err? ==> (issueMap.issuesMap ==
        RecordsAfterFetch(old(issueMap.issuesMap) - Members(issueIds), refetch))
    {
      for i := 0 to |issueIds|
        invariant loader == old(loader)
        invariant issues == PullAllFrom(old(issues), projectId, issueIds[..i])
        invariant issueMap.issuesMap == old(issueMap.issuesMap) - Members(issueIds[..i])
      {
        issues := PullFrom(issues, projectId, issueIds[i]);
        issueMap.RemoveIssue(issueIds[i]);
        assert issueIds[..i + 1][..i] == issueIds[..i];
        assert Members(issueIds[..i + 1]) == Members(issueIds[..i]) + {issueIds[i]};
      }
      assert issueIds[..|issueIds|] == issueIds;
      if response.Err? {
        var _ := FetchIssues(projectId, Mutation, refetch);
        return response;
      }
      r := response;
    }

    /** `archiveBulkIssues`: once the service answers, every listed record is stamped
        with `archived_at`. The project's id list is left as it is. */
    method ArchiveBulkIssues(projectId: string, issueIds: seq<string>, response: Result<Value>) returns (r: Result<()>)
      modifies issueMap
      ensures response.Ok? ==> r == Ok(())
      ensures response.Ok? ==> (issueMap.issuesMap ==
        PatchEach(old(issueMap.issuesMap), issueIds, map["archived_at" := response.value]))
      ensures response.Err? ==> r == Err(response.error) && issueMap.issuesMap == old(issueMap.issuesMap)
    {
      if response.Err? {
        return Err(response.error);
      }
      var patch := map["archived_at" := response.value];
      for i := 0 to |issueIds|
        invariant issueMap.issuesMap == PatchEach(old(issueMap.issuesMap), issueIds[..i], patch)
      {
        issueMap.UpdateIssue(issueIds[i], patch);
        assert issueIds[..i + 1][..i] == issueIds[..i];
      }
      assert issueIds[..|issueIds|] == issueIds;
      r := Ok(());
    }

    /** The value one property of `issue` takes in a bulk update: an array payload
        is nested after the existing array (or `[]`), any other payload replaces. */
    static method PropertyValue(issue: Issue, property: string, propertyValue: Value) returns (newValue: Value)
      ensures newValue == NewValue(Lookup(issue.props, property), propertyValue)
    {
      if propertyValue.Arr? {
        var existingValue := Lookup(issue.props, property);
        var newExistingValue := if existingValue.Some? && existingValue.value.Arr? then existingValue.value else Arr([]);
        newValue := Arr([newExistingValue] + propertyValue.items);
      } else {
        newValue := propertyValue;
      }
    }

    /** The property loop for one issue of a bulk update: each key in turn goes
        through the issue map's `updateIssue`, its value computed from the record as
        it was before the loop. */
    static method UpdateIssueProperties(store: IssueMapStore, issueId: string, d: Issue, properties: Obj<Value>)
      requires WellFormed(properties)
      requires issueId in store.issuesMap && store.issuesMap[issueId] == d
      modifies store
      ensures store.issuesMap == UpdateOne(old(store.issuesMap), issueId, properties)
    {
      var keys := properties.keys;
      ghost var before := store.issuesMap;
      PartialUpdateStart(before, issueId, d, properties);
      for j := 0 to |keys|
        invariant store.issuesMap == PartialUpdate(before, issueId, d, properties, j)
      {
        var property := keys[j];
        var newValue := PropertyValue(d, property, properties.vals[property]);
        PartialUpdateStep(before, issueId, d, properties, j);
        store.UpdateIssue(issueId, map[property := newValue]);
      }
      PartialUpdateDone(before, issueId, d, properties);
    }

    /** `bulkUpdateProperties`: once the service accepts the request, each listed
        issue in turn gets every property of the payload. An issue the map does not
        hold stops the loop with "Issue not found"; the issues before it stay
        updated. */
    method BulkUpdateProperties(projectId: string, issueIds: seq<string>, properties: Obj<Value>,
                                response: Result<()>) returns (r: Result<()>)
      requires WellFormed(properties)
      modifies issueMap
      ensures response.Err? ==> r == response && issueMap.issuesMap == old(issueMap.issuesMap)
      ensures response.Ok? ==>
        var k := FirstMissing(old(issueMap.issuesMap), issueIds);
        && (k == -1 ==> r == Ok(()) && issueMap.issuesMap == UpdateAll(old(issueMap.issuesMap), issueIds, properties))
        && (k >= 0 ==> r == Err(IssueNotFound) && issueMap.issuesMap == UpdateAll(old(issueMap.issuesMap), issueIds[..k], properties))
    {
      if response.Err? {
        return response;
      }
      ghost var m0 := issueMap.issuesMap;
      for i := 0 to |issueIds|
        invariant forall j :: 0 <= j < i ==> issueIds[j] in m0
        invariant issueMap.issuesMap == UpdateAll(m0, issueIds[..i], properties)
      {
        var issueId := issueIds[i];
        assert issueIds[..i + 1][..i] == issueIds[..i];
        var issueDetails := issueMap.GetIssueById(issueId);
        if issueDetails.None? {
          assert FirstMissing(m0, issueIds) == i;
          return Err(IssueNotFound);
        }
        UpdateIssueProperties(issueMap, issueId, issueDetails.value, properties);
      }
      assert issueIds[..|issueIds|] == issueIds;
      r := Ok(());
    }
  }
}
