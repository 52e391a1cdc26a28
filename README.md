# Project issues and multiple selection — a Dafny model

This project models three linked pieces of the web client.

- **The project issue store** (`ProjectIssues`). It keeps, for each project, the ordered list of its issue ids and a loader flag. Its read projections group that list for the current layout (list, kanban, calendar, spreadsheet, gantt). Its actions (fetch, create, update, remove, archive, quick-add, bulk remove, bulk archive, bulk property update) edit the id lists and the shared issue map, before or after the remote service answers.
- **The list layout's bulk-selection input.** This covers the column ids, the `entities` object `{ groupID: issueIds[] }` built with `Object.assign`, which columns are rendered, and a column's index.
- **The multiple-selection engine** (`useMultipleSelect` with its store, and the flattening done by the selection group component). It covers:
  - plain, shift and group clicks;
  - the Escape and arrow-key listeners;
  - the active entity and its cached neighbours;
  - the route-change reset and the snapshot.

Files:

- `common.dfy`: optional values, results with the errors the store can throw, and JavaScript truthiness.
- `js_object.dfy`: a plain object with ordered keys, with `o[k] = v` and `Object.assign`.
- `entity_index.dfy`: the flattening of `{ groupID: entityIds[] }` into `(entityID, groupID)` pairs, and the group filter over it.
- `selection.dfy`: the selection state, its transitions as pure functions with their lemmas, and the classes `SelectionStore` and `MultipleSelect`. Each method of those classes is proved equal to its transition.
- `issue_store.dfy`: the getters as functions, the issue map as the class `IssueMapStore`, and the store as the class `ProjectIssues`.
- `list_layout.dfy`: the `entities` construction as a loop method proved against a function, `validateEmptyIssueGroups` and `getGroupIndex`.

The remote service's answers, the outcome of a re-fetch and the linking calls' outcome are parameters (`Result` values), so every outcome is covered. These collaborators are not part of this model and are passed in as functions (`Helpers`):

- the grouping helpers (`groupedIssues`, `subGroupedIssues`, `unGroupedIssues`);
- `issueCountBasedOnFilters`;
- the issue map's `getIssuesByIds`.

The selection store (`useMultipleSelectStore`) and the issue map (`rootStore.issues`) are not part of this model either. They are given the semantics written on their classes:

- the selection store's add appends the entity unless its id is already selected, and always makes it the shift anchor;
- its remove deletes every entry of that id and makes the last remaining entry (or none) the anchor;
- the issue map merges added and patched properties, and patches only records it holds.

## Model

| member | source | states |
|---|---|---|
| JsObject.Put | web/components/issues/issue-layouts/list/default.tsx:124-126 | `o[k] = v` sets the value; an existing key keeps its position, a new key is appended; distinct keys matching the value map are preserved |
| JsObject.AssignKeys | web/components/issues/issue-layouts/list/default.tsx:130-132 | copying keys one by one: the key set becomes the union, copied keys take the source's values, other keys keep theirs |
| JsObject.AssignKeysOrder | web/components/issues/issue-layouts/list/default.tsx:130-132 | copying keys keeps the object well formed, keeps the target's keys as a prefix in order, and adds no key when every copied key was present |
| JsObject.Assign | web/components/issues/issue-layouts/list/default.tsx:130-132 | `Object.assign(t, s)`: the key set is the union, `s` overrides, the rest of `t` stays, `t`'s key order is kept with `s`'s new keys after it |
| JsObject.Single | web/components/issues/issue-layouts/list/default.tsx:130 | `{ [k]: v }` is a one-key object |
| JsObject.AssignSingle | web/components/issues/issue-layouts/list/default.tsx:130 | `Object.assign(t, { [k]: v })` is `t[k] = v` |
| JsObject.EmptyObj | web/components/issues/issue-layouts/list/default.tsx:123 | `{}` has no keys |
| EntityIndex.GroupBlock | web/components/core/multiple-select/select-group.tsx:18-21 | one group's pairs: entity `j` of the group becomes `(ids[j], groupID)` |
| EntityIndex.EntityIds | web/hooks/use-multiple-select.ts:339 | the entity ids of a pair list, position by position |
| EntityIndex.Flatten | web/components/core/multiple-select/select-group.tsx:14-25 | the flattened list has one pair per entity of each listed group, and each pair names a listed group that holds its entity |
| EntityIndex.GroupEntityDetails | web/components/core/multiple-select/select-group.tsx:14-25 | the component's list is the flattening when every listed group has an entry, and a TypeError exactly when one does not |
| EntityIndex.InGroup | web/hooks/use-multiple-select.ts:224 | the group filter keeps exactly the pairs of that group |
| EntityIndex.FlattenAppend | web/hooks/use-multiple-select.ts:52-63 | flattening distributes over concatenation of the group list |
| EntityIndex.FlattenAt | web/hooks/use-multiple-select.ts:52-63 | entity `j` of group `i` sits at `Size(groups[..i]) + j`, carrying its group's id |
| EntityIndex.GroupsInOrder | web/hooks/use-multiple-select.ts:52-63 | all entities of an earlier group precede those of a later group |
| EntityIndex.FlattenRoundTrip | web/hooks/use-multiple-select.ts:52-63 | with distinct groups, filtering the flattened list by a group gives back that group's ids in order, and nothing for an unlisted group |
| EntityIndex.EntitiesListRoundTrip | web/hooks/use-multiple-select.ts:50-63 | the hook's `entitiesList` over `Object.keys(entities)` has one pair per entity, and each group's ids are recovered from it |
| EntityIndex.EntitiesList | web/hooks/use-multiple-select.ts:50-63 | the hook's `entitiesList` is the selection group's flattening over `Object.keys(entities)`: one pair per entity, each naming a key that holds its entity |
| Selection.IsSelected | web/hooks/use-multiple-select.ts:148 | nothing is selected in an empty selection (membership by id in any group is `HasIdMeansIn`) |
| Selection.HasIdMeansIn | web/hooks/use-multiple-select.ts:148 | the store's membership by entity id agrees with membership among the selected ids |
| Selection.WithoutEntity | web/hooks/use-multiple-select.ts:156 | removal deletes every entry of that id and keeps the other ids selected |
| Selection.AddEntity | web/hooks/use-multiple-select.ts:152 | after an add the entity is selected and is the shift anchor; other ids and the cursor are unchanged; no id is selected twice |
| Selection.RemoveEntity | web/hooks/use-multiple-select.ts:156 | after a remove the entity is not selected; other ids and the cursor are unchanged; an anchor exists exactly when something stays selected |
| Selection.IndexOf | web/hooks/use-multiple-select.ts:67 | `findIndex` by entity id: the first matching position, or -1 when none matches |
| Selection.PreviousAndNext | web/hooks/use-multiple-select.ts:65-94 | neighbours of the found index (none before the first or after the last); an entity not in the list gets no previous and the first entry as next |
| Selection.SetActive | web/hooks/use-multiple-select.ts:96-140 | the entity becomes active with its neighbours cached; clearing it clears both neighbours; the selection is untouched |
| Selection.Select | web/hooks/use-multiple-select.ts:142-169 | force-add selects and activates; force-remove deselects and leaves the cursor; no force toggles, activating on select; other ids keep their status |
| Selection.SelectAll | web/hooks/use-multiple-select.ts:186-206 | after a run of selections, force-add leaves the last entity of the run active and force-remove leaves the cursor where it was |
| Selection.SelectAllFrame | web/hooks/use-multiple-select.ts:186-206 | an entity id not in the run keeps its membership |
| Selection.Click | web/hooks/use-multiple-select.ts:177-215 | without shift or anchor the clicked entity is toggled; a shift-click on the anchor's own position (or with both ids missing from the index) changes nothing |
| Selection.RangeIdsInList | web/hooks/use-multiple-select.ts:186-206 | every id the index loops visit is an id of the index |
| Selection.ClickFrame | web/hooks/use-multiple-select.ts:177-215 | a click changes no id other than the clicked one and those of the index |
| Selection.CountSelected | web/hooks/use-multiple-select.ts:225 | the count is 0 iff none of the entities is selected and equals their number iff all are |
| Selection.GroupSelection | web/hooks/use-multiple-select.ts:222-231 | "empty" iff no entity of the group is selected, "complete" iff all are (an empty group is "empty") |
| Selection.GroupClick | web/hooks/use-multiple-select.ts:237-246 | clicking an "empty" non-empty group leaves its last entity active; clicking a "partial" or "complete" group leaves the cursor where it was |
| Selection.KeyDown | web/hooks/use-multiple-select.ts:249-320 | any other key changes nothing; Escape clears the state; without shift an arrow never changes the selection or the anchor |
| Selection.SnapshotOf | web/hooks/use-multiple-select.ts:336-342 | selection is active iff something is selected; the ids are the selected ids in order |
| Selection.ClearedIsEmpty | web/hooks/use-multiple-select.ts:323-331 | after `clearSelection` nothing is selected, the snapshot is inactive, and the state is consistent |
| Selection.SelectKeepsConsistent | web/hooks/use-multiple-select.ts:142-169 | selecting keeps the cached neighbours equal to the index's and no id twice |
| Selection.SelectAllKeepsConsistent | web/hooks/use-multiple-select.ts:186-206 | a sequence of selections keeps the state consistent |
| Selection.ForceAddAll | web/hooks/use-multiple-select.ts:241-243 | force-adding a list selects exactly the old selection plus the list's ids |
| Selection.ForceRemoveAll | web/hooks/use-multiple-select.ts:241-243 | force-removing a list deselects exactly the list's ids and leaves the active entity |
| Selection.ToggleUnselected | web/hooks/use-multiple-select.ts:186-206 | toggling distinct, unselected entities selects exactly them on top of the old selection |
| Selection.RangeIsSlice | web/hooks/use-multiple-select.ts:186-206 | the index loop over an in-range interval visits exactly that slice of the list |
| Selection.ShiftBoundsSlice | web/hooks/use-multiple-select.ts:185-207 | the three index loops of a shift-click visit `list[a+1..c]` when the anchor `a` is before the target `c`, `list[c..a-1]` when after, and nothing when equal |
| Selection.ShiftClickRange | web/hooks/use-multiple-select.ts:179-210 | a shift-click toggles `list[a+1..c]` when the anchor `a` is before the target `c`, `list[c..a-1]` when after, and nothing when equal |
| Selection.ShiftClickSelectsBetween | web/hooks/use-multiple-select.ts:185-191 | with distinct ids and nothing selected after the anchor up to the target, a forward shift-click selects exactly the entities after the anchor through the target |
| Selection.PlainClickToggles | web/hooks/use-multiple-select.ts:212 | without shift or without an anchor, a click toggles the clicked entity, activating it when selected |
| Selection.GroupClickEffect | web/hooks/use-multiple-select.ts:237-246 | a group click selects the whole group when it was "empty" and otherwise deselects it, keeping other entities' status |
| Selection.GroupClickStatus | web/hooks/use-multiple-select.ts:237-246 | after a group click a non-empty group is "complete" if it was "empty" and "empty" otherwise |
| Selection.ArrowKeysMoveCursor | web/hooks/use-multiple-select.ts:289-320 | an arrow without shift never changes the selection; with no active entity the first entry becomes active, otherwise the cursor moves to the active entity's neighbour in the index when there is one |
| Selection.EscapeClears | web/hooks/use-multiple-select.ts:249-258 | Escape resets the whole selection state, with or without shift |
| Selection.ShiftArrowTogglesNeighbour | web/hooks/use-multiple-select.ts:261-287 | shift+arrow toggles the cached neighbour of the active entity, changes no other id, and leaves the cursor on that neighbour |
| Selection.ClickKeepsConsistent | web/hooks/use-multiple-select.ts:177-215 | a click, with or without shift, keeps the state consistent with the index |
| Selection.GroupClickKeepsConsistent | web/hooks/use-multiple-select.ts:237-246 | a group click keeps the state consistent with the index |
| Selection.KeyDownKeepsConsistent | web/hooks/use-multiple-select.ts:249-320 | a key press keeps the state consistent with the index |
| Selection.HandlersKeepConsistent | web/hooks/use-multiple-select.ts:177-320 | clicks, group clicks and key presses keep the state consistent with the index |
| Selection.SelectionStore.IsEntitySelected | web/hooks/use-multiple-select.ts:148 | the store's `isEntitySelected` is `IsSelected` of its state |
| Selection.SelectionStore.IsEntityActive | web/hooks/use-multiple-select.ts:25 | exactly the active entity's id is active; with no active entity none is |
| Selection.SelectionStore.UpdateSelectedEntityDetails | web/hooks/use-multiple-select.ts:37 | the store's add or remove, as `AddEntity`/`RemoveEntity` |
| Selection.SelectionStore.UpdateActiveEntityDetails | web/hooks/use-multiple-select.ts:39 | sets the active entity only |
| Selection.SelectionStore.UpdatePreviousActiveEntity | web/hooks/use-multiple-select.ts:41 | sets the cached previous entity only |
| Selection.SelectionStore.UpdateNextActiveEntity | web/hooks/use-multiple-select.ts:43 | sets the cached next entity only |
| Selection.SelectionStore.ClearSelection | web/hooks/use-multiple-select.ts:45 | resets the state to the cleared state |
| Selection.MultipleSelect.constructor | web/hooks/use-multiple-select.ts:50-63 | the hook's entity list is the flattening of `entities` over its keys |
| Selection.MultipleSelect.HandleActiveEntityChange | web/hooks/use-multiple-select.ts:96-140 | the store ends in `SetActive` of its old state |
| Selection.MultipleSelect.HandleEntitySelection | web/hooks/use-multiple-select.ts:142-169 | the store ends in `Select` of its old state |
| Selection.MultipleSelect.SelectRange | web/hooks/use-multiple-select.ts:186-191 | the index loop from `lo` to `hi` leaves the store in `SelectAll` of its old state over the in-range positions |
| Selection.MultipleSelect.HandleEntityClick | web/hooks/use-multiple-select.ts:177-215 | the index loop leaves the store in `Click` of its old state |
| Selection.MultipleSelect.SelectEach | web/hooks/use-multiple-select.ts:242-244 | selecting each entity of a list leaves the store in `SelectAll` of its old state over that list |
| Selection.MultipleSelect.HandleGroupClick | web/hooks/use-multiple-select.ts:237-246 | the loop over the group leaves the store in `GroupClick` of its old state |
| Selection.MultipleSelect.HandleKeyDown | web/hooks/use-multiple-select.ts:249-320 | the three listeners leave the store in `KeyDown` of its old state |
| Selection.MultipleSelect.HandleRouteChange | web/hooks/use-multiple-select.ts:323-331 | a completed route change clears the selection |
| ProjectIssueStore.LayoutIds | web/store/issue/project/issue.store.ts:121-133 | the layout dispatch: list needs an order (grouped or flat), kanban needs group and order (sub-grouped or grouped), calendar groups by target date, spreadsheet and gantt are flat with their default orders, anything else is `[]` |
| ProjectIssueStore.GroupedIssueIds | web/store/issue/project/issue.store.ts:103-134 | undefined exactly without a project id, without filters or without an id list; `[]` when the issue map returns nothing; otherwise the layout projection |
| ProjectIssueStore.IssuesCount | web/store/issue/project/issue.store.ts:87-101 | 0 without filters, grouped ids or layout; otherwise the helper's count with empty group-by values passed as undefined |
| ProjectIssueStore.Member | web/store/issue/project/issue.store.ts:150-154 | `g?.[key]` descends one level: a group of a grouped value is its id list, a sub-group of a sub-grouped value its groups; a flat list or a missing key gives undefined |
| ProjectIssueStore.GetIssueIds | web/store/issue/project/issue.store.ts:136-158 | the whole value with neither grouping; `[sub][group]` with both set and both ids; `[group]` with group-by and a group id; undefined otherwise |
| ProjectIssueStore.ListGroupLookup | web/store/issue/project/issue.store.ts:123-124 | in the grouped list layout, a group's ids are exactly what the grouping helper put under that group |
| ProjectIssueStore.AddAll | web/store/issue/project/issue.store.ts:176 | adding records makes the map hold exactly the old ids plus the added ones |
| ProjectIssueStore.Patch | web/store/issue/project/issue.store.ts:208 | a patch never adds or removes a record |
| ProjectIssueStore.IssueMapStore.AddIssue | web/store/issue/project/issue.store.ts:176 | the map becomes `AddAll` of the old map |
| ProjectIssueStore.IssueMapStore.UpdateIssue | web/store/issue/project/issue.store.ts:208 | the map becomes `Patch` of the old map |
| ProjectIssueStore.IssueMapStore.GetIssueById | web/store/issue/project/issue.store.ts:342 | a record is found exactly for a held id, and it is the held record |
| ProjectIssueStore.IssueMapStore.RemoveIssue | web/store/issue/project/issue.store.ts:225 | the record leaves the map |
| ProjectIssueStore.IdsOf | web/store/issue/project/issue.store.ts:171 | the response's ids in response order |
| ProjectIssueStore.Pull | web/store/issue/project/issue.store.ts:222 | `pull` removes every occurrence of the id, keeps all other ids with their multiplicities, and changes nothing when the id is absent |
| ProjectIssueStore.PullFrom | web/store/issue/project/issue.store.ts:222 | pulling from a project never adds or removes a project list |
| ProjectIssueStore.PullAllIsWithout | web/store/issue/project/issue.store.ts:298-301 | pulling ids one by one keeps exactly the entries not among them, in order |
| ProjectIssueStore.PullAllFrom | web/store/issue/project/issue.store.ts:298-301 | bulk pulling never adds or removes a project list |
| ProjectIssueStore.FindIndex | web/store/issue/project/issue.store.ts:258 | the first position of the id, or -1 when absent |
| ProjectIssueStore.RemoveFirst | web/store/issue/project/issue.store.ts:258-262 | an id that is not listed leaves the list as it is |
| ProjectIssueStore.RemoveFirstCounts | web/store/issue/project/issue.store.ts:258-262 | the splice takes out exactly one occurrence of a listed id, so the list is one shorter, and nothing else |
| ProjectIssueStore.QuickAddReplacesPlaceholder | web/store/issue/project/issue.store.ts:252-263 | when the placeholder id was not yet listed, the list ends as the old list plus the server's id |
| ProjectIssueStore.AppendId | web/store/issue/project/issue.store.ts:191-194 | the created id goes last in the project's list, or starts it; other projects are unchanged |
| ProjectIssueStore.CurrentCycleId | web/store/issue/project/issue.store.ts:267 | the cycle id is kept unless it is "None", which becomes undefined |
| ProjectIssueStore.CurrentModuleIds | web/store/issue/project/issue.store.ts:268-269 | exactly the module ids other than "None"; none when `module_ids` is missing or empty |
| ProjectIssueStore.WithoutNoneModule | web/store/issue/project/issue.store.ts:269 | keeps exactly the module ids other than "None" |
| ProjectIssueStore.LinkCalls | web/store/issue/project/issue.store.ts:267-282 | a cycle call iff `cycle_id` is truthy and not "None"; a module call iff some module id other than "None" is given, adding exactly those and removing none |
| ProjectIssueStore.PatchEach | web/store/issue/project/issue.store.ts:319-323 | bulk patching never adds or removes a record |
| ProjectIssueStore.ArchiveStampsEach | web/store/issue/project/issue.store.ts:319-323 | after a bulk archive each listed record carries the returned `archived_at`, and unlisted records are unchanged |
| ProjectIssueStore.NewValue | web/store/issue/project/issue.store.ts:348-360 | a scalar replaces; an array becomes `[old, ...new]` with the old array, or `[]`, as its single first element |
| ProjectIssueStore.ApplyProperties | web/store/issue/project/issue.store.ts:344-362 | every payload key takes its new value, computed from the record before the update; other properties stay |
| ProjectIssueStore.NewValues | web/store/issue/project/issue.store.ts:344-362 | one new value per payload key |
| ProjectIssueStore.UpdateOne | web/store/issue/project/issue.store.ts:341-362 | updating one issue never adds or removes a record |
| ProjectIssueStore.UpdateAll | web/store/issue/project/issue.store.ts:341-363 | the bulk update never adds or removes a record |
| ProjectIssueStore.BulkScalarReplaces | web/store/issue/project/issue.store.ts:356-360 | a scalar property ends with the payload value on every listed record, however often listed |
| ProjectIssueStore.BulkLeavesOthers | web/store/issue/project/issue.store.ts:341-363 | unlisted records are unchanged |
| ProjectIssueStore.BulkArrayNests | web/store/issue/project/issue.store.ts:348-355 | a record listed once ends with exactly `ApplyProperties` of its old properties |
| ProjectIssueStore.FirstMissing | web/store/issue/project/issue.store.ts:342-343 | the first listed id missing from the map, or -1 when all are held |
| ProjectIssueStore.ProjectIssues.constructor | web/store/issue/project/issue.store.ts:47-48 | the loader starts as "init-loader" and no project has a list |
| ProjectIssueStore.ProjectIssues.FetchIssues | web/store/issue/project/issue.store.ts:160-184 | on success the list becomes the response ids and the records are merged; the loader always ends unset; an error is rethrown |
| ProjectIssueStore.ProjectIssues.CreateIssue | web/store/issue/project/issue.store.ts:186-204 | on success the id is appended and the record added; on error nothing changes |
| ProjectIssueStore.ProjectIssues.UpdateIssue | web/store/issue/project/issue.store.ts:206-215 | the patch is applied optimistically; on error the project is re-fetched and the error rethrown |
| ProjectIssueStore.ProjectIssues.RemoveIssue | web/store/issue/project/issue.store.ts:217-230 | after the service confirms, the id is pulled and the record dropped; on error nothing changes |
| ProjectIssueStore.ProjectIssues.ArchiveIssue | web/store/issue/project/issue.store.ts:232-247 | after the service answers, the record is stamped with `archived_at` and the id pulled |
| ProjectIssueStore.ProjectIssues.PushPlaceholder | web/store/issue/project/issue.store.ts:251-254 | the placeholder id goes last in the project's list and its record into the map |
| ProjectIssueStore.ProjectIssues.DropPlaceholder | web/store/issue/project/issue.store.ts:258-265 | the first occurrence of the placeholder id leaves the list, and its record leaves the map when the id was listed |
| ProjectIssueStore.ProjectIssues.QuickAddIssue | web/store/issue/project/issue.store.ts:249-293 | the placeholder is listed and recorded, then replaced by the created issue; the linking calls follow `LinkCalls`; every failure (including a project without a list) re-fetches and rethrows |
| ProjectIssueStore.ProjectIssues.RemoveBulkIssues | web/store/issue/project/issue.store.ts:295-312 | every listed id is pulled and dropped first; on a rejected request the project is re-fetched and the error rethrown |
| ProjectIssueStore.ProjectIssues.ArchiveBulkIssues | web/store/issue/project/issue.store.ts:314-328 | after the service answers, each listed record is stamped; the id lists are not touched |
| ProjectIssueStore.ProjectIssues.PropertyValue | web/store/issue/project/issue.store.ts:348-360 | the value computed for one property is `NewValue` of the record's old value and the payload's |
| ProjectIssueStore.ProjectIssues.UpdateIssueProperties | web/store/issue/project/issue.store.ts:344-362 | the key loop leaves the map as `UpdateOne` of the old map |
| ProjectIssueStore.ProjectIssues.BulkUpdateProperties | web/store/issue/project/issue.store.ts:334-368 | every listed issue is updated in turn; the first missing issue stops with "Issue not found", keeping the updates made before it |
| ListLayout.GroupIds | web/components/issues/issue-layouts/list/default.tsx:122 | the column ids in column order |
| ListLayout.EmptyGroups | web/components/issues/issue-layouts/list/default.tsx:123-126 | every column id maps to `[]`; with distinct ids the keys are the columns in order |
| ListLayout.Entities | web/components/issues/issue-layouts/list/default.tsx:127-133 | the `entities` object is well formed |
| ListLayout.BuildEntities | web/components/issues/issue-layouts/list/default.tsx:119-133 | the loop and the assignment build `GroupIds` and `Entities`, with `is_list` read as `group_by === null` |
| ListLayout.EntitiesCoverColumns | web/components/issues/issue-layouts/list/default.tsx:141 | every column has an entry, so the selection group's flattening cannot fail |
| ListLayout.ListEntities | web/components/issues/issue-layouts/list/default.tsx:129-130 | flat list: the columns in order, every id under the first and none under the others; `{ undefined: ids }` without columns |
| ListLayout.GroupedEntities | web/components/issues/issue-layouts/list/default.tsx:131-132 | grouped: columns first in order; a column has the store's ids or `[]`; extra store groups are kept after the columns |
| ListLayout.ListSelectionList | web/components/issues/issue-layouts/list/default.tsx:129-141 | flat list: the selection list is every issue id, in order, in the first column |
| ListLayout.GroupedSelectionList | web/components/issues/issue-layouts/list/default.tsx:131-141 | grouped: filtering the selection list by a column recovers the store's ids for that group, or [] when the store lacks it, also when the store has groups with no column |
| ListLayout.ValidateEmptyIssueGroups | web/components/issues/issue-layouts/list/default.tsx:111-115 | a group is hidden iff empty groups are not shown and it has no issues |
| ListLayout.ColumnIssues | web/components/issues/issue-layouts/list/default.tsx:146 | in the flat list every column is handed all the ids; grouped, a column is handed `issueIds?.[group.id]` |
| ListLayout.RenderedIffNonEmpty | web/components/issues/issue-layouts/list/default.tsx:144-146 | a column is rendered iff empty groups are shown or its `entities` entry is non-empty (the first column's in the flat list) |
| ListLayout.GetGroupIndex | web/components/issues/issue-layouts/list/default.tsx:117 | the first column with that id, or -1; an undefined id matches none |
| ListLayout.GroupIndexOfColumn | web/components/issues/issue-layouts/list/default.tsx:117 | with distinct column ids, a column's own id gives back its position |

## Left out

- Network I/O: the issue, archive, cycle and module services are not modelled. Their answers are parameters.
- `fetchProjectDetails`: the follow-up calls after an action are not modelled.
- Workspace slugs and the applied filters passed to the fetch are not modelled.
- Concurrency: the re-fetches in the `catch` blocks are not awaited in the code; the model treats each as finished before the error is returned. Interleavings with other actions are not modelled.
- MobX observability, `runInAction` and React memoisation are not modelled. Every read sees the current state, except the keyboard listeners, which see the state of the last render.
- Scrolling the active entity into view (`shouldScroll`, the DOM queries) is not modelled.
- Listener order: `HandleKeyDown` runs the three keyboard listeners in registration order. React may re-register only one of the last two, which reverses their order; that case is not modelled.
- The payload types are loose: `data.module_ids` that is not an array is read as no modules.
- `groupedIssueIds` as a list (not an object), handed to the grouped list layout: only the empty list is accepted. A non-empty list spread into an object gives index keys, which are not modelled.
- In the flat list layout, an undefined `issueIds` is not accepted; when it occurs, the flattening would throw.
- The selection group component hands its flattened list to the hook as `entities`, while the hook's props expect `{ groupID: entityIds[] }`. The model composes the hook with the `entities` object that the layout builds.
- The selection store, the issue map, `getIssuesByIds`, the grouping helpers and `issueCountBasedOnFilters` are not part of this model. The two stores take the semantics stated above. The helpers are arbitrary functions, so nothing is assumed about how they group or count.
- `ProjectIssueStore.LinkCalls` records which linking calls are made. The calls' effects on the cycle and module stores are not modelled; the model sees only whether they all succeeded.
- Numeric-looking keys: JavaScript lists integer-like keys before other keys in `Object.keys`. Group ids are taken to be non-numeric, so keys keep insertion order.
- Selection.IsSelected: its contract states only that an empty selection holds no id. Membership of the selected ids is the separate lemma `HasIdMeansIn`, because every transition's proof would otherwise carry that fact.
- ProjectIssueStore.RemoveFirst: its contract states only that an unlisted id changes nothing. The count of what the splice removes is the separate lemma `RemoveFirstCounts`, for the same reason.
