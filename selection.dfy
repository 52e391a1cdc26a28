/** The multiple-selection engine of `useMultipleSelect`: a selection store (the
    selected entities, the active entity with its cached neighbours, the anchor of a
    shift-range) and the handlers that update it over a fixed entity index.

    Every handler is given twice: as a pure transition on `SelectionState` (the
    specification, about which the lemmas are proved) and as a method of
    `MultipleSelect` that performs it step by step against a `SelectionStore`. */
module Selection {
  import opened Common
  import JsObject
  import opened EntityIndex

  datatype ForceAction = ForceAdd | ForceRemove
  datatype StoreAction = Add | Remove
  datatype GroupStatus = Empty | Partial | Complete
  datatype Key = Escape | ArrowUp | ArrowDown | OtherKey

  /** The fields of the selection store. */
  datatype SelectionState = SelectionState(
    selected: seq<EntityDetails>,
    active: Option<EntityDetails>,
    previous: Option<EntityDetails>,
    next: Option<EntityDetails>,
    lastSelected: Option<EntityDetails>)

  /** The state after `clearSelection`. */
  const Cleared := SelectionState([], None, None, None, None)

  /** Some entry of `sel` is the entity `id` (in any group). */
  predicate HasId(sel: seq<EntityDetails>, id: string)
  {
    sel != [] && (sel[0].entityID == id || HasId(sel[1..], id))
  }

  /** `isEntitySelected(entityID)`: membership is by entity id alone. */
  predicate IsSelected(st: SelectionState, id: string)
    ensures st.selected == [] ==> !IsSelected(st, id)
  {
    HasId(st.selected, id)
  }

  /** No entity id is selected twice. */
  ghost predicate DistinctIds(sel: seq<EntityDetails>)
  {
    sel == [] || (!HasId(sel[1..], sel[0].entityID) && DistinctIds(sel[1..]))
  }

  lemma {:induction false} HasIdMeansIn(sel: seq<EntityDetails>, id: string)
    ensures HasId(sel, id) <==> id in EntityIds(sel)
  {
    if sel != [] {
      HasIdMeansIn(sel[1..], id);
      assert EntityIds(sel) == [sel[0].entityID] + EntityIds(sel[1..]);
    }
  }

  lemma {:induction false} HasIdAppend(sel: seq<EntityDetails>, e: EntityDetails, id: string)
    ensures HasId(sel + [e], id) <==> HasId(sel, id) || e.entityID == id
  {
    if sel != [] {
      assert (sel + [e])[1..] == sel[1..] + [e];
      HasIdAppend(sel[1..], e, id);
    } else {
      assert (sel + [e])[1..] == [];
    }
  }

  lemma {:induction false} DistinctIdsAppend(sel: seq<EntityDetails>, e: EntityDetails)
    requires DistinctIds(sel) && !HasId(sel, e.entityID)
    ensures DistinctIds(sel + [e])
  {
    if sel != [] {
      assert (sel + [e])[1..] == sel[1..] + [e];
      DistinctIdsAppend(sel[1..], e);
      HasIdAppend(sel[1..], e, sel[0].entityID);
    } else {
      assert (sel + [e])[1..] == [];
    }
  }

  /** The store's "remove": every entry of entity `id` leaves, the others stay in
      order. */
  function WithoutEntity(sel: seq<EntityDetails>, id: string): (r: seq<EntityDetails>)
    ensures forall x :: HasId(r, x) <==> HasId(sel, x) && x != id
    ensures DistinctIds(sel) ==> DistinctIds(r)
  {
    if sel == [] then []
    else if sel[0].entityID == id then WithoutEntity(sel[1..], id)
    else
      var r := [sel[0]] + WithoutEntity(sel[1..], id);
      assert r[1..] == WithoutEntity(sel[1..], id);
      r
  }

  /** `updateSelectedEntityDetails(e, "add")`: an entity already selected is not
      listed twice; the added entity becomes the shift-range anchor. */
  function AddEntity(st: SelectionState, e: EntityDetails): (r: SelectionState)
    ensures IsSelected(r, e.entityID) && r.lastSelected == Some(e)
    ensures forall id :: id != e.entityID ==> (IsSelected(r, id) <==> IsSelected(st, id))
    ensures r.active == st.active && r.previous == st.previous && r.next == st.next
    ensures DistinctIds(st.selected) ==> DistinctIds(r.selected)
  {
    var sel := if HasId(st.selected, e.entityID) then st.selected else st.selected + [e];
    assert forall id :: HasId(st.selected + [e], id) <==> HasId(st.selected, id) || e.entityID == id by {
      forall id { HasIdAppend(st.selected, e, id); }
    }
    assert DistinctIds(st.selected) && !HasId(st.selected, e.entityID) ==> DistinctIds(st.selected + [e]) by {
      if DistinctIds(st.selected) && !HasId(st.selected, e.entityID) { DistinctIdsAppend(st.selected, e); }
    }
    st.(selected := sel, lastSelected := Some(e))
  }

  /** `updateSelectedEntityDetails(e, "remove")`: the anchor falls back to the last
      entity still selected. */
  function RemoveEntity(st: SelectionState, e: EntityDetails): (r: SelectionState)
    ensures !IsSelected(r, e.entityID)
    ensures forall id :: id != e.entityID ==> (IsSelected(r, id) <==> IsSelected(st, id))
    ensures r.active == st.active && r.previous == st.previous && r.next == st.next
    ensures r.lastSelected.Some? <==> r.selected != []
    ensures DistinctIds(st.selected) ==> DistinctIds(r.selected)
  {
    var rest := WithoutEntity(st.selected, e.entityID);
    st.(selected := rest, lastSelected := if rest == [] then None else Some(rest[|rest| - 1]))
  }

  /** `entitiesList.findIndex((entity) => entity?.entityID === id)`: the first
      position of the entity id, in any group, or -1. */
  function IndexOf(list: seq<EntityDetails>, id: string): (r: int)
    ensures -1 <= r < |list|
    ensures r >= 0 ==> list[r].entityID == id && forall j :: 0 <= j < r ==> list[j].entityID != id
    ensures r == -1 ==> forall j :: 0 <= j < |list| ==> list[j].entityID != id
  {
    if list == [] then -1
    else if list[0].entityID == id then 0
    else
      var k := IndexOf(list[1..], id);
      if k == -1 then -1 else k + 1
  }

  /** `list[i]`, which is `undefined` out of range. */
  function At(list: seq<EntityDetails>, i: int): Option<EntityDetails>
  {
    if 0 <= i < |list| then Some(list[i]) else None
  }

  datatype Neighbours = Neighbours(previous: Option<EntityDetails>, next: Option<EntityDetails>)

  /** `getPreviousAndNextEntities(entityID)`. For an entity found at `i` the
      neighbours are `list[i-1]` and `list[i+1]`, null at either end; for an entity
      that is not in the list (index -1) there is no previous one and the next one is
      the first entry. */
  function PreviousAndNext(list: seq<EntityDetails>, id: string): (n: Neighbours)
    ensures var i := IndexOf(list, id);
      && (i >= 0 ==> n.previous == (if i == 0 then None else Some(list[i - 1])))
      && (i >= 0 ==> n.next == (if i == |list| - 1 then None else Some(list[i + 1])))
      && (i == -1 ==> n.previous == None && n.next == (if list == [] then None else Some(list[0])))
  {
    var i := IndexOf(list, id);
    var previous := if i == 0 then None else At(list, i - 1);
    var next := if i == |list| - 1 then None else At(list, i + 1);
    Neighbours(previous, next)
  }

  /** `handleActiveEntityChange(e)` without the scrolling: the entity becomes active
      and its neighbours are cached; `null` clears all three. */
  function SetActive(st: SelectionState, list: seq<EntityDetails>, e: Option<EntityDetails>): (r: SelectionState)
    ensures r.selected == st.selected && r.lastSelected == st.lastSelected
    ensures r.active == e
    ensures e.None? ==> r.previous == None && r.next == None
    ensures e.Some? ==> Neighbours(r.previous, r.next) == PreviousAndNext(list, e.value.entityID)
  {
    match e
    case None => st.(active := None, previous := None, next := None)
    case Some(d) =>
      var n := PreviousAndNext(list, d.entityID);
      st.(active := e, previous := n.previous, next := n.next)
  }

  /** `handleEntitySelection(e, _, forceAction)`. Without a force action it toggles: a
      selected entity is removed, an unselected one is added and made active.
      "force-add" adds and activates; "force-remove" removes and leaves the cursor
      alone. No other entity id changes membership. */
  function Select(st: SelectionState, list: seq<EntityDetails>, e: EntityDetails, force: Option<ForceAction>): (r: SelectionState)
    ensures force == Some(ForceAdd) ==> IsSelected(r, e.entityID) && r.active == Some(e)
    ensures force == Some(ForceRemove) ==>
      !IsSelected(r, e.entityID) && r.active == st.active && r.previous == st.previous && r.next == st.next
    ensures force == None ==> (IsSelected(r, e.entityID) <==> !IsSelected(st, e.entityID))
    ensures force == None && IsSelected(r, e.entityID) ==> r.active == Some(e)
    ensures force == None && !IsSelected(r, e.entityID) ==>
      r.active == st.active && r.previous == st.previous && r.next == st.next
    ensures forall id :: id != e.entityID ==> (IsSelected(r, id) <==> IsSelected(st, id))
    ensures r.active == Some(e) && r.active != st.active ==>
      Neighbours(r.previous, r.next) == PreviousAndNext(list, e.entityID)
  {
    var isSelected := IsSelected(st, e.entityID);
    match force
    case Some(ForceAdd) => SetActive(AddEntity(st, e), list, Some(e))
    case Some(ForceRemove) => RemoveEntity(st, e)
    case None => if isSelected then RemoveEntity(st, e) else SetActive(AddEntity(st, e), list, Some(e))
  }

  /** `Select` applied to each entity of `es` in turn. */
  function SelectAll(st: SelectionState, list: seq<EntityDetails>, es: seq<EntityDetails>, force: Option<ForceAction>): (r: SelectionState)
    ensures force == Some(ForceAdd) && es != [] ==> r.active == Some(es[|es| - 1])
    ensures force == Some(ForceRemove) ==> r.active == st.active && r.previous == st.previous && r.next == st.next
    decreases |es|
  {
    if es == [] then st
    else Select(SelectAll(st, list, es[..|es| - 1], force), list, es[|es| - 1], force)
  }

  /** An entity id none of `es` carries keeps its membership through `SelectAll`. */
  lemma {:induction false} SelectAllFrame(st: SelectionState, list: seq<EntityDetails>, es: seq<EntityDetails>, force: Option<ForceAction>, id: string)
    requires id !in EntityIds(es)
    ensures IsSelected(SelectAll(st, list, es, force), id) <==> IsSelected(st, id)
    decreases |es|
  {
    if es != [] {
      var init := es[..|es| - 1];
      assert EntityIds(es) == EntityIds(init) + [es[|es| - 1].entityID];
      SelectAllFrame(st, list, init, force, id);
    }
  }

  lemma SelectAllSnoc(st: SelectionState, list: seq<EntityDetails>, es: seq<EntityDetails>, e: EntityDetails, force: Option<ForceAction>)
    ensures SelectAll(st, list, es + [e], force) == Select(SelectAll(st, list, es, force), list, e, force)
  {
    assert (es + [e])[..|es|] == es;
  }

  /** The positions `lo..hi` (inclusive) of the list, skipping those out of range
      (`if (entityDetails)` in the loop). */
  function RangeEntities(list: seq<EntityDetails>, lo: int, hi: int): seq<EntityDetails>
    decreases hi - lo
  {
    if hi < lo then []
    else RangeEntities(list, lo, hi - 1) + (if 0 <= hi < |list| then [list[hi]] else [])
  }

  /** The bounds of the index loops of a shift-click, from the clicked index `cur` and
      the anchor's index `last`. */
  function ShiftRange(cur: int, last: int): (int, int)
  {
    if last < cur then (last + 1, cur)
    else if last > cur then (cur, last - 1)
    else (last + 1, cur)
  }

  /** The entities a shift-click on `entityID` visits with the anchor `anchorID`. */
  function ShiftVisited(list: seq<EntityDetails>, entityID: string, anchorID: string): seq<EntityDetails>
  {
    var bounds := ShiftRange(IndexOf(list, entityID), IndexOf(list, anchorID));
    RangeEntities(list, bounds.0, bounds.1)
  }

  /** `handleEntityClick(e, entityID, groupID)`. With shift held and an anchor, every
      entity between the anchor and the clicked one goes through the toggle path;
      otherwise the clicked entity is toggled. */
  function Click(st: SelectionState, list: seq<EntityDetails>, entityID: string, groupID: string, shift: bool): (r: SelectionState)
    ensures !(shift && st.lastSelected.Some?) ==> (IsSelected(r, entityID) <==> !IsSelected(st, entityID))
    ensures shift && st.lastSelected.Some? && IndexOf(list, entityID) == IndexOf(list, st.lastSelected.value.entityID) ==> r == st
  {
    if shift && st.lastSelected.Some? then
      SelectAll(st, list, ShiftVisited(list, entityID, st.lastSelected.value.entityID), None)
    else
      Select(st, list, EntityDetails(entityID, groupID), None)
  }

  /** How many of `es` are selected. */
  function CountSelected(st: SelectionState, es: seq<EntityDetails>): (n: nat)
    ensures n <= |es|
    ensures n == 0 <==> forall i :: 0 <= i < |es| ==> !IsSelected(st, es[i].entityID)
    ensures n == |es| <==> forall i :: 0 <= i < |es| ==> IsSelected(st, es[i].entityID)
  {
    if es == [] then 0
    else
      var rest := CountSelected(st, es[1..]);
      assert forall i :: 1 <= i < |es| ==> es[i] == es[1..][i - 1];
      (if IsSelected(st, es[0].entityID) then 1 else 0) + rest
  }

  /** `isGroupSelected(groupID)`: "empty" when none of the group's entities is
      selected (an empty group included), "complete" when all of them are, "partial"
      otherwise. */
  function GroupSelection(list: seq<EntityDetails>, st: SelectionState, groupID: string): (r: GroupStatus)
    ensures r == Empty <==> forall e :: e in InGroup(list, groupID) ==> !IsSelected(st, e.entityID)
    ensures r == Complete <==>
      InGroup(list, groupID) != [] && forall e :: e in InGroup(list, groupID) ==> IsSelected(st, e.entityID)
  {
    var groupEntities := InGroup(list, groupID);
    var totalSelected := CountSelected(st, groupEntities);
    if totalSelected == 0 then Empty
    else if totalSelected == |groupEntities| then Complete
    else Partial
  }

  /** `handleGroupClick(groupID)`: force-add the whole group when it is "empty",
      force-remove it otherwise. */
  function GroupClick(st: SelectionState, list: seq<EntityDetails>, groupID: string): (r: SelectionState)
    ensures GroupSelection(list, st, groupID) == Empty && InGroup(list, groupID) != [] ==>
      r.active == Some(InGroup(list, groupID)[|InGroup(list, groupID)| - 1])
    ensures GroupSelection(list, st, groupID) != Empty ==>
      r.active == st.active && r.previous == st.previous && r.next == st.next
  {
    var force := if GroupSelection(list, st, groupID) == Empty then ForceAdd else ForceRemove;
    SelectAll(st, list, InGroup(list, groupID), Some(force))
  }

  /** One keydown, through the three window listeners in the order they are
      registered: Escape clears; Shift+Arrow toggles the cached neighbour of the
      active entity; an arrow with no active entity activates the first entry, and
      with one moves the cursor to its neighbour. The listeners read `active`,
      `previous` and `next` as they were when the key was pressed. */
  function KeyDown(st: SelectionState, list: seq<EntityDetails>, key: Key, shift: bool): (r: SelectionState)
    ensures key == OtherKey ==> r == st
    ensures key == Escape ==> r == Cleared
    ensures !shift && key != Escape ==> r.selected == st.selected && r.lastSelected == st.lastSelected
  {
    var s1 := if key == Escape then Cleared else st;
    var s2 :=
      if shift && key == ArrowDown && st.active.Some? && st.next.Some? then Select(s1, list, st.next.value, None)
      else if shift && key == ArrowUp && st.active.Some? && st.previous.Some? then Select(s1, list, st.previous.value, None)
      else s1;
    if (key == ArrowUp || key == ArrowDown) && st.active.None? then
      (if list == [] then s2 else SetActive(s2, list, Some(list[0])))
    else if key == ArrowDown && st.active.Some? then
      var n := PreviousAndNext(list, st.active.value.entityID).next;
      if n.Some? then SetActive(s2, list, n) else s2
    else if key == ArrowUp && st.active.Some? then
      var p := PreviousAndNext(list, st.active.value.entityID).previous;
      if p.Some? then SetActive(s2, list, p) else s2
    else s2
  }

  datatype Snapshot = Snapshot(isSelectionActive: bool, selectedEntityIds: seq<string>)

  /** `snapshot`: selection is active exactly when something is selected, and the ids
      are those of the selected entries, in selection order. */
  function SnapshotOf(st: SelectionState): (s: Snapshot)
    ensures s.isSelectionActive <==> st.selected != []
    ensures |s.selectedEntityIds| == |st.selected|
    ensures forall i :: 0 <= i < |st.selected| ==> s.selectedEntityIds[i] == st.selected[i].entityID
    ensures forall id :: id in s.selectedEntityIds <==> IsSelected(st, id)
  {
    forall id ensures id in EntityIds(st.selected) <==> IsSelected(st, id) {
      HasIdMeansIn(st.selected, id);
    }
    Snapshot(|st.selected| > 0, EntityIds(st.selected))
  }

  // ----- properties of the transitions -----

  /** The cursor cache agrees with the index, and no entity id is selected twice.
      Every handler keeps this. */
  ghost predicate Consistent(st: SelectionState, list: seq<EntityDetails>)
  {
    && DistinctIds(st.selected)
    && (st.active.None? ==> st.previous.None? && st.next.None?)
    && (st.active.Some? ==> Neighbours(st.previous, st.next) == PreviousAndNext(list, st.active.value.entityID))
  }

  lemma ClearedIsEmpty(list: seq<EntityDetails>, id: string)
    ensures Consistent(Cleared, list)
    ensures !IsSelected(Cleared, id)
    ensures !SnapshotOf(Cleared).isSelectionActive && SnapshotOf(Cleared).selectedEntityIds == []
  {
  }

  lemma SelectKeepsConsistent(st: SelectionState, list: seq<EntityDetails>, e: EntityDetails, force: Option<ForceAction>)
    requires Consistent(st, list)
    ensures Consistent(Select(st, list, e, force), list)
  {
  }

  lemma {:induction false} SelectAllKeepsConsistent(st: SelectionState, list: seq<EntityDetails>, es: seq<EntityDetails>, force: Option<ForceAction>)
    requires Consistent(st, list)
    ensures Consistent(SelectAll(st, list, es, force), list)
    decreases |es|
  {
    if es != [] {
      SelectAllKeepsConsistent(st, list, es[..|es| - 1], force);
      SelectKeepsConsistent(SelectAll(st, list, es[..|es| - 1], force), list, es[|es| - 1], force);
    }
  }

  /** Force-adding a list of entities selects exactly those ids on top of the old
      selection. */
  lemma {:induction false} ForceAddAll(st: SelectionState, list: seq<EntityDetails>, es: seq<EntityDetails>, id: string)
    ensures IsSelected(SelectAll(st, list, es, Some(ForceAdd)), id) <==> IsSelected(st, id) || id in EntityIds(es)
    decreases |es|
  {
    if es != [] {
      var init, last := es[..|es| - 1], es[|es| - 1];
      ForceAddAll(st, list, init, id);
      assert SelectAll(st, list, es, Some(ForceAdd)) == Select(SelectAll(st, list, init, Some(ForceAdd)), list, last, Some(ForceAdd));
      assert EntityIds(es) == EntityIds(init) + [last.entityID];
    }
  }

  /** Force-removing a list of entities deselects exactly those ids. */
  lemma {:induction false} ForceRemoveAll(st: SelectionState, list: seq<EntityDetails>, es: seq<EntityDetails>, id: string)
    ensures IsSelected(SelectAll(st, list, es, Some(ForceRemove)), id) <==> IsSelected(st, id) && id !in EntityIds(es)
    ensures SelectAll(st, list, es, Some(ForceRemove)).active == st.active
    decreases |es|
  {
    if es != [] {
      var init := es[..|es| - 1];
      ForceRemoveAll(st, list, init, id);
      assert EntityIds(es) == EntityIds(init) + [es[|es| - 1].entityID];
    }
  }

  /** Toggling entities none of which is selected, with distinct ids, selects all of
      them and leaves every other id as it was. */
  lemma {:induction false} ToggleUnselected(st: SelectionState, list: seq<EntityDetails>, es: seq<EntityDetails>, id: string)
    requires forall i, j :: 0 <= i < j < |es| ==> es[i].entityID != es[j].entityID
    requires forall i :: 0 <= i < |es| ==> !IsSelected(st, es[i].entityID)
    ensures IsSelected(SelectAll(st, list, es, None), id) <==> IsSelected(st, id) || id in EntityIds(es)
    decreases |es|
  {
    if es != [] {
      var init := es[..|es| - 1];
      var last := es[|es| - 1];
      ToggleUnselected(st, list, init, id);
      assert last.entityID !in EntityIds(init);
      SelectAllFrame(st, list, init, None, last.entityID);
      assert EntityIds(es) == EntityIds(init) + [last.entityID];
    }
  }

  lemma {:induction false} RangeIsSlice(list: seq<EntityDetails>, lo: int, hi: int)
    requires 0 <= lo <= hi + 1 <= |list|
    ensures RangeEntities(list, lo, hi) == list[lo..hi + 1]
    decreases hi - lo
  {
    if hi >= lo {
      RangeIsSlice(list, lo, hi - 1);
      assert list[lo..hi + 1] == list[lo..hi] + [list[hi]];
    }
  }

  /** A shift-click with the anchor found at `a` and the target at `c` toggles the
      positions `a+1..c` when `a < c`, `c..a-1` when `a > c`, and nothing when
      `a == c`: the anchor itself is not revisited, and the entity matched for either
      end is the first with its entity id. */
  lemma ShiftClickRange(st: SelectionState, list: seq<EntityDetails>, entityID: string, groupID: string)
    requires st.lastSelected.Some?
    requires IndexOf(list, st.lastSelected.value.entityID) >= 0 && IndexOf(list, entityID) >= 0
    ensures var a, c := IndexOf(list, st.lastSelected.value.entityID), IndexOf(list, entityID);
      a < c ==> Click(st, list, entityID, groupID, true) == SelectAll(st, list, list[a + 1..c + 1], None)
    ensures var a, c := IndexOf(list, st.lastSelected.value.entityID), IndexOf(list, entityID);
      a > c ==> Click(st, list, entityID, groupID, true) == SelectAll(st, list, list[c..a], None)
    ensures var a, c := IndexOf(list, st.lastSelected.value.entityID), IndexOf(list, entityID);
      a == c ==> Click(st, list, entityID, groupID, true) == st
  {
    var a, c := IndexOf(list, st.lastSelected.value.entityID), IndexOf(list, entityID);
    var visited := ShiftVisited(list, entityID, st.lastSelected.value.entityID);
    assert Click(st, list, entityID, groupID, true) == SelectAll(st, list, visited, None);
    ShiftBoundsSlice(list, entityID, st.lastSelected.value.entityID);
  }

  /** The positions visited by the shift-click loop, as a slice of the list. */
  lemma ShiftBoundsSlice(list: seq<EntityDetails>, entityID: string, anchorID: string)
    requires IndexOf(list, anchorID) >= 0 && IndexOf(list, entityID) >= 0
    ensures var a, c := IndexOf(list, anchorID), IndexOf(list, entityID);
      a < c ==> ShiftVisited(list, entityID, anchorID) == list[a + 1..c + 1]
    ensures var a, c := IndexOf(list, anchorID), IndexOf(list, entityID);
      a > c ==> ShiftVisited(list, entityID, anchorID) == list[c..a]
    ensures var a, c := IndexOf(list, anchorID), IndexOf(list, entityID);
      a == c ==> ShiftVisited(list, entityID, anchorID) == []
  {
    var a, c := IndexOf(list, anchorID), IndexOf(list, entityID);
    assert ShiftVisited(list, entityID, anchorID) == RangeEntities(list, ShiftRange(c, a).0, ShiftRange(c, a).1);
    if a < c {
      ShiftForward(list, a, c);
    } else if a > c {
      ShiftBackward(list, a, c);
    } else {
      assert ShiftRange(c, a) == (a + 1, c);
    }
  }

  lemma ShiftForward(list: seq<EntityDetails>, a: int, c: int)
    requires 0 <= a < c < |list|
    ensures RangeEntities(list, ShiftRange(c, a).0, ShiftRange(c, a).1) == list[a + 1..c + 1]
  {
    RangeIsSlice(list, a + 1, c);
  }

  lemma ShiftBackward(list: seq<EntityDetails>, a: int, c: int)
    requires 0 <= c < a < |list|
    ensures RangeEntities(list, ShiftRange(c, a).0, ShiftRange(c, a).1) == list[c..a]
  {
    RangeIsSlice(list, c, a - 1);
  }

  /** The range example: with the anchor A at `a` selected and nothing after it up to
      the clicked C at `c` selected, a shift-click selects A, C and everything
      between, and changes no other id. */
  lemma ShiftClickSelectsBetween(st: SelectionState, list: seq<EntityDetails>, entityID: string, groupID: string, id: string,
                                 a: int, c: int)
    requires st.lastSelected.Some?
    requires a == IndexOf(list, st.lastSelected.value.entityID) && c == IndexOf(list, entityID)
    requires forall i, j :: 0 <= i < j < |list| ==> list[i].entityID != list[j].entityID
    requires 0 <= a < c && forall i :: a < i <= c ==> !IsSelected(st, list[i].entityID)
    ensures IsSelected(Click(st, list, entityID, groupID, true), id) <==> IsSelected(st, id) || id in EntityIds(list[a + 1..c + 1])
  {
    var es := list[a + 1..c + 1];
    ShiftClickForward(st, list, entityID, groupID, a, c);
    UnselectedSlice(st, list, a + 1, c + 1);
    ToggleUnselected(st, list, es, id);
  }

  lemma ShiftClickForward(st: SelectionState, list: seq<EntityDetails>, entityID: string, groupID: string, a: int, c: int)
    requires st.lastSelected.Some?
    requires a == IndexOf(list, st.lastSelected.value.entityID) && c == IndexOf(list, entityID)
    requires 0 <= a < c
    ensures Click(st, list, entityID, groupID, true) == SelectAll(st, list, list[a + 1..c + 1], None)
  {
    ShiftClickRange(st, list, entityID, groupID);
  }

  /** A slice of a list with distinct ids, none of them selected, again has distinct
      ids none of which is selected. */
  lemma UnselectedSlice(st: SelectionState, list: seq<EntityDetails>, lo: int, hi: int)
    requires 0 <= lo <= hi <= |list|
    requires forall i, j :: 0 <= i < j < |list| ==> list[i].entityID != list[j].entityID
    requires forall i :: lo <= i < hi ==> !IsSelected(st, list[i].entityID)
    ensures forall i, j :: 0 <= i < j < |list[lo..hi]| ==> list[lo..hi][i].entityID != list[lo..hi][j].entityID
    ensures forall i :: 0 <= i < |list[lo..hi]| ==> !IsSelected(st, list[lo..hi][i].entityID)
  {
    var es := list[lo..hi];
    forall i, j | 0 <= i < j < |es| ensures es[i].entityID != es[j].entityID {
      assert es[i] == list[lo + i] && es[j] == list[lo + j];
    }
    forall i | 0 <= i < |es| ensures !IsSelected(st, es[i].entityID) {
      assert es[i] == list[lo + i];
    }
  }

  /** Every id a range of positions visits is an id of the list. */
  lemma {:induction false} RangeIdsInList(list: seq<EntityDetails>, lo: int, hi: int, id: string)
    ensures id in EntityIds(RangeEntities(list, lo, hi)) ==> id in EntityIds(list)
    decreases hi - lo
  {
    if hi >= lo {
      var init := RangeEntities(list, lo, hi - 1);
      var tail := if 0 <= hi < |list| then [list[hi]] else [];
      assert EntityIds(init + tail) == EntityIds(init) + EntityIds(tail);
      RangeIdsInList(list, lo, hi - 1, id);
      if 0 <= hi < |list| {
        assert EntityIds(list)[hi] == list[hi].entityID;
      }
    }
  }

  /** A click changes the membership of no entity id other than the clicked one and
      those of the index. */
  lemma ClickFrame(st: SelectionState, list: seq<EntityDetails>, entityID: string, groupID: string, shift: bool, id: string)
    requires id != entityID && id !in EntityIds(list)
    ensures IsSelected(Click(st, list, entityID, groupID, shift), id) <==> IsSelected(st, id)
  {
    if shift && st.lastSelected.Some? {
      var bounds := ShiftRange(IndexOf(list, entityID), IndexOf(list, st.lastSelected.value.entityID));
      RangeIdsInList(list, bounds.0, bounds.1, id);
      SelectAllFrame(st, list, RangeEntities(list, bounds.0, bounds.1), None, id);
    }
  }

  /** A plain click toggles the clicked entity; when it becomes selected it becomes
      the active entity and the anchor. */
  lemma PlainClickToggles(st: SelectionState, list: seq<EntityDetails>, entityID: string, groupID: string, shift: bool)
    requires !shift || st.lastSelected.None?
    ensures var r := Click(st, list, entityID, groupID, shift);
      && (IsSelected(r, entityID) <==> !IsSelected(st, entityID))
      && (IsSelected(r, entityID) ==> r.active == Some(EntityDetails(entityID, groupID))
                                      && r.lastSelected == Some(EntityDetails(entityID, groupID)))
  {
  }

  /** A group click on an "empty" group selects all its entities and makes it
      "complete"; on a "partial" or "complete" group it deselects them all and makes it
      "empty". Entity ids outside the group keep their membership. */
  lemma GroupClickEffect(st: SelectionState, list: seq<EntityDetails>, groupID: string, id: string)
    ensures var r := GroupClick(st, list, groupID);
      && (id !in EntityIds(InGroup(list, groupID)) ==> (IsSelected(r, id) <==> IsSelected(st, id)))
      && (GroupSelection(list, st, groupID) == Empty && id in EntityIds(InGroup(list, groupID)) ==> IsSelected(r, id))
      && (GroupSelection(list, st, groupID) != Empty && id in EntityIds(InGroup(list, groupID)) ==> !IsSelected(r, id))
  {
    var es := InGroup(list, groupID);
    if GroupSelection(list, st, groupID) == Empty {
      ForceAddAll(st, list, es, id);
    } else {
      ForceRemoveAll(st, list, es, id);
    }
  }

  lemma GroupClickStatus(st: SelectionState, list: seq<EntityDetails>, groupID: string)
    requires InGroup(list, groupID) != []
    ensures GroupSelection(list, GroupClick(st, list, groupID), groupID) ==
      if GroupSelection(list, st, groupID) == Empty then Complete else Empty
  {
    var es := InGroup(list, groupID);
    var r := GroupClick(st, list, groupID);
    forall e | e in es
      ensures GroupSelection(list, st, groupID) == Empty ==> IsSelected(r, e.entityID)
      ensures GroupSelection(list, st, groupID) != Empty ==> !IsSelected(r, e.entityID)
    {
      assert e.entityID in EntityIds(es) by {
        var i :| 0 <= i < |es| && es[i] == e;
        assert EntityIds(es)[i] == e.entityID;
      }
      GroupClickEffect(st, list, groupID, e.entityID);
    }
  }

  /** Without shift, an arrow key never changes which entities are selected: with no
      active entity it activates the first entry of the index, and with one it moves
      the cursor to the next (ArrowDown) or previous (ArrowUp) neighbour if there is
      one. Escape clears everything. */
  lemma ArrowKeysMoveCursor(st: SelectionState, list: seq<EntityDetails>, key: Key)
    requires key == ArrowUp || key == ArrowDown
    ensures var r := KeyDown(st, list, key, false);
      && r.selected == st.selected && r.lastSelected == st.lastSelected
      && (st.active.None? && list != [] ==> r.active == Some(list[0]))
      && (st.active.None? && list == [] ==> r == st)
      && (st.active.Some? ==>
            var n := PreviousAndNext(list, st.active.value.entityID);
            var target := if key == ArrowDown then n.next else n.previous;
            r.active == (if target.Some? then target else st.active))
  {
  }

  lemma EscapeClears(st: SelectionState, list: seq<EntityDetails>, shift: bool, id: string)
    ensures KeyDown(st, list, Escape, shift) == Cleared
    ensures !IsSelected(KeyDown(st, list, Escape, shift), id)
  {
  }

  /** Shift+Arrow toggles the cached neighbour of the active entity, and the cursor
      ends on that neighbour. */
  lemma ShiftArrowTogglesNeighbour(st: SelectionState, list: seq<EntityDetails>, key: Key)
    requires Consistent(st, list)
    requires key == ArrowUp || key == ArrowDown
    requires st.active.Some?
    requires var t := if key == ArrowDown then st.next else st.previous; t.Some?
    ensures var t := (if key == ArrowDown then st.next else st.previous).value;
      var r := KeyDown(st, list, key, true);
      && (IsSelected(r, t.entityID) <==> !IsSelected(st, t.entityID))
      && (forall id :: id != t.entityID ==> (IsSelected(r, id) <==> IsSelected(st, id)))
      && r.active == Some(t)
  {
  }

  lemma SetActiveKeepsConsistent(st: SelectionState, list: seq<EntityDetails>, e: Option<EntityDetails>)
    requires Consistent(st, list)
    ensures Consistent(SetActive(st, list, e), list)
  {
  }

  lemma ClickKeepsConsistent(st: SelectionState, list: seq<EntityDetails>, entityID: string, groupID: string, shift: bool)
    requires Consistent(st, list)
    ensures Consistent(Click(st, list, entityID, groupID, shift), list)
  {
    if shift && st.lastSelected.Some? {
      var bounds := ShiftRange(IndexOf(list, entityID), IndexOf(list, st.lastSelected.value.entityID));
      SelectAllKeepsConsistent(st, list, RangeEntities(list, bounds.0, bounds.1), None);
    } else {
      SelectKeepsConsistent(st, list, EntityDetails(entityID, groupID), None);
    }
  }

  lemma GroupClickKeepsConsistent(st: SelectionState, list: seq<EntityDetails>, groupID: string)
    requires Consistent(st, list)
    ensures Consistent(GroupClick(st, list, groupID), list)
  {
    var force := if GroupSelection(list, st, groupID) == Empty then ForceAdd else ForceRemove;
    SelectAllKeepsConsistent(st, list, InGroup(list, groupID), Some(force));
  }

  lemma KeyDownKeepsConsistent(st: SelectionState, list: seq<EntityDetails>, key: Key, shift: bool)
    requires Consistent(st, list)
    ensures Consistent(KeyDown(st, list, key, shift), list)
  {
    var s1 := if key == Escape then Cleared else st;
    ClearedIsEmpty(list, "");
    assert Consistent(s1, list);
    if shift && st.active.Some? && st.next.Some? {
      SelectKeepsConsistent(s1, list, st.next.value, None);
    }
    if shift && st.active.Some? && st.previous.Some? {
      SelectKeepsConsistent(s1, list, st.previous.value, None);
    }
    var s2 :=
      if shift && key == ArrowDown && st.active.Some? && st.next.Some? then Select(s1, list, st.next.value, None)
      else if shift && key == ArrowUp && st.active.Some? && st.previous.Some? then Select(s1, list, st.previous.value, None)
      else s1;
    assert Consistent(s2, list);
    if list != [] {
      SetActiveKeepsConsistent(s2, list, Some(list[0]));
    }
    if st.active.Some? {
      var n := PreviousAndNext(list, st.active.value.entityID);
      SetActiveKeepsConsistent(s2, list, n.next);
      SetActiveKeepsConsistent(s2, list, n.previous);
    }
  }

  /** Clicks, group clicks and key presses keep the cursor cache in agreement with
      the index and never select an entity id twice. */
  lemma HandlersKeepConsistent(st: SelectionState, list: seq<EntityDetails>, entityID: string, groupID: string, shift: bool, key: Key)
    requires Consistent(st, list)
    ensures Consistent(Click(st, list, entityID, groupID, shift), list)
    ensures Consistent(GroupClick(st, list, groupID), list)
    ensures Consistent(KeyDown(st, list, key, shift), list)
  {
    ClickKeepsConsistent(st, list, entityID, groupID, shift);
    GroupClickKeepsConsistent(st, list, groupID);
    KeyDownKeepsConsistent(st, list, key, shift);
  }

  // ----- the store and the hook -----

  /** `useMultipleSelectStore`. */
  class SelectionStore {
    var selected: seq<EntityDetails>
    var active: Option<EntityDetails>
    var previous: Option<EntityDetails>
    var next: Option<EntityDetails>
    var lastSelected: Option<EntityDetails>

    function State(): SelectionState
      reads this
    {
      SelectionState(selected, active, previous, next, lastSelected)
    }

    constructor ()
      ensures State() == Cleared
    {
      selected, active, previous, next, lastSelected := [], None, None, None, None;
    }

    /** `isEntitySelected(entityID)` */
    predicate IsEntitySelected(id: string)
      reads this
      ensures IsEntitySelected(id) <==> IsSelected(State(), id)
    {
      HasId(selected, id)
    }

    /** `isEntityActive(entityID)` */
    predicate IsEntityActive(id: string)
      reads this
      ensures active.None? ==> !IsEntityActive(id)
      ensures active.Some? ==> (IsEntityActive(id) <==> id == active.value.entityID)
    {
      active.Some? && active.value.entityID == id
    }

    method UpdateSelectedEntityDetails(e: EntityDetails, action: StoreAction)
      modifies this
      ensures State() == if action == Add then AddEntity(old(State()), e) else RemoveEntity(old(State()), e)
    {
      if action == Add {
        if !HasId(selected, e.entityID) {
          selected := selected + [e];
        }
        lastSelected := Some(e);
      } else {
        selected := WithoutEntity(selected, e.entityID);
        lastSelected := if selected == [] then None else Some(selected[|selected| - 1]);
      }
    }

    method UpdateActiveEntityDetails(e: Option<EntityDetails>)
      modifies this
      ensures State() == old(State()).(active := e)
    {
      active := e;
    }

    method UpdatePreviousActiveEntity(e: Option<EntityDetails>)
      modifies this
      ensures State() == old(State()).(previous := e)
    {
      previous := e;
    }

    method UpdateNextActiveEntity(e: Option<EntityDetails>)
      modifies this
      ensures State() == old(State()).(next := e)
    {
      next := e;
    }

    method ClearSelection()
      modifies this
      ensures State() == Cleared
    {
      selected, active, previous, next, lastSelected := [], None, None, None, None;
    }
  }

  /** `useMultipleSelect({ entities })`: the handlers over one rendering's entity
      index. */
  class MultipleSelect {
    const entitiesList: seq<EntityDetails>
    const store: SelectionStore

    constructor (entities: JsObject.Obj<seq<string>>, store: SelectionStore)
      requires JsObject.WellFormed(entities)
      ensures entitiesList == EntitiesList(entities) && this.store == store
    {
      this.entitiesList := EntitiesList(entities);
      this.store := store;
    }

    method HandleActiveEntityChange(e: Option<EntityDetails>)
      modifies store
      ensures store.State() == SetActive(old(store.State()), entitiesList, e)
    {
      if e.None? {
        store.UpdateActiveEntityDetails(None);
        store.UpdatePreviousActiveEntity(None);
        store.UpdateNextActiveEntity(None);
        return;
      }
      store.UpdateActiveEntityDetails(e);
      var n := PreviousAndNext(entitiesList, e.value.entityID);
      store.UpdatePreviousActiveEntity(n.previous);
      store.UpdateNextActiveEntity(n.next);
    }

    method HandleEntitySelection(e: EntityDetails, force: Option<ForceAction>)
      modifies store
      ensures store.State() == Select(old(store.State()), entitiesList, e, force)
    {
      var isSelected := store.IsEntitySelected(e.entityID);
      if force.Some? {
        if force.value == ForceAdd {
          store.UpdateSelectedEntityDetails(e, Add);
          HandleActiveEntityChange(Some(e));
        }
        if force.value == ForceRemove {
          store.UpdateSelectedEntityDetails(e, Remove);
        }
        return;
      }
      if isSelected {
        store.UpdateSelectedEntityDetails(e, Remove);
      } else {
        store.UpdateSelectedEntityDetails(e, Add);
        HandleActiveEntityChange(Some(e));
      }
    }

    /** `handleEntitySelection(entitiesList[i], false)` for each `i` from `lo` to
        `hi`, skipping positions outside the list. */
    method SelectRange(lo: int, hi: int)
      modifies store
      ensures store.State() == SelectAll(old(store.State()), entitiesList, RangeEntities(entitiesList, lo, hi), None)
    {
      ghost var st0 := store.State();
      var i := lo;
      while i <= hi
        invariant lo <= i <= hi + 1 || (i == lo && hi < lo)
        invariant store.State() == SelectAll(st0, entitiesList, RangeEntities(entitiesList, lo, i - 1), None)
        decreases hi - i
      {
        ghost var done := RangeEntities(entitiesList, lo, i - 1);
        ghost var before := store.State();
        if 0 <= i < |entitiesList| {
          HandleEntitySelection(entitiesList[i], None);
          assert RangeEntities(entitiesList, lo, i) == done + [entitiesList[i]];
          SelectAllSnoc(st0, entitiesList, done, entitiesList[i], None);
        } else {
          assert RangeEntities(entitiesList, lo, i) == done;
        }
        i := i + 1;
      }
    }

    method HandleEntityClick(entityID: string, groupID: string, shift: bool)
      modifies store
      ensures store.State() == Click(old(store.State()), entitiesList, entityID, groupID, shift)
    {
      var anchor := store.lastSelected;
      if shift && anchor.Some? {
        var currentEntityIndex := IndexOf(entitiesList, entityID);
        var lastEntityIndex := IndexOf(entitiesList, anchor.value.entityID);
        var lo, hi;
        if lastEntityIndex < currentEntityIndex {
          lo, hi := lastEntityIndex + 1, currentEntityIndex;
        } else if lastEntityIndex > currentEntityIndex {
          lo, hi := currentEntityIndex, lastEntityIndex - 1;
        } else {
          lo, hi := lastEntityIndex + 1, currentEntityIndex;
        }
        assert (lo, hi) == ShiftRange(currentEntityIndex, lastEntityIndex);
        SelectRange(lo, hi);
        return;
      }
      HandleEntitySelection(EntityDetails(entityID, groupID), None);
    }

    /** `handleEntitySelection(entity, false, force)` for each of `es` in turn. */
    method SelectEach(es: seq<EntityDetails>, force: Option<ForceAction>)
      modifies store
      ensures store.State() == SelectAll(old(store.State()), entitiesList, es, force)
    {
      ghost var st0 := store.State();
      for i := 0 to |es|
        invariant store.State() == SelectAll(st0, entitiesList, es[..i], force)
      {
        ghost var before := store.State();
        HandleEntitySelection(es[i], force);
        assert es[..i + 1][..i] == es[..i];
        assert SelectAll(st0, entitiesList, es[..i + 1], force) == Select(before, entitiesList, es[i], force);
      }
      assert es[..|es|] == es;
    }

    method HandleGroupClick(groupID: string)
      modifies store
      ensures store.State() == GroupClick(old(store.State()), entitiesList, groupID)
    {
      var groupEntities := InGroup(entitiesList, groupID);
      var groupSelectionStatus := GroupSelection(entitiesList, store.State(), groupID);
      var force := if groupSelectionStatus == Empty then ForceAdd else ForceRemove;
      SelectEach(groupEntities, Some(force));
    }

    method HandleKeyDown(key: Key, shift: bool)
      modifies store
      ensures store.State() == KeyDown(old(store.State()), entitiesList, key, shift)
    {
      // what the listeners saw when they were registered
      var activeEntityDetails, previousActiveEntity, nextActiveEntity := store.active, store.previous, store.next;
      // clear selection on escape
      if key == Escape {
        store.ClearSelection();
      }
      // select the neighbour on shift + arrow
      if shift {
        if key == ArrowDown && activeEntityDetails.Some? && nextActiveEntity.Some? {
          HandleEntitySelection(nextActiveEntity.value, None);
        }
        if key == ArrowUp && activeEntityDetails.Some? && previousActiveEntity.Some? {
          HandleEntitySelection(previousActiveEntity.value, None);
        }
      }
      // move the cursor
      if (key == ArrowUp || key == ArrowDown) && activeEntityDetails.None? {
        if entitiesList == [] {
          return;
        }
        HandleActiveEntityChange(Some(entitiesList[0]));
      }
      if key == ArrowDown && activeEntityDetails.Some? {
        var n := PreviousAndNext(entitiesList, activeEntityDetails.value.entityID).next;
        if n.Some? {
          HandleActiveEntityChange(n);
        }
      }
      if key == ArrowUp && activeEntityDetails.Some? {
        var p := PreviousAndNext(entitiesList, activeEntityDetails.value.entityID).previous;
        if p.Some? {
          HandleActiveEntityChange(p);
        }
      }
    }

    /** The route-change listener. */
    method HandleRouteChange()
      modifies store
      ensures store.State() == Cleared
    {
      store.ClearSelection();
    }
  }
}
