/** How both scene wrappers (LogicalScene and VisualScene) derive their node records from a
    scene: `fromScene` gives every button a slot with a fresh id; `updateScene` rebuilds the
    slot map and the command groups from a newer snapshot, keeping the node id of every index
    and group that existed before, and stages one change record per changed index or group.
    Both wrappers run the same code, except that LogicalScene also marks each slot and record
    with whether its index is the last one (`withHighest`). */
module SceneNodes {
  import opened Wrappers
  import opened OrderedMaps
  import opened SceneModel

  /** The `highestIndex` field a reconciliation writes for index i. */
  function HighestFlag(withHighest: bool, updated: Scene, i: int): (f: Option<bool>)
    ensures withHighest <==> f.Some?
    ensures f.Some? ==> (f.value <==> i == |updated.buttons| - 1)
  {
    if withHighest then Some(i == |updated.buttons| - 1) else None
  }

  // ---------------------------------------------------------------------------------------
  // fromScene

  /** The slot `fromScene` builds for button `i`: id next+i and, in LogicalScene, flagged
      highest only when it is the last button of the array. */
  function InitialSlot(withHighest: bool, s: Scene, next: Id, i: nat): Slot
    requires i < |s.buttons|
  {
    Slot(next + i, s.sceneId, i, s.buttons[i], HighestFlag(withHighest, s, i))
  }

  /** The slot map `fromScene` builds for the first `n` buttons, in index order. */
  function InitialSlots(withHighest: bool, s: Scene, next: Id, n: nat): (m: SlotMap)
    requires n <= |s.buttons|
    ensures m.Valid()
    ensures m.keys == Upto(n)
  {
    if n == 0 then Empty()
    else
      var m := InitialSlots(withHighest, s, next, n - 1);
      assert n - 1 !in m.keys;
      m.Set(n - 1, InitialSlot(withHighest, s, next, n - 1))
  }

  /** `fromScene` mints one id per button, next+i for index i, and flags only the last index. */
  lemma {:induction false} InitialSlotAt(withHighest: bool, s: Scene, next: Id, n: nat, i: nat)
    requires i < n <= |s.buttons|
    ensures i in InitialSlots(withHighest, s, next, n).entries
    ensures var slot := InitialSlots(withHighest, s, next, n).entries[i];
            && slot.id == next + i && slot.index == i && slot.button == s.buttons[i]
            && slot.parentSceneId == s.sceneId
            && slot.highestIndex == HighestFlag(withHighest, s, i)
  {
    if i < n - 1 {
      InitialSlotAt(withHighest, s, next, n - 1, i);
    }
  }

  /** The slot ids `fromScene` mints are pairwise distinct and lie in next .. next+|buttons|-1,
      below the two command group ids (next+|buttons| and next+|buttons|+1). */
  lemma InitialIdsDistinct(withHighest: bool, s: Scene, next: Id)
    ensures SlotIdsDistinct(InitialSlots(withHighest, s, next, |s.buttons|))
    ensures forall i :: i in InitialSlots(withHighest, s, next, |s.buttons|).entries ==>
              next <= InitialSlots(withHighest, s, next, |s.buttons|).entries[i].id < next + |s.buttons|
  {
    var m := InitialSlots(withHighest, s, next, |s.buttons|);
    forall i | i in m.entries ensures m.entries[i].id == next + i && 0 <= i < |s.buttons| {
      InitialSlotAt(withHighest, s, next, |s.buttons|, i);
    }
    forall a, b ensures SlotsApart(m, a, b) {
    }
  }

  // ---------------------------------------------------------------------------------------
  // button slots

  /** The id `updateScene` gives index i: the old slot's id when the old map has index i,
      otherwise the fresh id next+i (indices 0..5 of the block the reconciliation reserves). */
  function SlotIdFor(prior: SlotMap, i: int, next: Id): Id
    requires 0 <= i
  {
    if i in prior.entries then prior.entries[i].id else next + i
  }

  /** The slot `updateScene` builds for an occupied index of the new scene. */
  function ReconciledSlot(withHighest: bool, prior: SlotMap, updated: Scene, next: Id, i: nat): Slot
    requires i < |updated.buttons|
  {
    Slot(SlotIdFor(prior, i, next), updated.sceneId, i, updated.buttons[i], HighestFlag(withHighest, updated, i))
  }

  /** The slot map `updateScene` builds over indices 0 .. n-1: a slot for each index the new
      scene occupies, in index order; indices the new scene leaves empty get none. */
  function ReconciledSlots(withHighest: bool, prior: SlotMap, updated: Scene, next: Id, n: nat): (m: SlotMap)
    ensures m.Valid()
    ensures m.keys == Upto(Min(n, |updated.buttons|))
  {
    if n == 0 then Empty()
    else
      var m := ReconciledSlots(withHighest, prior, updated, next, n - 1);
      if n - 1 < |updated.buttons| then
        assert n - 1 !in m.keys;
        m.Set(n - 1, ReconciledSlot(withHighest, prior, updated, next, n - 1))
      else m
  }

  /** The record reconciliation leaves for index i, if the button there changed. */
  function SlotRecord(withHighest: bool, oldScene: Scene, prior: SlotMap, updated: Scene, next: Id, i: nat): Option<ButtonChange>
  {
    match ClassifyButton(ButtonAt(oldScene, i), ButtonAt(updated, i))
    case None => None
    case Some(c) => Some(ButtonChange(SlotIdFor(prior, i, next), i, c, HighestFlag(withHighest, updated, i)))
  }

  /** The button records of a reconciliation over indices 0 .. n-1, in index order. */
  function SlotRecords(withHighest: bool, oldScene: Scene, prior: SlotMap, updated: Scene, next: Id, n: nat): seq<ButtonChange>
  {
    if n == 0 then []
    else SlotRecords(withHighest, oldScene, prior, updated, next, n - 1)
         + OptionToSeq(SlotRecord(withHighest, oldScene, prior, updated, next, n - 1))
  }

  /** After reconciliation index i holds a slot exactly when the new scene occupies it (and
      i < n); an index occupied before and after keeps its old id, a newly occupied one gets a
      fresh id, and the slot carries the new button. */
  lemma {:induction false} ReconciledSlotAt(withHighest: bool, prior: SlotMap, updated: Scene, next: Id, n: nat, i: int)
    ensures i in ReconciledSlots(withHighest, prior, updated, next, n).entries <==> 0 <= i < n && i < |updated.buttons|
    ensures i in ReconciledSlots(withHighest, prior, updated, next, n).entries ==>
      var slot := ReconciledSlots(withHighest, prior, updated, next, n).entries[i];
      && slot.id == (if i in prior.entries then prior.entries[i].id else next + i)
      && slot.index == i && slot.button == updated.buttons[i] && slot.parentSceneId == updated.sceneId
      && slot.highestIndex == HighestFlag(withHighest, updated, i)
  {
    ReconciledSlotIs(withHighest, prior, updated, next, n, i);
  }

  /** Index i of the reconciled map holds exactly the slot `ReconciledSlot` builds for it. */
  lemma {:induction false} ReconciledSlotIs(withHighest: bool, prior: SlotMap, updated: Scene, next: Id, n: nat, i: int)
    ensures i in ReconciledSlots(withHighest, prior, updated, next, n).entries <==> 0 <= i < n && i < |updated.buttons|
    ensures i in ReconciledSlots(withHighest, prior, updated, next, n).entries ==>
      ReconciledSlots(withHighest, prior, updated, next, n).entries[i] == ReconciledSlot(withHighest, prior, updated, next, i)
  {
    var entries := ReconciledSlots(withHighest, prior, updated, next, n).entries;
    assert i in entries <==> 0 <= i < n && i < |updated.buttons| by {
      InUpto(Min(n, |updated.buttons|), i);
    }
    if i in entries {
      var before := ReconciledSlots(withHighest, prior, updated, next, n - 1).entries;
      if i == n - 1 {
        assert entries[i] == ReconciledSlot(withHighest, prior, updated, next, i) by {
          ReconciledEntriesStep(withHighest, prior, updated, next, n);
        }
      } else {
        assert i in before && entries[i] == before[i] by {
          ReconciledEntriesStep(withHighest, prior, updated, next, n);
        }
        ReconciledSlotIs(withHighest, prior, updated, next, n - 1, i);
      }
    }
  }

  /** One step of the reconciled map: index n-1 is added when the new scene occupies it. */
  lemma ReconciledEntriesStep(withHighest: bool, prior: SlotMap, updated: Scene, next: Id, n: nat)
    requires n > 0
    ensures ReconciledSlots(withHighest, prior, updated, next, n).entries
            == if n - 1 < |updated.buttons|
               then ReconciledSlots(withHighest, prior, updated, next, n - 1).entries[n - 1 := ReconciledSlot(withHighest, prior, updated, next, n - 1)]
               else ReconciledSlots(withHighest, prior, updated, next, n - 1).entries
  {
  }

  /** Reconciliation mints ids only for indices that were empty, so if the old ids were
      distinct and all below `next`, the new slot ids are distinct too. */
  lemma ReconciledIdsDistinct(withHighest: bool, prior: SlotMap, updated: Scene, next: Id)
    requires SlotIdsDistinct(prior)
    requires forall k :: k in prior.entries ==> prior.entries[k].id < next
    ensures SlotIdsDistinct(ReconciledSlots(withHighest, prior, updated, next, SCENE_MAX_BUTTONS))
  {
    var m := ReconciledSlots(withHighest, prior, updated, next, SCENE_MAX_BUTTONS);
    forall i | i in m.entries
      ensures m.entries[i].id == if i in prior.entries then prior.entries[i].id else next + i
    {
      ReconciledSlotAt(withHighest, prior, updated, next, SCENE_MAX_BUTTONS, i);
    }
    forall a, b ensures SlotsApart(m, a, b) {
      assert SlotsApart(prior, a, b);
    }
  }

  /** Exactly one record survives per changed index: the records come in strictly increasing
      index order, each is the classification of its index, and every index below n whose
      button changed has its record in the list. */
  lemma {:induction false} SlotRecordsExact(withHighest: bool, oldScene: Scene, prior: SlotMap, updated: Scene, next: Id, n: nat)
    ensures var recs := SlotRecords(withHighest, oldScene, prior, updated, next, n);
      && (forall j :: 0 <= j < |recs| ==>
            0 <= recs[j].index < n && SlotRecord(withHighest, oldScene, prior, updated, next, recs[j].index) == Some(recs[j]))
      && (forall j1, j2 :: 0 <= j1 < j2 < |recs| ==> recs[j1].index < recs[j2].index)
      && (forall i :: 0 <= i < n && ButtonAt(oldScene, i) != ButtonAt(updated, i) ==>
            SlotRecord(withHighest, oldScene, prior, updated, next, i).Some?
            && SlotRecord(withHighest, oldScene, prior, updated, next, i).value in recs)
  {
    SlotRecordsSound(withHighest, oldScene, prior, updated, next, n);
    SlotRecordsOrdered(withHighest, oldScene, prior, updated, next, n);
    SlotRecordsComplete(withHighest, oldScene, prior, updated, next, n);
  }

  /** Every record is the classification of an index below n. */
  lemma {:induction false} SlotRecordsSound(withHighest: bool, oldScene: Scene, prior: SlotMap, updated: Scene, next: Id, n: nat)
    ensures var recs := SlotRecords(withHighest, oldScene, prior, updated, next, n);
      forall j :: 0 <= j < |recs| ==>
        0 <= recs[j].index < n && SlotRecord(withHighest, oldScene, prior, updated, next, recs[j].index) == Some(recs[j])
  {
    if n > 0 {
      SlotRecordsSound(withHighest, oldScene, prior, updated, next, n - 1);
      SlotRecordsStep(withHighest, oldScene, prior, updated, next, n);
    }
  }

  /** The records come in strictly increasing index order. */
  lemma {:induction false} SlotRecordsOrdered(withHighest: bool, oldScene: Scene, prior: SlotMap, updated: Scene, next: Id, n: nat)
    ensures IndicesIncreasing(SlotRecords(withHighest, oldScene, prior, updated, next, n))
  {
    if n > 0 {
      var rest := SlotRecords(withHighest, oldScene, prior, updated, next, n - 1);
      var tail := OptionToSeq(SlotRecord(withHighest, oldScene, prior, updated, next, n - 1));
      assert IndicesBelow(rest, n - 1) by {
        SlotRecordsSound(withHighest, oldScene, prior, updated, next, n - 1);
        assert var recs := SlotRecords(withHighest, oldScene, prior, updated, next, n - 1);
          forall j :: 0 <= j < |recs| ==>
            0 <= recs[j].index < n - 1 && SlotRecord(withHighest, oldScene, prior, updated, next, recs[j].index) == Some(recs[j]);
      }
      SlotRecordsOrdered(withHighest, oldScene, prior, updated, next, n - 1);
      assert SlotRecords(withHighest, oldScene, prior, updated, next, n) == rest + tail
             && |tail| <= 1 && forall j :: 0 <= j < |tail| ==> tail[j].index == n - 1 by {
        SlotRecordsStep(withHighest, oldScene, prior, updated, next, n);
      }
      AppendIncreasing(rest, tail, n - 1);
    }
  }

  /** The records' indices strictly increase along the list. */
  predicate IndicesIncreasing(recs: seq<ButtonChange>) {
    forall j1, j2 :: 0 <= j1 < j2 < |recs| ==> recs[j1].index < recs[j2].index
  }

  /** Every record's index is below `bound`. */
  predicate IndicesBelow(recs: seq<ButtonChange>, bound: int) {
    forall j :: 0 <= j < |recs| ==> recs[j].index < bound
  }

  /** Appending at most one record at an index above all the others keeps the indices
      increasing. */
  lemma AppendIncreasing(rest: seq<ButtonChange>, tail: seq<ButtonChange>, index: int)
    requires IndicesIncreasing(rest) && IndicesBelow(rest, index)
    requires |tail| <= 1 && forall j :: 0 <= j < |tail| ==> tail[j].index == index
    ensures IndicesIncreasing(rest + tail)
  {
  }

  /** One step of the record list: index n-1's record, if any, comes last, and it is about
      index n-1. */
  lemma SlotRecordsStep(withHighest: bool, oldScene: Scene, prior: SlotMap, updated: Scene, next: Id, n: nat)
    requires n > 0
    ensures var tail := OptionToSeq(SlotRecord(withHighest, oldScene, prior, updated, next, n - 1));
      && SlotRecords(withHighest, oldScene, prior, updated, next, n)
         == SlotRecords(withHighest, oldScene, prior, updated, next, n - 1) + tail
      && forall j :: 0 <= j < |tail| ==> tail[j].index == n - 1
                                         && SlotRecord(withHighest, oldScene, prior, updated, next, n - 1) == Some(tail[j])
  {
  }

  /** Every index below n whose button changed has its record in the list. */
  lemma {:induction false} SlotRecordsComplete(withHighest: bool, oldScene: Scene, prior: SlotMap, updated: Scene, next: Id, n: nat)
    ensures var recs := SlotRecords(withHighest, oldScene, prior, updated, next, n);
      forall i :: 0 <= i < n && ButtonAt(oldScene, i) != ButtonAt(updated, i) ==>
        SlotRecord(withHighest, oldScene, prior, updated, next, i).Some?
        && SlotRecord(withHighest, oldScene, prior, updated, next, i).value in recs
  {
    if n > 0 {
      SlotRecordsComplete(withHighest, oldScene, prior, updated, next, n - 1);
      var rest := SlotRecords(withHighest, oldScene, prior, updated, next, n - 1);
      var tail := OptionToSeq(SlotRecord(withHighest, oldScene, prior, updated, next, n - 1));
      assert SlotRecords(withHighest, oldScene, prior, updated, next, n) == rest + tail;
      forall i | 0 <= i < n && ButtonAt(oldScene, i) != ButtonAt(updated, i)
        ensures SlotRecord(withHighest, oldScene, prior, updated, next, i).value in rest + tail
      {
        if i < n - 1 {
          assert SlotRecord(withHighest, oldScene, prior, updated, next, i).value in rest;
        }
      }
    }
  }

  /** The record for a changed index is "created" when the index was empty before, "deleted"
      when it is empty now, "modified" otherwise, and carries the index's (kept or fresh) id. */
  lemma SlotRecordClassify(withHighest: bool, oldScene: Scene, prior: SlotMap, updated: Scene, next: Id, i: nat)
    requires ButtonAt(oldScene, i) != ButtonAt(updated, i)
    ensures var r := SlotRecord(withHighest, oldScene, prior, updated, next, i);
      && r.Some? && r.value.index == i && r.value.id == SlotIdFor(prior, i, next)
      && (r.value.change == Created <==> i >= |oldScene.buttons|)
      && (r.value.change == Deleted <==> i >= |updated.buttons|)
      && (r.value.change == Modified <==> i < |oldScene.buttons| && i < |updated.buttons|)
  {
  }

  /** One iteration of `updateScene`'s slot loop: the id is the old slot's or a fresh one; a
      record is staged when the buttons differ ("modified", overwritten by "created" when only
      the new button exists and by "deleted" when only the old one does); a slot is built only
      when the new scene has a button at the index. */
  method ReconcileSlot(withHighest: bool, rawOldScene: Scene, prior: SlotMap, updated: Scene, next: Id, index: nat)
    returns (slot: Option<Slot>, record: Option<ButtonChange>)
    ensures slot.Some? <==> index < |updated.buttons|
    ensures slot.Some? ==> slot.value == ReconciledSlot(withHighest, prior, updated, next, index)
    ensures record == SlotRecord(withHighest, rawOldScene, prior, updated, next, index)
  {
    var isLastIndex := index == |updated.buttons| - 1;
    var highestIndex := if withHighest then Some(isLastIndex) else None;
    var oldButton := ButtonAt(rawOldScene, index);
    var newButton := ButtonAt(updated, index);
    var isEqual := oldButton == newButton;
    var buttonUuid := match prior.Get(index) case Some(s) => s.id case None => next + index;
    record := None;
    if !isEqual {
      record := Some(ButtonChange(buttonUuid, index, Modified, highestIndex));
    }
    if oldButton.None? && newButton.Some? {
      record := Some(ButtonChange(buttonUuid, index, Created, highestIndex));
    }
    slot := None;
    if newButton.None? {
      if oldButton.Some? {
        record := Some(ButtonChange(buttonUuid, index, Deleted, highestIndex));
      }
      return;
    }
    slot := Some(Slot(buttonUuid, updated.sceneId, index, newButton.value, highestIndex));
  }

  /** Staging index `index`'s record in the ledger map extends the ledger's values by that
      record, as `SlotRecords` prescribes. */
  lemma StageRecordStep(withHighest: bool, rawOldScene: Scene, prior: SlotMap, updated: Scene, next: Id, index: nat,
                        ledger: OrderedMap<int, ButtonChange>, record: Option<ButtonChange>)
    requires ledger.Valid() && forall k :: k in ledger.entries ==> k < index
    requires ledger.Values() == SlotRecords(withHighest, rawOldScene, prior, updated, next, index)
    requires record == SlotRecord(withHighest, rawOldScene, prior, updated, next, index)
    ensures var staged := if record.Some? then ledger.Set(index, record.value) else ledger;
            && staged.Valid() && (forall k :: k in staged.entries ==> k < index + 1)
            && staged.Values() == SlotRecords(withHighest, rawOldScene, prior, updated, next, index + 1)
  {
    if record.Some? {
      SetNewAppendsValue(ledger, index, record.value);
    }
  }

  /** The slot half of `updateScene`: indices 0..5 in order, collecting the full new slot map
      and the staged records. */
  method ReconcileSlots(withHighest: bool, rawOldScene: Scene, prior: SlotMap, updated: Scene, next: Id)
    returns (slots: SlotMap, changes: seq<ButtonChange>)
    ensures slots == ReconciledSlots(withHighest, prior, updated, next, SCENE_MAX_BUTTONS)
    ensures changes == SlotRecords(withHighest, rawOldScene, prior, updated, next, SCENE_MAX_BUTTONS)
  {
    slots := Empty();
    var updatedButtons: OrderedMap<int, ButtonChange> := Empty();
    for index := 0 to SCENE_MAX_BUTTONS
      invariant slots == ReconciledSlots(withHighest, prior, updated, next, index)
      invariant updatedButtons.Valid() && forall k :: k in updatedButtons.entries ==> k < index
      invariant updatedButtons.Values() == SlotRecords(withHighest, rawOldScene, prior, updated, next, index)
    {
      slots, updatedButtons := ReconcileIndex(withHighest, rawOldScene, prior, updated, next, index, slots, updatedButtons);
    }
    changes := updatedButtons.Values();
  }

  /** The body of the slot loop for one index: the slot joins the map when the new scene
      occupies the index, and the index's record, if any, joins the ledger. */
  method ReconcileIndex(withHighest: bool, rawOldScene: Scene, prior: SlotMap, updated: Scene, next: Id, index: nat,
                        slots: SlotMap, ledger: OrderedMap<int, ButtonChange>)
    returns (slots': SlotMap, ledger': OrderedMap<int, ButtonChange>)
    requires slots == ReconciledSlots(withHighest, prior, updated, next, index)
    requires ledger.Valid() && forall k :: k in ledger.entries ==> k < index
    requires ledger.Values() == SlotRecords(withHighest, rawOldScene, prior, updated, next, index)
    ensures slots' == ReconciledSlots(withHighest, prior, updated, next, index + 1)
    ensures ledger'.Valid() && forall k :: k in ledger'.entries ==> k < index + 1
    ensures ledger'.Values() == SlotRecords(withHighest, rawOldScene, prior, updated, next, index + 1)
  {
    var slot, record := ReconcileSlot(withHighest, rawOldScene, prior, updated, next, index);
    StageRecordStep(withHighest, rawOldScene, prior, updated, next, index, ledger, record);
    ledger' := ledger;
    if record.Some? {
      ledger' := ledger.Set(index, record.value);
    }
    slots' := slots;
    if slot.Some? {
      slots' := slots.Set(index, slot.value);
    }
  }

  /** Every slot the reconciliation builds holds the new scene's button at its index. */
  lemma ReconciledSlotsMatchButtons(withHighest: bool, prior: SlotMap, updated: Scene, next: Id)
    ensures SlotsMatch(ReconciledSlots(withHighest, prior, updated, next, SCENE_MAX_BUTTONS), updated.buttons)
  {
    var m := ReconciledSlots(withHighest, prior, updated, next, SCENE_MAX_BUTTONS);
    forall k | k in m.entries ensures 0 <= k < |updated.buttons| && m.entries[k].button == updated.buttons[k] {
      ReconciledSlotAt(withHighest, prior, updated, next, SCENE_MAX_BUTTONS, k);
    }
  }

  // ---------------------------------------------------------------------------------------
  // command groups

  /** The id `updateScene` mints for a command group it has no old id for: the reconciliation
      reserves the block next .. next+7, indices 0..5 for button slots, 6 for open, 7 for close. */
  function FreshGroupId(next: Id, kind: CommandSlot): Id {
    next + SCENE_MAX_BUTTONS + (if kind == Open then 0 else 1)
  }

  /** The id a command group carries after reconciliation: the old group's id, else a fresh one. */
  function GroupIdFor(prior: CommandMap, kind: CommandSlot, next: Id): Id {
    if kind in prior.entries then prior.entries[kind].id else FreshGroupId(next, kind)
  }

  /** The command map `updateScene` builds: a group per non-empty new list, open before close. */
  function ReconciledCommands(prior: CommandMap, updated: Scene, next: Id): (m: CommandMap)
    ensures m.Valid()
    ensures forall kind :: kind in m.entries <==> CommandsOf(updated, kind) != []
    ensures forall kind :: kind in m.entries ==>
      m.entries[kind] == SceneCommand(GroupIdFor(prior, kind, next), kind, updated.sceneId, CommandsOf(updated, kind))
    ensures m.keys == (if updated.openCommands != [] then [Open] else [])
                      + (if updated.closeCommands != [] then [Close] else [])
    ensures GroupsMatch(m, updated)
  {
    var m := Empty();
    var m := if |updated.openCommands| > 0
      then m.Set(Open, SceneCommand(GroupIdFor(prior, Open, next), Open, updated.sceneId, updated.openCommands))
      else m;
    if |updated.closeCommands| > 0
      then m.Set(Close, SceneCommand(GroupIdFor(prior, Close, next), Close, updated.sceneId, updated.closeCommands))
      else m
  }

  /** The record reconciliation leaves for one command group, if its list changed. */
  function CommandRecord(oldScene: Scene, prior: CommandMap, updated: Scene, next: Id, kind: CommandSlot): Option<CommandChange>
  {
    match ClassifyCommands(CommandsOf(oldScene, kind), CommandsOf(updated, kind))
    case None => None
    case Some(c) => Some(CommandChange(GroupIdFor(prior, kind, next), kind, c))
  }

  /** The command records of one reconciliation: the open record (if any), then the close one. */
  function CommandRecords(oldScene: Scene, prior: CommandMap, updated: Scene, next: Id): seq<CommandChange>
  {
    OptionToSeq(CommandRecord(oldScene, prior, updated, next, Open))
      + OptionToSeq(CommandRecord(oldScene, prior, updated, next, Close))
  }

  /** One kind's block of the command half of `updateScene`: the group keeps its old id or
      gets a fresh one, is rebuilt only for a non-empty new list, and a record is staged when
      the list changed ("modified", overwritten by "created" from empty or "deleted" to empty). */
  method ReconcileCommandGroup(rawOldScene: Scene, prior: CommandMap, updated: Scene, next: Id, kind: CommandSlot)
    returns (group: Option<SceneCommand>, record: Option<CommandChange>)
    ensures group.Some? <==> CommandsOf(updated, kind) != []
    ensures group.Some? ==> group.value == SceneCommand(GroupIdFor(prior, kind, next), kind, updated.sceneId, CommandsOf(updated, kind))
    ensures record == CommandRecord(rawOldScene, prior, updated, next, kind)
  {
    var newCommandsArray := CommandsOf(updated, kind);
    var oldCommandsArray := CommandsOf(rawOldScene, kind);
    var isCommandEqual := oldCommandsArray == newCommandsArray;
    var commandId := match prior.Get(kind) case Some(c) => c.id case None => FreshGroupId(next, kind);
    group := None;
    if |newCommandsArray| > 0 {
      group := Some(SceneCommand(commandId, kind, updated.sceneId, newCommandsArray));
    }
    record := None;
    if !isCommandEqual {
      record := Some(CommandChange(commandId, kind, Modified));
      if |newCommandsArray| > 0 && |oldCommandsArray| == 0 {
        record := Some(CommandChange(commandId, kind, Created));
      } else if |oldCommandsArray| > 0 && |newCommandsArray| == 0 {
        record := Some(CommandChange(commandId, kind, Deleted));
      }
    }
  }

  /** The command half of `updateScene` (the same code in both scene wrappers): the open
      block, then the close block, each adding its group and its record to the new maps. */
  method ReconcileCommandGroups(rawOldScene: Scene, prior: CommandMap, updated: Scene, next: Id)
    returns (groups: CommandMap, changes: seq<CommandChange>)
    ensures groups == ReconciledCommands(prior, updated, next)
    ensures changes == CommandRecords(rawOldScene, prior, updated, next)
  {
    groups := Empty();
    var updatedCommands: OrderedMap<CommandSlot, CommandChange> := Empty();
    var openGroup, openRecord := ReconcileCommandGroup(rawOldScene, prior, updated, next, Open);
    if openGroup.Some? {
      groups := groups.Set(Open, openGroup.value);
    }
    if openRecord.Some? {
      updatedCommands := updatedCommands.Set(Open, openRecord.value);
    }
    assert updatedCommands.Values() == OptionToSeq(openRecord);
    var closeGroup, closeRecord := ReconcileCommandGroup(rawOldScene, prior, updated, next, Close);
    if closeGroup.Some? {
      groups := groups.Set(Close, closeGroup.value);
    }
    if closeRecord.Some? {
      SetNewAppendsValue(updatedCommands, Close, closeRecord.value);
      updatedCommands := updatedCommands.Set(Close, closeRecord.value);
    }
    changes := updatedCommands.Values();
  }

  /** A command group keeps its old id, and each kind gets at most one record, classified by
      how its list changed; an unchanged list leaves no record. */
  lemma CommandRecordsClassify(oldScene: Scene, prior: CommandMap, updated: Scene, next: Id, kind: CommandSlot)
    ensures var before := CommandsOf(oldScene, kind);
            var after := CommandsOf(updated, kind);
            var recs := CommandRecords(oldScene, prior, updated, next);
            && (forall r :: r in recs && r.kind == kind ==>
                  r == CommandChange(GroupIdFor(prior, kind, next), kind, ClassifyCommands(before, after).value))
            && (before != after <==> exists r :: r in recs && r.kind == kind)
            && (kind in prior.entries ==> GroupIdFor(prior, kind, next) == prior.entries[kind].id)
  {
    var recs := CommandRecords(oldScene, prior, updated, next);
    var o := OptionToSeq(CommandRecord(oldScene, prior, updated, next, Open));
    var c := OptionToSeq(CommandRecord(oldScene, prior, updated, next, Close));
    assert recs == o + c;
    assert forall r :: r in o ==> r.kind == Open;
    assert forall r :: r in c ==> r.kind == Close;
    var mine := CommandRecord(oldScene, prior, updated, next, kind);
    if mine.Some? {
      assert mine.value in recs;
    }
  }

  /** Reconciling a scene with an identical snapshot records nothing. */
  lemma {:induction false} ReconcileUnchanged(withHighest: bool, s: Scene, prior: SlotMap, commands: CommandMap, next: Id, n: nat)
    ensures SlotRecords(withHighest, s, prior, s, next, n) == []
    ensures CommandRecords(s, commands, s, next) == []
  {
    if n > 0 {
      ReconcileUnchanged(withHighest, s, prior, commands, next, n - 1);
      assert SlotRecord(withHighest, s, prior, s, next, n - 1) == None;
    }
  }

  /** Reconciling a freshly built slot map (at most six buttons) with its own scene rebuilds
      the same map and records nothing: no id is re-minted. */
  lemma ReconcileFromSceneIsIdentity(withHighest: bool, s: Scene, next: Id, later: Id)
    requires |s.buttons| <= SCENE_MAX_BUTTONS
    ensures ReconciledSlots(withHighest, InitialSlots(withHighest, s, next, |s.buttons|), s, later, SCENE_MAX_BUTTONS)
            == InitialSlots(withHighest, s, next, |s.buttons|)
    ensures SlotRecords(withHighest, s, InitialSlots(withHighest, s, next, |s.buttons|), s, later, SCENE_MAX_BUTTONS) == []
  {
    var init := InitialSlots(withHighest, s, next, |s.buttons|);
    var rec := ReconciledSlots(withHighest, init, s, later, SCENE_MAX_BUTTONS);
    forall i | i in rec.entries ensures rec.entries[i] == init.entries[i] {
      ReconciledSlotAt(withHighest, init, s, later, SCENE_MAX_BUTTONS, i);
      InitialSlotAt(withHighest, s, next, |s.buttons|, i);
    }
    assert rec.entries == init.entries;
    ReconcileUnchanged(withHighest, s, init, Empty(), later, SCENE_MAX_BUTTONS);
  }

  /** Every node id the maps hold lies in lo .. hi-1. */
  ghost predicate IdsWithin(slots: SlotMap, groups: CommandMap, lo: Id, hi: Id) {
    && (forall k :: k in slots.entries ==> lo <= slots.entries[k].id < hi)
    && (forall kind :: kind in groups.entries ==> lo <= groups.entries[kind].id < hi)
  }

  /** Reconciliation mints ids only from its block next .. next+7: if the old ids were below
      `next`, every id of the result is below next+8, and an id at or above `next` is one the
      reconciliation minted for an index or group that had none. */
  lemma ReconciledIdsWithin(withHighest: bool, prior: SlotMap, groups: CommandMap, updated: Scene, next: Id)
    requires IdsWithin(prior, groups, 0, next)
    ensures IdsWithin(ReconciledSlots(withHighest, prior, updated, next, SCENE_MAX_BUTTONS),
                      ReconciledCommands(groups, updated, next), 0, next + SCENE_MAX_BUTTONS + 2)
    ensures forall i :: i in ReconciledSlots(withHighest, prior, updated, next, SCENE_MAX_BUTTONS).entries
              && ReconciledSlots(withHighest, prior, updated, next, SCENE_MAX_BUTTONS).entries[i].id >= next
              ==> i !in prior.entries
  {
    var m := ReconciledSlots(withHighest, prior, updated, next, SCENE_MAX_BUTTONS);
    forall i | i in m.entries
      ensures m.entries[i].id == if i in prior.entries then prior.entries[i].id else next + i
      ensures 0 <= i < SCENE_MAX_BUTTONS
    {
      ReconciledSlotAt(withHighest, prior, updated, next, SCENE_MAX_BUTTONS, i);
    }
  }

  /** The node ids of a scene wrapper are unique and all below `bound`: no two slots share an
      id, the two command groups differ, and no group shares an id with a slot. An id drawn
      at or above `bound` is then new to the scene. */
  /** The slot under key `k` and the command group of kind `kind` have different ids. */
  ghost predicate SlotGroupApart(slots: SlotMap, groups: CommandMap, k: int, kind: CommandSlot) {
    k in slots.entries && kind in groups.entries ==> slots.entries[k].id != groups.entries[kind].id
  }

  ghost predicate NodeIdsFresh(slots: SlotMap, groups: CommandMap, bound: Id) {
    && SlotIdsDistinct(slots)
    && (forall k, kind :: SlotGroupApart(slots, groups, k, kind))
    && (Open in groups.entries && Close in groups.entries ==> groups.entries[Open].id != groups.entries[Close].id)
    && IdsWithin(slots, groups, 0, bound)
  }

  /** The ids `fromScene` mints (next+i for button i, then next+|buttons| for the open group
      and next+|buttons|+1 for the close group) are unique and below next+|buttons|+2. */
  lemma InitialNodeIdsFresh(withHighest: bool, s: Scene, next: Id, groups: CommandMap)
    requires forall kind :: kind in groups.entries ==>
               groups.entries[kind].id == next + |s.buttons| + (if kind == Open then 0 else 1)
    ensures NodeIdsFresh(InitialSlots(withHighest, s, next, |s.buttons|), groups, next + |s.buttons| + 2)
  {
    InitialIdsDistinct(withHighest, s, next);
    var m := InitialSlots(withHighest, s, next, |s.buttons|);
    forall k, kind ensures SlotGroupApart(m, groups, k, kind) {
    }
  }

  /** Reconciliation keeps the node ids unique: when the old ids were unique and below
      `next`, the ids it keeps and the ids it mints from next .. next+7 are unique and below
      next+8. */
  lemma ReconciledNodeIdsFresh(withHighest: bool, prior: SlotMap, groups: CommandMap, updated: Scene, next: Id)
    requires NodeIdsFresh(prior, groups, next)
    ensures NodeIdsFresh(ReconciledSlots(withHighest, prior, updated, next, SCENE_MAX_BUTTONS),
                         ReconciledCommands(groups, updated, next), next + SCENE_MAX_BUTTONS + 2)
  {
    ReconciledIdsDistinct(withHighest, prior, updated, next);
    ReconciledIdsWithin(withHighest, prior, groups, updated, next);
    ReconciledGroupIdsApart(withHighest, prior, groups, updated, next, SCENE_MAX_BUTTONS);
  }

  /** After reconciliation over indices below n (at most six) no command group shares an
      id with a slot or with the other group: kept ids were apart before, minted ones come
      from disjoint parts of next .. next+7. */
  lemma ReconciledGroupIdsApart(withHighest: bool, prior: SlotMap, groups: CommandMap, updated: Scene, next: Id, n: nat)
    requires NodeIdsFresh(prior, groups, next) && n <= SCENE_MAX_BUTTONS
    ensures var m := ReconciledSlots(withHighest, prior, updated, next, n);
            var g := ReconciledCommands(groups, updated, next);
            && (forall i, kind :: SlotGroupApart(m, g, i, kind))
            && (Open in g.entries && Close in g.entries ==> g.entries[Open].id != g.entries[Close].id)
  {
    var m := ReconciledSlots(withHighest, prior, updated, next, n);
    var g := ReconciledCommands(groups, updated, next);
    forall i, kind ensures SlotGroupApart(m, g, i, kind) {
      if i in m.entries && kind in g.entries {
        ReconciledSlotAt(withHighest, prior, updated, next, n, i);
        assert g.entries[kind].id == GroupIdFor(groups, kind, next);
        assert SlotGroupApart(prior, groups, i, kind);
      }
    }
    assert Open in g.entries && Close in g.entries ==> g.entries[Open].id != g.entries[Close].id by {
      if Open in g.entries && Close in g.entries {
        assert g.entries[Open].id == GroupIdFor(groups, Open, next);
        assert g.entries[Close].id == GroupIdFor(groups, Close, next);
      }
    }
  }

  /** Putting a slot with the id of the slot it replaces keeps the node ids unique. */
  lemma ReplaceSlotKeepsIdsFresh(slots: SlotMap, groups: CommandMap, bound: Id, k: int, slot: Slot)
    requires slots.Valid() && NodeIdsFresh(slots, groups, bound)
    requires k in slots.entries && slot.id == slots.entries[k].id
    ensures NodeIdsFresh(slots.Set(k, slot), groups, bound)
  {
    var m := slots.Set(k, slot);
    forall a, b ensures SlotsApart(m, a, b) {
      assert SlotsApart(slots, a, b);
    }
    forall a, kind ensures SlotGroupApart(m, groups, a, kind) {
      assert SlotGroupApart(slots, groups, a, kind);
    }
  }

  /** Adding a slot under a new key with an id at or above the bound keeps the node ids
      unique, below the id after it. */
  lemma AddSlotKeepsIdsFresh(slots: SlotMap, groups: CommandMap, bound: Id, k: int, slot: Slot)
    requires slots.Valid() && NodeIdsFresh(slots, groups, bound)
    requires k !in slots.entries && slot.id >= bound
    ensures NodeIdsFresh(slots.Set(k, slot), groups, slot.id + 1)
  {
    var m := slots.Set(k, slot);
    forall a, b ensures SlotsApart(m, a, b) {
      assert SlotsApart(slots, a, b);
    }
    forall a, kind ensures SlotGroupApart(m, groups, a, kind) {
      assert SlotGroupApart(slots, groups, a, kind);
    }
  }

  /** Setting a command group keeps the node ids unique when it keeps the id of the group
      it replaces, or when the kind is new and its id is at or above the bound (which then
      moves past it). */
  lemma SetGroupKeepsIdsFresh(slots: SlotMap, groups: CommandMap, bound: Id, kind: CommandSlot, command: SceneCommand)
    requires groups.Valid() && NodeIdsFresh(slots, groups, bound)
    requires kind in groups.entries ==> command.id == groups.entries[kind].id
    requires kind !in groups.entries ==> command.id >= bound
    ensures NodeIdsFresh(slots, groups.Set(kind, command), if kind in groups.entries then bound else command.id + 1)
  {
    var g := groups.Set(kind, command);
    forall k, other ensures SlotGroupApart(slots, g, k, other) {
      assert SlotGroupApart(slots, groups, k, other);
    }
  }

  /** Removing a command group keeps the node ids unique and below the same bound. */
  lemma DeleteGroupKeepsIdsFresh(slots: SlotMap, groups: CommandMap, bound: Id, kind: CommandSlot)
    requires groups.Valid() && NodeIdsFresh(slots, groups, bound)
    ensures NodeIdsFresh(slots, groups.Delete(kind), bound)
  {
    var g := groups.Delete(kind);
    forall k, other ensures SlotGroupApart(slots, g, k, other) {
      assert SlotGroupApart(slots, groups, k, other);
    }
  }

  /** Where the slot under key `k` came from when the slots under keys `i` and `j` are
      exchanged: the other of the two keys, or `k` itself. */
  lemma SwappedOrigin(slots: SlotMap, i: int, j: int, atI: Slot, atJ: Slot, k: int) returns (origin: int)
    requires slots.Valid() && i in slots.entries && j in slots.entries && i != j
    requires atI.id == slots.entries[j].id && atJ.id == slots.entries[i].id
    requires k in slots.Set(i, atI).Set(j, atJ).entries
    ensures origin == if k == i then j else if k == j then i else k
    ensures origin in slots.entries && slots.Set(i, atI).Set(j, atJ).entries[k].id == slots.entries[origin].id
  {
    origin := if k == i then j else if k == j then i else k;
  }

  /** Exchanging the slots under two keys, each keeping its id, keeps the node ids unique. */
  lemma SwapSlotsKeepsIdsFresh(slots: SlotMap, groups: CommandMap, bound: Id, i: int, j: int, atI: Slot, atJ: Slot)
    requires slots.Valid() && NodeIdsFresh(slots, groups, bound)
    requires i in slots.entries && j in slots.entries && i != j
    requires atI.id == slots.entries[j].id && atJ.id == slots.entries[i].id
    ensures NodeIdsFresh(slots.Set(i, atI).Set(j, atJ), groups, bound)
  {
    var swapped := slots.Set(i, atI).Set(j, atJ);
    forall a, b ensures SlotsApart(swapped, a, b) {
      if a in swapped.entries && b in swapped.entries && a != b {
        var oa := SwappedOrigin(slots, i, j, atI, atJ, a);
        var ob := SwappedOrigin(slots, i, j, atI, atJ, b);
        assert SlotsApart(slots, oa, ob);
      }
    }
    forall k, kind ensures SlotGroupApart(swapped, groups, k, kind) {
      if k in swapped.entries && kind in groups.entries {
        var o := SwappedOrigin(slots, i, j, atI, atJ, k);
        assert SlotGroupApart(slots, groups, o, kind);
      }
    }
    forall k | k in swapped.entries
      ensures 0 <= swapped.entries[k].id < bound
    {
      var o := SwappedOrigin(slots, i, j, atI, atJ, k);
    }
  }
}
