/** The identity-stable wrapper around one scene (`LogicalScene`): it gives every occupied
    button slot and every command group a node id, keeps those ids across reconciliations with
    newer snapshots of the scene, records what each reconciliation changed, and supports editing
    the slots in place (delete with down-shift, add, swap, update) and the command groups. */
module LogicalScenes {
  import opened Wrappers
  import opened OrderedMaps
  import opened SceneModel
  import opened SceneNodes

  /** What `getVisualScene` reports: the scene's texts and its child node ids. */
  datatype SceneView = SceneView(
    sceneId: string,
    sceneText: string,
    npcName: string,
    openCommandNode: Option<Id>,
    closeCommandNode: Option<Id>,
    buttonNodes: seq<Id>)

  /** What `addSlot` returns: the new slot and, when there was one, the demotion record of the
      slot that was highest before. */
  datatype AddedSlot = AddedSlot(newSlot: Slot, highestIndexChange: Option<ButtonChange>)

  // ---------------------------------------------------------------------------------------
  // fromScene

  /** The command map `fromScene` builds: a group with a fresh id for each non-empty list,
      open (id `firstId`) inserted before close (id `firstId`+1). */
  function InitialCommands(s: Scene, firstId: Id): (m: CommandMap)
    ensures m.Valid()
    ensures forall kind :: kind in m.entries <==> CommandsOf(s, kind) != []
    ensures forall kind :: kind in m.entries ==>
      m.entries[kind] == SceneCommand(firstId + (if kind == Open then 0 else 1), kind, s.sceneId, CommandsOf(s, kind))
    ensures GroupsMatch(m, s)
    ensures m.keys == (if s.openCommands != [] then [Open] else []) + (if s.closeCommands != [] then [Close] else [])
  {
    var m := Empty();
    var m := if |s.openCommands| > 0 then m.Set(Open, SceneCommand(firstId, Open, s.sceneId, s.openCommands)) else m;
    if |s.closeCommands| > 0 then m.Set(Close, SceneCommand(firstId + 1, Close, s.sceneId, s.closeCommands)) else m
  }

  /** Reconciling a freshly built logical scene with its own scene rebuilds the same command
      map and records no command change. */
  lemma ReconcileFromSceneKeepsGroups(s: Scene, next: Id, later: Id)
    ensures ReconciledCommands(InitialCommands(s, next + |s.buttons|), s, later)
            == InitialCommands(s, next + |s.buttons|)
    ensures CommandRecords(s, InitialCommands(s, next + |s.buttons|), s, later) == []
  {
    var ic := InitialCommands(s, next + |s.buttons|);
    var rc := ReconciledCommands(ic, s, later);
    assert rc.entries == ic.entries;
    ReconcileUnchanged(true, s, Empty(), ic, later, 0);
  }

  /** `fromScene` takes all its ids from the block next .. next+|buttons|+1, and they are
      pairwise distinct. */
  lemma InitialIdsFresh(s: Scene, next: Id)
    ensures IdsWithin(InitialSlots(true, s, next, |s.buttons|), InitialCommands(s, next + |s.buttons|),
                      next, next + |s.buttons| + 2)
    ensures SlotIdsDistinct(InitialSlots(true, s, next, |s.buttons|))
    ensures NodeIdsFresh(InitialSlots(true, s, next, |s.buttons|), InitialCommands(s, next + |s.buttons|),
                         next + |s.buttons| + 2)
  {
    InitialIdsDistinct(true, s, next);
    InitialCommandIds(s, next + |s.buttons|);
    InitialNodeIdsFresh(true, s, next, InitialCommands(s, next + |s.buttons|));
  }

  /** Every slot `fromScene` builds holds the button at its own index. */
  lemma InitialSlotsMatch(s: Scene, next: Id)
    ensures SlotsMatch(InitialSlots(true, s, next, |s.buttons|), s.buttons)
  {
    var m := InitialSlots(true, s, next, |s.buttons|);
    forall k | k in m.entries ensures 0 <= k < |s.buttons| && m.entries[k].button == s.buttons[k] {
      InitialSlotAt(true, s, next, |s.buttons|, k);
    }
  }

  /** The group ids `fromScene` mints are `firstId` and `firstId`+1. */
  lemma InitialCommandIds(s: Scene, firstId: Id)
    ensures forall kind :: kind in InitialCommands(s, firstId).entries ==>
              firstId <= InitialCommands(s, firstId).entries[kind].id < firstId + 2
  {
  }

  // ---------------------------------------------------------------------------------------
  // deleteSlot

  /** Where a surviving slot goes when slot `removed` is deleted: one down if it was above. */
  function ShiftedKey(key: int, removed: int): int {
    if key > removed then key - 1 else key
  }

  /** The record `deleteSlot` emits for a surviving slot: "modified" at its new index for every
      slot that moves down, and for a slot that stays but is now the last index. */
  function ShiftRecord(key: int, slot: Slot, removed: int, last: int): Option<ButtonChange> {
    if key > removed then Some(ButtonChange(slot.id, key - 1, Modified, Some(key - 1 == last)))
    else if key == last then Some(ButtonChange(slot.id, key, Modified, Some(true)))
    else None
  }

  /** The surviving keys of a slot map after removing `removed`: distinct, present, not removed. */
  ghost predicate Survivors(m: SlotMap, keys: seq<int>, removed: int) {
    && (forall j :: 0 <= j < |keys| ==> keys[j] in m.entries && keys[j] != removed)
    && (forall j1, j2 :: 0 <= j1 < j2 < |keys| ==> keys[j1] != keys[j2])
  }

  lemma SurvivorsPrefix(m: SlotMap, keys: seq<int>, removed: int, i: nat)
    requires Survivors(m, keys, removed) && i <= |keys|
    ensures Survivors(m, keys[..i], removed)
  {
  }

  /** The map `deleteSlot` rebuilds by visiting the surviving keys in order, moving each slot
      value (unchanged) to its shifted key; the survivors keep their relative order. */
  function ShiftedSlots(m: SlotMap, keys: seq<int>, removed: int): (r: SlotMap)
    requires Survivors(m, keys, removed)
    ensures r.Valid()
    ensures |r.keys| == |keys|
    ensures forall j :: 0 <= j < |keys| ==> r.keys[j] == ShiftedKey(keys[j], removed)
  {
    if keys == [] then Empty()
    else
      var key := keys[|keys| - 1];
      var r := ShiftedSlots(m, keys[..|keys| - 1], removed);
      assert ShiftedKey(key, removed) !in r.keys by {
        forall j | 0 <= j < |r.keys| ensures r.keys[j] != ShiftedKey(key, removed) {
          assert keys[j] != key;
        }
      }
      r.Set(ShiftedKey(key, removed), m.entries[key])
  }

  /** Deleting a slot keeps every surviving slot value (and so its id and button) and moves
      the ones above the removed index one place down. */
  lemma {:induction false} ShiftedSlotsAt(m: SlotMap, keys: seq<int>, removed: int)
    requires Survivors(m, keys, removed)
    ensures forall j :: 0 <= j < |keys| ==>
      ShiftedSlots(m, keys, removed).entries[ShiftedKey(keys[j], removed)] == m.entries[keys[j]]
  {
    if keys != [] {
      var init := keys[..|keys| - 1];
      var key := keys[|keys| - 1];
      ShiftedSlotsAt(m, init, removed);
      var r := ShiftedSlots(m, init, removed);
      var r' := ShiftedSlots(m, keys, removed);
      assert r'.entries == r.entries[ShiftedKey(key, removed) := m.entries[key]];
      forall j | 0 <= j < |keys|
        ensures r'.entries[ShiftedKey(keys[j], removed)] == m.entries[keys[j]]
      {
        if j < |init| {
          assert r.keys[j] == ShiftedKey(init[j], removed);
          assert ShiftedKey(keys[j], removed) != ShiftedKey(key, removed) by {
            assert keys[j] != key;
          }
        }
      }
    }
  }

  /** `s` with position `removed` spliced out (`Array.prototype.splice(removed, 1)`). */
  function Spliced<T>(s: seq<T>, removed: int): (r: seq<T>)
    requires 0 <= removed < |s|
    ensures |r| == |s| - 1
    ensures forall k :: 0 <= k < |s| && k != removed ==> r[ShiftedKey(k, removed)] == s[k]
  {
    s[..removed] + s[removed + 1..]
  }

  /** The slot map `deleteSlot` leaves: the slot removed, the survivors shifted. */
  function SlotsAfterDeletion(m: SlotMap, removed: int): (r: SlotMap)
    requires m.Valid() && removed in m.entries
    ensures r.Valid()
  {
    var rest := m.Delete(removed);
    assert Survivors(rest, rest.keys, removed);
    ShiftedSlots(rest, rest.keys, removed)
  }

  /** Removing slot `removed` and shifting the survivors keeps every slot paired with the
      button at its position of the array with that button spliced out. */
  lemma ShiftedSlotsMatchButtons(m: SlotMap, buttons: seq<Button>, removed: int)
    requires m.Valid() && removed in m.entries
    requires SlotsMatch(m, buttons)
    ensures 0 <= removed < |buttons|
    ensures SlotsMatch(SlotsAfterDeletion(m, removed), Spliced(buttons, removed))
  {
    var rest := m.Delete(removed);
    var shifted := SlotsAfterDeletion(m, removed);
    ShiftedSlotsAt(rest, rest.keys, removed);
    forall k | k in shifted.entries
      ensures 0 <= k < |buttons| - 1 && shifted.entries[k].button == Spliced(buttons, removed)[k]
    {
      var j :| 0 <= j < |shifted.keys| && shifted.keys[j] == k;
      var key := rest.keys[j];
      assert k == ShiftedKey(key, removed);
      assert shifted.entries[k] == rest.entries[key];
    }
  }

  /** The records `deleteSlot` emits for the surviving keys, in visiting order. */
  function ShiftRecords(m: SlotMap, keys: seq<int>, removed: int, last: int): seq<ButtonChange>
    requires forall j :: 0 <= j < |keys| ==> keys[j] in m.entries
  {
    if keys == [] then []
    else
      var key := keys[|keys| - 1];
      ShiftRecords(m, keys[..|keys| - 1], removed, last) + OptionToSeq(ShiftRecord(key, m.entries[key], removed, last))
  }

  /** Deleting a slot leaves the remaining slot values (ids, buttons and stored fields
      untouched) in their old order: `getSlots` afterwards is `getSlots` before without the
      removed slot. */
  lemma ShiftedSlotsValues(m: SlotMap, removed: int)
    requires m.Valid() && removed in m.entries
    ensures SlotsAfterDeletion(m, removed).Values() == m.Delete(removed).Values()
  {
    var rest := m.Delete(removed);
    ShiftedSlotsAt(rest, rest.keys, removed);
  }

  /** Everything `deleteSlot` reports: the "deleted" record of the removed slot (with no
      highest-index flag), then the survivors' records; `last` is the new last index. */
  function DeletionRecords(m: SlotMap, removed: int, last: int): seq<ButtonChange>
    requires m.Valid() && removed in m.entries
  {
    var rest := m.Delete(removed);
    [ButtonChange(m.entries[removed].id, removed, Deleted, None)] + ShiftRecords(rest, rest.keys, removed, last)
  }

  /** The whole of `deleteSlot` on values: slot map, raw buttons and returned records after
      deleting slot `removed`; an empty index changes nothing and reports nothing. */
  function SlotDeletion(m: SlotMap, buttons: seq<Button>, removed: int): (r: (SlotMap, seq<Button>, seq<ButtonChange>))
    requires m.Valid() && SlotsMatch(m, buttons)
    ensures r.0.Valid() && SlotsMatch(r.0, r.1)
  {
    if removed !in m.entries then (m, buttons, [])
    else
      ShiftedSlotsMatchButtons(m, buttons, removed);
      (SlotsAfterDeletion(m, removed), Spliced(buttons, removed), DeletionRecords(m, removed, |buttons| - 2))
  }

  /** A deletion, or a call on an empty index, keeps the node ids unique and below the same
      bound. */
  lemma SlotDeletionKeepsIdsFresh(m: SlotMap, buttons: seq<Button>, removed: int, groups: CommandMap, bound: Id)
    requires m.Valid() && SlotsMatch(m, buttons) && NodeIdsFresh(m, groups, bound)
    ensures NodeIdsFresh(SlotDeletion(m, buttons, removed).0, groups, bound)
  {
    if removed in m.entries {
      DeletionKeepsIdsFresh(m, removed, groups, bound);
    }
  }

  /** Every slot left after deleting slot `removed` is an old slot, now under the old key
      shifted down. */
  lemma ShiftedSlotOrigin(m: SlotMap, removed: int, k: int) returns (key: int)
    requires m.Valid() && removed in m.entries && k in SlotsAfterDeletion(m, removed).entries
    ensures key in m.entries && key != removed && k == ShiftedKey(key, removed)
    ensures SlotsAfterDeletion(m, removed).entries[k] == m.entries[key]
  {
    var rest := m.Delete(removed);
    var shifted := SlotsAfterDeletion(m, removed);
    ShiftedSlotsAt(rest, rest.keys, removed);
    var j :| 0 <= j < |shifted.keys| && shifted.keys[j] == k;
    key := rest.keys[j];
  }

  /** Deleting a slot keeps the node ids unique and below the same bound: every surviving
      slot keeps its id, under a key of its own. */
  lemma DeletionKeepsIdsFresh(m: SlotMap, removed: int, groups: CommandMap, bound: Id)
    requires m.Valid() && removed in m.entries && NodeIdsFresh(m, groups, bound)
    ensures NodeIdsFresh(SlotsAfterDeletion(m, removed), groups, bound)
  {
    var shifted := SlotsAfterDeletion(m, removed);
    forall a, b ensures SlotsApart(shifted, a, b) {
      if a in shifted.entries && b in shifted.entries && a != b {
        var ka := ShiftedSlotOrigin(m, removed, a);
        var kb := ShiftedSlotOrigin(m, removed, b);
        assert SlotsApart(m, ka, kb);
      }
    }
    forall k, kind ensures SlotGroupApart(shifted, groups, k, kind) {
      if k in shifted.entries && kind in groups.entries {
        var key := ShiftedSlotOrigin(m, removed, k);
        assert SlotGroupApart(m, groups, key, kind);
      }
    }
    forall k | k in shifted.entries
      ensures exists key :: key in m.entries && shifted.entries[k] == m.entries[key]
    {
      var key := ShiftedSlotOrigin(m, removed, k);
    }
  }

  /** `deleteSlot`'s steps on values: look the slot up, build its "deleted" record, delete it
      from the map and splice its button out, then shift the remaining slots. */
  method DeleteSlotIn(m: SlotMap, buttons: seq<Button>, slotIndex: int)
    returns (updatedMap: SlotMap, updatedButtons: seq<Button>, changes: seq<ButtonChange>)
    requires m.Valid() && SlotsMatch(m, buttons)
    ensures (updatedMap, updatedButtons, changes) == SlotDeletion(m, buttons, slotIndex)
  {
    var slotToDelete := m.Get(slotIndex);
    if slotToDelete.None? {
      return m, buttons, [];
    }
    var deletedSlotData := ButtonChange(slotToDelete.value.id, slotIndex, Deleted, None);
    ShiftedSlotsMatchButtons(m, buttons, slotIndex);
    var remaining := m.Delete(slotIndex);
    updatedButtons := Spliced(buttons, slotIndex);
    var lastButtonIndex := |updatedButtons| - 1;
    var shiftChanges;
    updatedMap, shiftChanges := ShiftSlots(remaining, slotIndex, lastButtonIndex);
    changes := [deletedSlotData] + shiftChanges;
  }

  /** `deleteSlot`'s records for the survivors: every slot above the removed index gets a
      "modified" record at index-1 with its own id; every record is "modified" and flags
      highest exactly the new last index; a slot below the removed index that is now the last
      one (the removed slot was the top one) gets a highest-index record. */
  lemma {:induction false} ShiftRecordsShape(m: SlotMap, keys: seq<int>, removed: int, last: int)
    requires Survivors(m, keys, removed)
    ensures forall j :: 0 <= j < |keys| && keys[j] > removed ==>
      ButtonChange(m.entries[keys[j]].id, keys[j] - 1, Modified, Some(keys[j] - 1 == last)) in ShiftRecords(m, keys, removed, last)
    ensures forall j :: 0 <= j < |keys| && keys[j] < removed && keys[j] == last ==>
      ButtonChange(m.entries[keys[j]].id, last, Modified, Some(true)) in ShiftRecords(m, keys, removed, last)
    ensures forall r :: r in ShiftRecords(m, keys, removed, last) ==>
      r.change == Modified && r.highestIndex == Some(r.index == last)
    ensures |ShiftRecords(m, keys, removed, last)| <= |keys|
  {
    if keys != [] {
      var init := keys[..|keys| - 1];
      ShiftRecordsShape(m, init, removed, last);
      var key := keys[|keys| - 1];
      var recs := ShiftRecords(m, keys, removed, last);
      assert recs == ShiftRecords(m, init, removed, last) + OptionToSeq(ShiftRecord(key, m.entries[key], removed, last));
      forall j | 0 <= j < |keys| && keys[j] > removed
        ensures ButtonChange(m.entries[keys[j]].id, keys[j] - 1, Modified, Some(keys[j] - 1 == last)) in recs
      {
        if j < |keys| - 1 { assert keys[j] == init[j]; }
      }
      forall j | 0 <= j < |keys| && keys[j] < removed && keys[j] == last
        ensures ButtonChange(m.entries[keys[j]].id, last, Modified, Some(true)) in recs
      {
        if j < |keys| - 1 { assert keys[j] == init[j]; }
      }
    }
  }

  /** Visiting the next surviving key extends the rebuilt map and the records as
      `ShiftedSlots` and `ShiftRecords` prescribe. */
  lemma ShiftStep(m: SlotMap, keys: seq<int>, removed: int, last: int, i: nat)
    requires Survivors(m, keys, removed) && i < |keys|
    ensures Survivors(m, keys[..i], removed) && Survivors(m, keys[..i + 1], removed)
    ensures ShiftedSlots(m, keys[..i + 1], removed)
            == ShiftedSlots(m, keys[..i], removed).Set(ShiftedKey(keys[i], removed), m.entries[keys[i]])
    ensures ShiftRecords(m, keys[..i + 1], removed, last)
            == ShiftRecords(m, keys[..i], removed, last) + OptionToSeq(ShiftRecord(keys[i], m.entries[keys[i]], removed, last))
  {
    SurvivorsPrefix(m, keys, removed, i);
    SurvivorsPrefix(m, keys, removed, i + 1);
    assert keys[..i + 1][..i] == keys[..i];
  }

  /** One iteration of `deleteSlot`'s loop: a slot above the removed index moves one down and
      is reported "modified" with its new highest-index flag; a slot below it stays and is
      reported only when it is now at the last index. */
  method ShiftSlot(key: int, value: Slot, removed: int, last: int) returns (newSlotIndex: int, record: Option<ButtonChange>)
    ensures newSlotIndex == ShiftedKey(key, removed)
    ensures record == ShiftRecord(key, value, removed, last)
  {
    record := None;
    if key > removed {
      newSlotIndex := key - 1;
      var isLastIndex := newSlotIndex == last;
      record := Some(ButtonChange(value.id, newSlotIndex, Modified, Some(isLastIndex)));
    } else {
      newSlotIndex := key;
      var isLastIndex := newSlotIndex == last;
      if isLastIndex {
        record := Some(ButtonChange(value.id, newSlotIndex, Modified, Some(isLastIndex)));
      }
    }
  }

  /** The loop of `deleteSlot` over the remaining slots (slot `removed` already gone): each
      slot moves to its shifted index, and a record is emitted for every slot that moves and
      for the slot left at the new last index. */
  method ShiftSlots(m: SlotMap, removed: int, last: int) returns (shifted: SlotMap, changes: seq<ButtonChange>)
    requires m.Valid() && removed !in m.entries
    ensures Survivors(m, m.keys, removed)
    ensures shifted == ShiftedSlots(m, m.keys, removed)
    ensures changes == ShiftRecords(m, m.keys, removed, last)
  {
    shifted := Empty();
    changes := [];
    var keys := m.keys;
    assert keys[..0] == [];
    for i := 0 to |keys|
      invariant Survivors(m, keys[..i], removed)
      invariant shifted == ShiftedSlots(m, keys[..i], removed)
      invariant changes == ShiftRecords(m, keys[..i], removed, last)
    {
      var key := keys[i];
      var value := m.entries[key];
      ShiftStep(m, keys, removed, last, i);
      var newSlotIndex, record := ShiftSlot(key, value, removed, last);
      if record.Some? {
        changes := changes + [record.value];
      }
      shifted := shifted.Set(newSlotIndex, value);
    }
    assert keys[..|keys|] == keys;
  }

  /** The slot-map half of `addSlot`: the new slot set at its index, then the slot at the
      index below, if any, flagged not highest, with its "modified" record. Every other slot
      stays, and a new key goes last in map order. */
  function PlacedHighest(slots: SlotMap, newSlot: Slot): (r: (SlotMap, Option<ButtonChange>))
    requires slots.Valid()
    ensures r.0.Valid()
    ensures r.0.entries.Keys == slots.entries.Keys + {newSlot.index}
    ensures r.0.keys == if newSlot.index in slots.entries then slots.keys else slots.keys + [newSlot.index]
    ensures r.0.entries[newSlot.index] == newSlot
    ensures forall k :: k in slots.entries && k != newSlot.index && k != newSlot.index - 1 ==> r.0.entries[k] == slots.entries[k]
    ensures r.1.Some? <==> newSlot.index - 1 in slots.entries
    ensures r.1.Some? ==>
      var previous := slots.entries[newSlot.index - 1];
      && r.0.entries[newSlot.index - 1] == previous.(highestIndex := Some(false))
      && r.1.value == ButtonChange(previous.id, previous.index, Modified, Some(false))
  {
    var added := slots.Set(newSlot.index, newSlot);
    if newSlot.index - 1 in slots.entries then
      var previous := slots.entries[newSlot.index - 1];
      (added.Set(newSlot.index - 1, previous.(highestIndex := Some(false))),
       Some(ButtonChange(previous.id, previous.index, Modified, Some(false))))
    else (added, None)
  }

  class LogicalScene {
    /** Slot index to slot, in insertion order. */
    var buttonMap: SlotMap
    var commandMap: CommandMap
    /** The change ledger: what the `updateScene` that built this object changed. */
    var lastButtonChanges: seq<ButtonChange>
    var lastCommandChanges: seq<CommandChange>
    /** The raw scene the object owns. */
    var scene: Scene
    const sceneId: string
    /** The id supply's mark for this object: every node id of the scene is below it, and the
        uuids the object mints for new nodes are drawn at or above it. */
    var idBound: Id

    /** Every slot key is a position of the raw button array and its slot holds the button
        stored there; every command group sits under its own kind and holds the raw list;
        the node ids are unique and below `idBound`. */
    ghost predicate Valid()
      reads this`buttonMap, this`commandMap, this`scene, this`idBound
    {
      && buttonMap.Valid() && commandMap.Valid()
      && scene.sceneId == sceneId
      && SlotsMatch(buttonMap, scene.buttons)
      && GroupsMatch(commandMap, scene)
      && NodeIdsFresh(buttonMap, commandMap, idBound)
    }

    /** The private constructor: wraps an already built scene, slot map and command map. */
    constructor (s: Scene, commands: CommandMap, buttons: SlotMap, bound: Id)
      requires buttons.Valid() && commands.Valid()
      requires SlotsMatch(buttons, s.buttons) && GroupsMatch(commands, s)
      requires NodeIdsFresh(buttons, commands, bound)
      ensures Valid()
      ensures scene == s && sceneId == s.sceneId && buttonMap == buttons && commandMap == commands
      ensures lastButtonChanges == [] && lastCommandChanges == [] && idBound == bound
    {
      buttonMap := buttons;
      commandMap := commands;
      scene := s;
      sceneId := s.sceneId;
      lastButtonChanges := [];
      lastCommandChanges := [];
      idBound := bound;
    }

    /** `LogicalScene.fromScene`: ids next .. next+|buttons|-1 for the buttons, then
        next+|buttons| and next+|buttons|+1 for the open and close groups. */
    static method FromScene(s: Scene, next: Id) returns (r: LogicalScene)
      ensures fresh(r) && r.Valid()
      ensures r.scene == s && r.sceneId == s.sceneId
      ensures r.buttonMap == InitialSlots(true, s, next, |s.buttons|)
      ensures r.commandMap == InitialCommands(s, next + |s.buttons|)
      ensures r.lastButtonChanges == [] && r.lastCommandChanges == []
      ensures r.idBound == next + |s.buttons| + 2
    {
      var buttonMap: SlotMap := Empty();
      var lastButtonIndex := |s.buttons| - 1;
      for index := 0 to |s.buttons|
        invariant buttonMap == InitialSlots(true, s, next, index)
      {
        var isLastIndex := lastButtonIndex == index;
        var buttonSlot := Slot(next + index, s.sceneId, index, s.buttons[index], Some(isLastIndex));
        buttonMap := buttonMap.Set(index, buttonSlot);
      }
      var commandMap: CommandMap := Empty();
      if |s.openCommands| > 0 {
        commandMap := commandMap.Set(Open, SceneCommand(next + |s.buttons|, Open, s.sceneId, s.openCommands));
      }
      if |s.closeCommands| > 0 {
        commandMap := commandMap.Set(Close, SceneCommand(next + |s.buttons| + 1, Close, s.sceneId, s.closeCommands));
      }
      InitialSlotsMatch(s, next);
      InitialIdsFresh(s, next);
      r := new LogicalScene(s, commandMap, buttonMap, next + |s.buttons| + 2);
    }

    /** `LogicalScene.updateScene`: fails when the scene ids differ; otherwise builds a new
        object whose slots, groups and ledger are the reconciliation of `oldScene` with
        `updated`, drawing fresh ids from the block next .. next+7, which lies at or above
        the old object's id bound. */
    static method UpdateScene(oldScene: LogicalScene, updated: Scene, next: Id) returns (r: Result<LogicalScene, SceneError>)
      requires oldScene.Valid() && oldScene.idBound <= next
      ensures oldScene.scene.sceneId != updated.sceneId ==> r == Failure(IdentityMismatch)
      ensures oldScene.scene.sceneId == updated.sceneId ==>
        && r.Success? && fresh(r.value) && r.value.Valid()
        && r.value.scene == updated
        && r.value.buttonMap == ReconciledSlots(true, oldScene.buttonMap, updated, next, SCENE_MAX_BUTTONS)
        && r.value.commandMap == ReconciledCommands(oldScene.commandMap, updated, next)
        && r.value.lastButtonChanges == SlotRecords(true, oldScene.scene, oldScene.buttonMap, updated, next, SCENE_MAX_BUTTONS)
        && r.value.lastCommandChanges == CommandRecords(oldScene.scene, oldScene.commandMap, updated, next)
        && r.value.idBound == next + SCENE_MAX_BUTTONS + 2
    {
      var rawOldScene := oldScene.scene;
      if rawOldScene.sceneId != updated.sceneId {
        return Failure(IdentityMismatch);
      }
      var updatedButtonMap, updatedButtons := ReconcileSlots(true, rawOldScene, oldScene.buttonMap, updated, next);
      var updatedCommandMap, updatedCommands := ReconcileCommandGroups(rawOldScene, oldScene.commandMap, updated, next);
      ReconciledSlotsMatchButtons(true, oldScene.buttonMap, updated, next);
      ReconciledNodeIdsFresh(true, oldScene.buttonMap, oldScene.commandMap, updated, next);
      var scene := WithLedger(updated, updatedCommandMap, updatedButtonMap, updatedButtons, updatedCommands,
                              next + SCENE_MAX_BUTTONS + 2);
      r := Success(scene);
    }

    /** The end of `updateScene`: a new object over the reconciled maps whose ledger holds
        the records of the reconciliation. */
    static method WithLedger(s: Scene, commands: CommandMap, buttons: SlotMap,
                             buttonChanges: seq<ButtonChange>, commandChanges: seq<CommandChange>, bound: Id)
      returns (r: LogicalScene)
      requires buttons.Valid() && commands.Valid()
      requires SlotsMatch(buttons, s.buttons) && GroupsMatch(commands, s)
      requires NodeIdsFresh(buttons, commands, bound)
      ensures fresh(r) && r.Valid()
      ensures r.scene == s && r.sceneId == s.sceneId && r.buttonMap == buttons && r.commandMap == commands
      ensures r.lastButtonChanges == buttonChanges && r.lastCommandChanges == commandChanges
      ensures r.idBound == bound
    {
      r := new LogicalScene(s, commands, buttons, bound);
      r.lastButtonChanges := buttonChanges;
      r.lastCommandChanges := commandChanges;
    }

    /** `getLastDataChanges(clearAfter)`: the ledger's slot records, then its command records;
        with `clearAfter` the ledger is emptied, so a following call returns []. */
    method GetLastDataChanges(clearAfter: bool) returns (changes: seq<DataChange>)
      modifies this
      ensures changes == AsDataChanges(old(lastButtonChanges), old(lastCommandChanges))
      ensures clearAfter ==> lastButtonChanges == [] && lastCommandChanges == []
      ensures !clearAfter ==> lastButtonChanges == old(lastButtonChanges) && lastCommandChanges == old(lastCommandChanges)
      ensures buttonMap == old(buttonMap) && commandMap == old(commandMap) && scene == old(scene)
      ensures idBound == old(idBound)
    {
      var slots := lastButtonChanges;
      if clearAfter {
        lastButtonChanges := [];
      }
      var commands := lastCommandChanges;
      if clearAfter {
        lastCommandChanges := [];
      }
      changes := AsDataChanges(slots, commands);
    }

    /** The `sceneText` setter. */
    method SetSceneText(sceneText: string)
      requires Valid()
      modifies this
      ensures Valid()
      ensures scene == old(scene).(sceneText := sceneText)
      ensures buttonMap == old(buttonMap) && commandMap == old(commandMap)
      ensures lastButtonChanges == old(lastButtonChanges) && lastCommandChanges == old(lastCommandChanges)
      ensures idBound == old(idBound)
    {
      GroupsMatchKeepsCommands(commandMap, scene, scene.(sceneText := sceneText));
      scene := scene.(sceneText := sceneText);
    }

    /** The `npcName` setter. */
    method SetNpcName(npcName: string)
      requires Valid()
      modifies this
      ensures Valid()
      ensures scene == old(scene).(npcName := npcName)
      ensures buttonMap == old(buttonMap) && commandMap == old(commandMap)
      ensures lastButtonChanges == old(lastButtonChanges) && lastCommandChanges == old(lastCommandChanges)
      ensures idBound == old(idBound)
    {
      GroupsMatchKeepsCommands(commandMap, scene, scene.(npcName := npcName));
      scene := scene.(npcName := npcName);
    }

    /** `deleteSlot`: on an empty index returns [] and changes nothing; otherwise removes the
        slot and its button, moves every higher slot one index down keeping its id (the stored
        slot values, including their `index` and `highestIndex` fields, are not rewritten),
        and returns the "deleted" record followed by the survivors' records in map order. */
    method DeleteSlot(slotIndex: int) returns (changes: seq<ButtonChange>)
      requires Valid()
      modifies this
      ensures Valid()
      ensures (buttonMap, scene.buttons, changes) == SlotDeletion(old(buttonMap), old(scene.buttons), slotIndex)
      ensures scene == old(scene).(buttons := scene.buttons)
      ensures commandMap == old(commandMap)
      ensures lastButtonChanges == old(lastButtonChanges) && lastCommandChanges == old(lastCommandChanges)
      ensures idBound == old(idBound)
    {
      SlotDeletionKeepsIdsFresh(buttonMap, scene.buttons, slotIndex, commandMap, idBound);
      var updatedMap, updatedButtons;
      updatedMap, updatedButtons, changes := DeleteSlotIn(buttonMap, scene.buttons, slotIndex);
      GroupsMatchKeepsCommands(commandMap, scene, scene.(buttons := updatedButtons));
      buttonMap := updatedMap;
      scene := scene.(buttons := updatedButtons);
      assert Valid();
    }

    /** `deleteCommand`: null when the group is absent (nothing changes); otherwise removes
        the group, empties the raw list and returns the group's id. */
    method DeleteCommand(kind: CommandSlot) returns (id: Option<Id>)
      requires Valid()
      modifies this
      ensures Valid()
      ensures kind !in old(commandMap.entries) ==>
        id == None && commandMap == old(commandMap) && scene == old(scene)
      ensures kind in old(commandMap.entries) ==>
        && id == Some(old(commandMap.entries[kind]).id)
        && commandMap == old(commandMap).Delete(kind)
        && scene == WithCommands(old(scene), kind, [])
      ensures buttonMap == old(buttonMap)
      ensures lastButtonChanges == old(lastButtonChanges) && lastCommandChanges == old(lastCommandChanges)
      ensures idBound == old(idBound)
    {
      var commandToDelete := commandMap.Get(kind);
      if commandToDelete.None? {
        return None;
      }
      GroupsMatchDelete(commandMap, scene, kind);
      DeleteGroupKeepsIdsFresh(buttonMap, commandMap, idBound, kind);
      commandMap := commandMap.Delete(kind);
      scene := WithCommands(scene, kind, []);
      id := Some(commandToDelete.value.id);
    }

    /** `updateSlot`: fails with NotFound on an empty index; otherwise puts the button in the
        slot (keeping its id and place) and in the raw array, and returns the slot. */
    method UpdateSlot(slotIndex: int, newButton: Button) returns (r: Result<Slot, SceneError>)
      requires Valid()
      modifies this
      ensures Valid()
      ensures slotIndex !in old(buttonMap.entries) ==>
        r == Failure(NotFound) && buttonMap == old(buttonMap) && scene == old(scene)
      ensures slotIndex in old(buttonMap.entries) ==>
        var slot := old(buttonMap.entries[slotIndex]).(button := newButton);
        && r == Success(slot)
        && buttonMap == old(buttonMap).Set(slotIndex, slot)
        && scene == old(scene).(buttons := old(scene.buttons)[slotIndex := newButton])
      ensures commandMap == old(commandMap)
      ensures lastButtonChanges == old(lastButtonChanges) && lastCommandChanges == old(lastCommandChanges)
      ensures idBound == old(idBound)
    {
      var targetedSlot := buttonMap.Get(slotIndex);
      if targetedSlot.None? {
        return Failure(NotFound);
      }
      var slot := targetedSlot.value.(button := newButton);
      SlotsMatchReplace(buttonMap, scene.buttons, slotIndex, slot);
      ReplaceSlotKeepsIdsFresh(buttonMap, commandMap, idBound, slotIndex, slot);
      buttonMap := buttonMap.Set(slotIndex, slot);
      GroupsMatchKeepsCommands(commandMap, scene, scene.(buttons := scene.buttons[slotIndex := newButton]));
      scene := scene.(buttons := scene.buttons[slotIndex := newButton]);
      r := Success(slot);
    }

    /** `addSlot`: fails with CapacityExceeded once the raw array holds six buttons; otherwise
        appends a slot with id `newId` at index = the array's length, flagged highest, appends
        the button, and demotes the slot at the previous last index if the map has one,
        returning its "modified" record (which reports the index stored in that slot).
        `newId` is the uuid minted for the slot: at or above the id bound, which moves past it. */
    method AddSlot(newButton: Button, newId: Id) returns (r: Result<AddedSlot, SceneError>)
      requires Valid() && newId >= idBound
      modifies this
      ensures Valid()
      ensures |old(scene.buttons)| >= SCENE_MAX_BUTTONS ==>
        r == Failure(CapacityExceeded) && buttonMap == old(buttonMap) && scene == old(scene)
      ensures |old(scene.buttons)| < SCENE_MAX_BUTTONS ==>
        var newSlot := Slot(newId, sceneId, |old(scene.buttons)|, newButton, Some(true));
        && scene == old(scene).(buttons := old(scene.buttons) + [newButton])
        && buttonMap == PlacedHighest(old(buttonMap), newSlot).0
        && r == Success(AddedSlot(newSlot, PlacedHighest(old(buttonMap), newSlot).1))
      ensures commandMap == old(commandMap)
      ensures lastButtonChanges == old(lastButtonChanges) && lastCommandChanges == old(lastCommandChanges)
      ensures idBound == if |old(scene.buttons)| < SCENE_MAX_BUTTONS then newId + 1 else old(idBound)
    {
      var currentSlots := |scene.buttons|;
      if currentSlots >= SCENE_MAX_BUTTONS {
        return Failure(CapacityExceeded);
      }
      var newTargetIndex := currentSlots;
      var newSlot := Slot(newId, sceneId, newTargetIndex, newButton, Some(true));
      var slots, highestIndexChange := PlaceHighestSlot(buttonMap, scene.buttons, commandMap, idBound, newSlot);
      var updatedScene := scene.(buttons := scene.buttons + [newSlot.button]);
      GroupsMatchKeepsCommands(commandMap, scene, updatedScene);
      buttonMap, scene, idBound := slots, updatedScene, newId + 1;
      assert Valid();
      r := Success(AddedSlot(newSlot, highestIndexChange));
    }

    /** The slot-map half of `addSlot`: the new slot set at its index (one past the last
        button), then the slot at the index below, if any, flagged not highest, with its
        "modified" record. The map still pairs every slot with its button once the new button
        is appended, and its ids stay unique, now below the id after the new slot's. */
    static method PlaceHighestSlot(slots: SlotMap, buttons: seq<Button>, groups: CommandMap, ghost bound: Id, newSlot: Slot)
      returns (updated: SlotMap, highestIndexChange: Option<ButtonChange>)
      requires slots.Valid() && SlotsMatch(slots, buttons) && NodeIdsFresh(slots, groups, bound)
      requires newSlot.index == |buttons| && newSlot.id >= bound
      ensures updated.Valid() && SlotsMatch(updated, buttons + [newSlot.button])
      ensures NodeIdsFresh(updated, groups, newSlot.id + 1)
      ensures (updated, highestIndexChange) == PlacedHighest(slots, newSlot)
    {
      var newTargetIndex := newSlot.index;
      var previousHighestIndex := newTargetIndex - 1;
      var extended := buttons + [newSlot.button];
      SlotsMatchAppend(slots, buttons, newSlot.button);
      SlotsMatchReplace(slots, extended, newTargetIndex, newSlot);
      AddSlotKeepsIdsFresh(slots, groups, bound, newTargetIndex, newSlot);
      assert extended[newTargetIndex := newSlot.button] == extended;
      updated := slots.Set(newTargetIndex, newSlot);
      highestIndexChange := None;
      var secondHighestSlot := updated.Get(previousHighestIndex);
      if secondHighestSlot.Some? {
        var demoted := secondHighestSlot.value.(highestIndex := Some(false));
        SlotsMatchReplace(updated, extended, previousHighestIndex, demoted);
        ReplaceSlotKeepsIdsFresh(updated, groups, newSlot.id + 1, previousHighestIndex, demoted);
        assert extended[previousHighestIndex := demoted.button] == extended;
        updated := updated.Set(previousHighestIndex, demoted);
        highestIndexChange := Some(ButtonChange(demoted.id, demoted.index, Modified, Some(false)));
      }
    }

    /** `swapSlots`: fails with InvalidOperation on equal indices and with NotFound when either
        slot is empty; otherwise exchanges the two slots (each keeps its id and button and
        takes the other's index and highest-index flag) and the two raw buttons, and returns
        the slot now at the first index, then the one now at the second. */
    method SwapSlots(firstIndex: int, secondIndex: int) returns (r: Result<(Slot, Slot), SceneError>)
      requires Valid()
      modifies this
      ensures Valid()
      ensures firstIndex == secondIndex ==>
        r == Failure(InvalidOperation) && buttonMap == old(buttonMap) && scene == old(scene)
      ensures firstIndex != secondIndex && (firstIndex !in old(buttonMap.entries) || secondIndex !in old(buttonMap.entries)) ==>
        r == Failure(NotFound) && buttonMap == old(buttonMap) && scene == old(scene)
      ensures firstIndex != secondIndex && firstIndex in old(buttonMap.entries) && secondIndex in old(buttonMap.entries) ==>
        var first := old(buttonMap.entries[firstIndex]);
        var second := old(buttonMap.entries[secondIndex]);
        var movedFirst := first.(index := secondIndex, highestIndex := second.highestIndex);
        var movedSecond := second.(index := firstIndex, highestIndex := first.highestIndex);
        && r == Success((movedSecond, movedFirst))
        && buttonMap == old(buttonMap).Set(firstIndex, movedSecond).Set(secondIndex, movedFirst)
        && scene == old(scene).(buttons := old(scene.buttons)[firstIndex := second.button][secondIndex := first.button])
      ensures commandMap == old(commandMap)
      ensures lastButtonChanges == old(lastButtonChanges) && lastCommandChanges == old(lastCommandChanges)
      ensures idBound == old(idBound)
    {
      if firstIndex == secondIndex {
        return Failure(InvalidOperation);
      }
      var firstSlot := buttonMap.Get(firstIndex);
      var secondSlot := buttonMap.Get(secondIndex);
      var firstButton := ButtonAt(scene, firstIndex);
      var secondButton := ButtonAt(scene, secondIndex);
      if firstSlot.None? || secondSlot.None? || firstButton.None? || secondButton.None? {
        return Failure(NotFound);
      }
      var first := firstSlot.value.(index := secondIndex, highestIndex := secondSlot.value.highestIndex);
      var second := secondSlot.value.(index := firstIndex, highestIndex := firstSlot.value.highestIndex);
      SlotsMatchReplace(buttonMap, scene.buttons, firstIndex, second);
      SlotsMatchReplace(buttonMap.Set(firstIndex, second), scene.buttons[firstIndex := second.button], secondIndex, first);
      SwapSlotsKeepsIdsFresh(buttonMap, commandMap, idBound, firstIndex, secondIndex, second, first);
      buttonMap := buttonMap.Set(firstIndex, second).Set(secondIndex, first);
      GroupsMatchKeepsCommands(commandMap, scene, scene.(buttons := scene.buttons[firstIndex := second.button][secondIndex := first.button]));
      scene := scene.(buttons := scene.buttons[firstIndex := second.button][secondIndex := first.button]);
      r := Success((second, first));
    }

    /** `setCommand`: keeps an existing group (its id and place) with the new list, or creates
        one with id `newId`, the uuid minted for it (at or above the id bound, which then moves
        past it); always writes the list into the raw scene. */
    method SetCommand(kind: CommandSlot, newCommands: seq<string>, newId: Id) returns (command: SceneCommand)
      requires Valid() && newId >= idBound
      modifies this
      ensures Valid()
      ensures kind in old(commandMap.entries) ==> command == old(commandMap.entries[kind]).(commands := newCommands)
      ensures kind !in old(commandMap.entries) ==> command == SceneCommand(newId, kind, sceneId, newCommands)
      ensures commandMap == old(commandMap).Set(kind, command)
      ensures scene == WithCommands(old(scene), kind, newCommands)
      ensures buttonMap == old(buttonMap)
      ensures lastButtonChanges == old(lastButtonChanges) && lastCommandChanges == old(lastCommandChanges)
      ensures idBound == if kind in old(commandMap.entries) then old(idBound) else newId + 1
    {
      var existing := commandMap.Get(kind);
      if existing.Some? {
        command := existing.value.(commands := newCommands);
      } else {
        command := SceneCommand(newId, kind, sceneId, newCommands);
      }
      GroupsMatchSet(commandMap, scene, command);
      SetGroupKeepsIdsFresh(buttonMap, commandMap, idBound, kind, command);
      if existing.None? {
        idBound := newId + 1;
      }
      commandMap := commandMap.Set(kind, command);
      scene := WithCommands(scene, kind, newCommands);
    }

    /** `getSlot`: the slot at the index, or null; never fails. */
    function GetSlot(slotIndex: int): (r: Option<Slot>)
      reads this
      ensures r.Some? <==> slotIndex in buttonMap.entries
      ensures r.Some? ==> r.value == buttonMap.entries[slotIndex]
    {
      buttonMap.Get(slotIndex)
    }

    /** `getSlots`: every slot, in the map's insertion order. */
    function GetSlots(): (r: seq<Slot>)
      reads this
      requires Valid()
      ensures |r| == |buttonMap.keys|
      ensures forall j :: 0 <= j < |r| ==> r[j] == buttonMap.entries[buttonMap.keys[j]]
    {
      buttonMap.Values()
    }

    /** `getCommand`: the group of that kind, or null; never fails. */
    function GetCommand(kind: CommandSlot): (r: Option<SceneCommand>)
      reads this
      ensures r.Some? <==> kind in commandMap.entries
      ensures r.Some? ==> r.value == commandMap.entries[kind]
    {
      commandMap.Get(kind)
    }

    /** `getCommands`: every group, in the map's insertion order. */
    function GetCommands(): (r: seq<SceneCommand>)
      reads this
      requires Valid()
      ensures |r| == |commandMap.keys|
      ensures forall j :: 0 <= j < |r| ==> r[j] == commandMap.entries[commandMap.keys[j]]
    {
      commandMap.Values()
    }

    /** `toScene`: the raw scene the object holds. */
    function ToScene(): (s: Scene)
      reads this
      requires Valid()
      ensures s.sceneId == sceneId
      ensures forall k :: k in buttonMap.entries ==> ButtonAt(s, k) == Some(buttonMap.entries[k].button)
      ensures forall kind :: kind in commandMap.entries ==> CommandsOf(s, kind) == commandMap.entries[kind].commands
    {
      scene
    }

    /** `getVisualScene`: the scene's texts with the ids of its groups and of its slots (in
        map order). */
    function GetVisualScene(): (v: SceneView)
      reads this
      requires Valid()
      ensures v.sceneId == sceneId && v.sceneText == scene.sceneText && v.npcName == scene.npcName
      ensures v.openCommandNode.Some? <==> Open in commandMap.entries
      ensures v.openCommandNode.Some? ==> v.openCommandNode.value == commandMap.entries[Open].id
      ensures v.closeCommandNode.Some? <==> Close in commandMap.entries
      ensures v.closeCommandNode.Some? ==> v.closeCommandNode.value == commandMap.entries[Close].id
      ensures |v.buttonNodes| == |buttonMap.keys|
      ensures forall j :: 0 <= j < |v.buttonNodes| ==> v.buttonNodes[j] == buttonMap.entries[buttonMap.keys[j]].id
    {
      var slots := buttonMap.Values();
      SceneView(
        sceneId, scene.sceneText, scene.npcName,
        match commandMap.Get(Open) case Some(c) => Some(c.id) case None => None,
        match commandMap.Get(Close) case Some(c) => Some(c.id) case None => None,
        seq(|slots|, j requires 0 <= j < |slots| => slots[j].id))
    }
  }
}
