/** The render-side wrapper around one scene (`VisualScene`): like LogicalScene it gives every
    occupied button slot and both command groups a node id and keeps those ids across
    reconciliations, but its slots carry no highest-index flag and it offers no slot edits. */
module VisualScenes {
  import opened Wrappers
  import opened OrderedMaps
  import opened SceneModel
  import opened SceneNodes

  /** The command map `VisualScene.fromScene` builds: both groups, even for an empty list, open
      with id `firstId` and close with id `firstId`+1, the close group inserted first. */
  function VisualInitialCommands(s: Scene, firstId: Id): (m: CommandMap)
    ensures m.Valid()
    ensures Open in m.entries && Close in m.entries
    ensures m.entries[Open] == SceneCommand(firstId, Open, s.sceneId, s.openCommands)
    ensures m.entries[Close] == SceneCommand(firstId + 1, Close, s.sceneId, s.closeCommands)
    ensures m.keys == [Close, Open]
    ensures GroupsMatch(m, s)
  {
    Empty()
      .Set(Close, SceneCommand(firstId + 1, Close, s.sceneId, s.closeCommands))
      .Set(Open, SceneCommand(firstId, Open, s.sceneId, s.openCommands))
  }

  /** Reconciling a freshly built visual scene with its own scene records nothing and keeps
      every id, but drops the groups whose list is empty and puts open before close. */
  lemma ReconcileFromSceneDropsEmptyGroups(s: Scene, next: Id, later: Id)
    ensures var initial := VisualInitialCommands(s, next + |s.buttons|);
            var rebuilt := ReconciledCommands(initial, s, later);
            && (forall kind :: kind in rebuilt.entries <==> CommandsOf(s, kind) != [])
            && (forall kind :: kind in rebuilt.entries ==> rebuilt.entries[kind] == initial.entries[kind])
            && CommandRecords(s, initial, s, later) == []
  {
    var initial := VisualInitialCommands(s, next + |s.buttons|);
    ReconcileUnchanged(false, s, Empty(), initial, later, 0);
  }

  /** `VisualScene.fromScene` mints unique ids, all below next+|buttons|+2. */
  lemma VisualInitialIdsFresh(s: Scene, next: Id)
    ensures NodeIdsFresh(InitialSlots(false, s, next, |s.buttons|), VisualInitialCommands(s, next + |s.buttons|),
                         next + |s.buttons| + 2)
  {
    InitialNodeIdsFresh(false, s, next, VisualInitialCommands(s, next + |s.buttons|));
  }

  class VisualScene {
    /** Slot index to slot, in insertion order. */
    var buttonMap: SlotMap
    var commandMap: CommandMap
    /** The change ledger: what the `updateScene` that built this object changed. */
    var lastButtonChanges: seq<ButtonChange>
    var lastCommandChanges: seq<CommandChange>
    /** The raw scene the object owns. */
    var scene: Scene
    const sceneId: string
    /** Every node id of the scene is below this bound; the uuids the object mints for new
        nodes are drawn at or above it. */
    ghost var idBound: Id

    /** Every slot key is a position of the raw button array and its slot holds the button
        stored there; every command group sits under its own kind and holds the raw list;
        the node ids are unique and below `idBound`. */
    ghost predicate Valid()
      reads this`buttonMap, this`commandMap, this`scene, this`idBound
    {
      && buttonMap.Valid() && commandMap.Valid()
      && scene.sceneId == sceneId
      && SlotsMatch(buttonMap, scene.buttons)
      && GroupsMatch(commandMap, scene)
      && NodeIdsFresh(buttonMap, commandMap, idBound)
    }

    /** The private constructor: wraps an already built scene, slot map and command map. */
    constructor (s: Scene, commands: CommandMap, buttons: SlotMap, ghost bound: Id)
      requires buttons.Valid() && commands.Valid()
      requires SlotsMatch(buttons, s.buttons) && GroupsMatch(commands, s)
      requires NodeIdsFresh(buttons, commands, bound)
      ensures Valid()
      ensures scene == s && sceneId == s.sceneId && buttonMap == buttons && commandMap == commands
      ensures lastButtonChanges == [] && lastCommandChanges == [] && idBound == bound
    {
      buttonMap := buttons;
      commandMap := commands;
      scene := s;
      sceneId := s.sceneId;
      lastButtonChanges := [];
      lastCommandChanges := [];
      idBound := bound;
    }

    /** `VisualScene.fromScene`: ids next .. next+|buttons|-1 for the buttons, then
        next+|buttons| and next+|buttons|+1 for the open and close groups, both always made. */
    static method FromScene(s: Scene, next: Id) returns (r: VisualScene)
      ensures fresh(r) && r.Valid()
      ensures r.scene == s && r.sceneId == s.sceneId
      ensures r.buttonMap == InitialSlots(false, s, next, |s.buttons|)
      ensures r.commandMap == VisualInitialCommands(s, next + |s.buttons|)
      ensures r.lastButtonChanges == [] && r.lastCommandChanges == []
      ensures r.idBound == next + |s.buttons| + 2
    {
      var buttonMap: SlotMap := Empty();
      for index := 0 to |s.buttons|
        invariant buttonMap == InitialSlots(false, s, next, index)
      {
        var buttonSlot := Slot(next + index, s.sceneId, index, s.buttons[index], None);
        buttonMap := buttonMap.Set(index, buttonSlot);
      }
      var openCommand := SceneCommand(next + |s.buttons|, Open, s.sceneId, s.openCommands);
      var closeCommand := SceneCommand(next + |s.buttons| + 1, Close, s.sceneId, s.closeCommands);
      var commandMap: CommandMap := Empty();
      commandMap := commandMap.Set(Close, closeCommand);
      commandMap := commandMap.Set(Open, openCommand);
      forall k | k in buttonMap.entries ensures 0 <= k < |s.buttons| && buttonMap.entries[k].button == s.buttons[k] {
        InitialSlotAt(false, s, next, |s.buttons|, k);
      }
      assert commandMap == VisualInitialCommands(s, next + |s.buttons|);
      VisualInitialIdsFresh(s, next);
      r := new VisualScene(s, commandMap, buttonMap, next + |s.buttons| + 2);
    }

    /** `VisualScene.updateScene`: fails when the scene ids differ; otherwise builds a new
        object whose slots, groups and ledger are the reconciliation of `oldScene` with
        `updated`, drawing fresh ids from the block next .. next+7, which lies at or above
        the old object's id bound. */
    static method UpdateScene(oldScene: VisualScene, updated: Scene, next: Id) returns (r: Result<VisualScene, SceneError>)
      requires oldScene.Valid() && oldScene.idBound <= next
      ensures oldScene.scene.sceneId != updated.sceneId ==> r == Failure(IdentityMismatch)
      ensures oldScene.scene.sceneId == updated.sceneId ==>
        && r.Success? && fresh(r.value) && r.value.Valid()
        && r.value.scene == updated
        && r.value.buttonMap == ReconciledSlots(false, oldScene.buttonMap, updated, next, SCENE_MAX_BUTTONS)
        && r.value.commandMap == ReconciledCommands(oldScene.commandMap, updated, next)
        && r.value.lastButtonChanges == SlotRecords(false, oldScene.scene, oldScene.buttonMap, updated, next, SCENE_MAX_BUTTONS)
        && r.value.lastCommandChanges == CommandRecords(oldScene.scene, oldScene.commandMap, updated, next)
        && r.value.idBound == next + SCENE_MAX_BUTTONS + 2
    {
      var rawOldScene := oldScene.scene;
      if rawOldScene.sceneId != updated.sceneId {
        return Failure(IdentityMismatch);
      }
      var updatedButtonMap, updatedButtons := ReconcileSlots(false, rawOldScene, oldScene.buttonMap, updated, next);
      var updatedCommandMap, updatedCommands := ReconcileCommandGroups(rawOldScene, oldScene.commandMap, updated, next);
      ReconciledSlotsMatchButtons(false, oldScene.buttonMap, updated, next);
      ReconciledNodeIdsFresh(false, oldScene.buttonMap, oldScene.commandMap, updated, next);
      var scene := WithLedger(updated, updatedCommandMap, updatedButtonMap, updatedButtons, updatedCommands,
                              next + SCENE_MAX_BUTTONS + 2);
      r := Success(scene);
    }

    /** The end of `updateScene`: a new object over the reconciled maps whose ledger holds
        the records of the reconciliation. */
    static method WithLedger(s: Scene, commands: CommandMap, buttons: SlotMap,
                             buttonChanges: seq<ButtonChange>, commandChanges: seq<CommandChange>, ghost bound: Id)
      returns (r: VisualScene)
      requires buttons.Valid() && commands.Valid()
      requires SlotsMatch(buttons, s.buttons) && GroupsMatch(commands, s)
      requires NodeIdsFresh(buttons, commands, bound)
      ensures fresh(r) && r.Valid()
      ensures r.scene == s && r.sceneId == s.sceneId && r.buttonMap == buttons && r.commandMap == commands
      ensures r.lastButtonChanges == buttonChanges && r.lastCommandChanges == commandChanges
      ensures r.idBound == bound
    {
      r := new VisualScene(s, commands, buttons, bound);
      r.lastButtonChanges := buttonChanges;
      r.lastCommandChanges := commandChanges;
    }

    /** `getLastDataChanges(clearAfter)`: the ledger's slot records, then its command records;
        with `clearAfter` the ledger is emptied, so a following call returns []. */
    method GetLastDataChanges(clearAfter: bool) returns (changes: seq<DataChange>)
      modifies this
      ensures changes == AsDataChanges(old(lastButtonChanges), old(lastCommandChanges))
      ensures clearAfter ==> lastButtonChanges == [] && lastCommandChanges == []
      ensures !clearAfter ==> lastButtonChanges == old(lastButtonChanges) && lastCommandChanges == old(lastCommandChanges)
      ensures buttonMap == old(buttonMap) && commandMap == old(commandMap) && scene == old(scene)
      ensures idBound == old(idBound)
    {
      var slots := GetUpdatedSlots(clearAfter);
      var commands := GetUpdatedCommands(clearAfter);
      changes := AsDataChanges(slots, commands);
    }

    /** `getUpdatedSlots`: the ledger's slot records, emptied afterwards with `clearAfter`. */
    method GetUpdatedSlots(clearAfter: bool) returns (result: seq<ButtonChange>)
      modifies this`lastButtonChanges
      ensures result == old(lastButtonChanges)
      ensures lastButtonChanges == if clearAfter then [] else old(lastButtonChanges)
    {
      result := lastButtonChanges;
      if clearAfter {
        lastButtonChanges := [];
      }
    }

    /** `getUpdatedCommands`: the ledger's command records, emptied afterwards with `clearAfter`. */
    method GetUpdatedCommands(clearAfter: bool) returns (result: seq<CommandChange>)
      modifies this`lastCommandChanges
      ensures result == old(lastCommandChanges)
      ensures lastCommandChanges == if clearAfter then [] else old(lastCommandChanges)
    {
      result := lastCommandChanges;
      if clearAfter {
        lastCommandChanges := [];
      }
    }

    /** The `sceneText` setter. */
    method SetSceneText(sceneText: string)
      requires Valid()
      modifies this
      ensures Valid()
      ensures scene == old(scene).(sceneText := sceneText)
      ensures buttonMap == old(buttonMap) && commandMap == old(commandMap)
      ensures lastButtonChanges == old(lastButtonChanges) && lastCommandChanges == old(lastCommandChanges)
      ensures idBound == old(idBound)
    {
      GroupsMatchKeepsCommands(commandMap, scene, scene.(sceneText := sceneText));
      scene := scene.(sceneText := sceneText);
    }

    /** The `npcName` setter. */
    method SetNpcName(npcName: string)
      requires Valid()
      modifies this
      ensures Valid()
      ensures scene == old(scene).(npcName := npcName)
      ensures buttonMap == old(buttonMap) && commandMap == old(commandMap)
      ensures lastButtonChanges == old(lastButtonChanges) && lastCommandChanges == old(lastCommandChanges)
      ensures idBound == old(idBound)
    {
      GroupsMatchKeepsCommands(commandMap, scene, scene.(npcName := npcName));
      scene := scene.(npcName := npcName);
    }

    /** `setCommand`: keeps an existing group (its id and place) with the new list, or creates
        one with id `newId`, the uuid minted for it (at or above the id bound, which then moves
        past it); always writes the list into the raw scene. */
    method SetCommand(kind: CommandSlot, newCommands: seq<string>, newId: Id) returns (command: SceneCommand)
      requires Valid() && newId >= idBound
      modifies this
      ensures Valid()
      ensures kind in old(commandMap.entries) ==> command == old(commandMap.entries[kind]).(commands := newCommands)
      ensures kind !in old(commandMap.entries) ==> command == SceneCommand(newId, kind, sceneId, newCommands)
      ensures commandMap == old(commandMap).Set(kind, command)
      ensures scene == WithCommands(old(scene), kind, newCommands)
      ensures buttonMap == old(buttonMap)
      ensures lastButtonChanges == old(lastButtonChanges) && lastCommandChanges == old(lastCommandChanges)
      ensures idBound == if kind in old(commandMap.entries) then old(idBound) else newId + 1
    {
      var existing := commandMap.Get(kind);
      if existing.Some? {
        command := existing.value.(commands := newCommands);
      } else {
        command := SceneCommand(newId, kind, sceneId, newCommands);
      }
      GroupsMatchSet(commandMap, scene, command);
      SetGroupKeepsIdsFresh(buttonMap, commandMap, idBound, kind, command);
      if existing.None? {
        idBound := newId + 1;
      }
      commandMap := commandMap.Set(kind, command);
      scene := WithCommands(scene, kind, newCommands);
    }

    /** `getSlot`: the slot at the index, or null; never fails. */
    function GetSlot(slotIndex: int): (r: Option<Slot>)
      reads this
      ensures r.Some? <==> slotIndex in buttonMap.entries
      ensures r.Some? ==> r.value == buttonMap.entries[slotIndex]
    {
      buttonMap.Get(slotIndex)
    }

    /** `getSlots`: every slot, in the map's insertion order. */
    function GetSlots(): (r: seq<Slot>)
      reads this
      requires Valid()
      ensures |r| == |buttonMap.keys|
      ensures forall j :: 0 <= j < |r| ==> r[j] == buttonMap.entries[buttonMap.keys[j]]
    {
      buttonMap.Values()
    }

    /** `getCommand`: the group of that kind, or null; never fails. */
    function GetCommand(kind: CommandSlot): (r: Option<SceneCommand>)
      reads this
      ensures r.Some? <==> kind in commandMap.entries
      ensures r.Some? ==> r.value == commandMap.entries[kind]
    {
      commandMap.Get(kind)
    }

    /** `getCommands`: every group, in the map's insertion order. */
    function GetCommands(): (r: seq<SceneCommand>)
      reads this
      requires Valid()
      ensures |r| == |commandMap.keys|
      ensures forall j :: 0 <= j < |r| ==> r[j] == commandMap.entries[commandMap.keys[j]]
    {
      commandMap.Values()
    }

    /** `toScene`: a copy of the raw scene the object holds. */
    function ToScene(): (s: Scene)
      reads this
      requires Valid()
      ensures s.sceneId == sceneId
      ensures forall k :: k in buttonMap.entries ==> ButtonAt(s, k) == Some(buttonMap.entries[k].button)
      ensures forall kind :: kind in commandMap.entries ==> CommandsOf(s, kind) == commandMap.entries[kind].commands
    {
      scene
    }
  }
}
