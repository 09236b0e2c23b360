/** The dialogue document's data model (a scene with up to six buttons and open/close command
    lists), the node records both scene wrappers (LogicalScene and VisualScene) build over it,
    and how a changed button index or command list is classified. */
module SceneModel {
  import opened Wrappers
  import opened OrderedMaps

  /** An opaque node identifier. The source mints uuids; here ids are drawn from a counter,
      so an id at or above the counter's current value has never been handed out. */
  type Id = nat

  const SCENE_MAX_BUTTONS: nat := 6

  datatype Button = Button(displayName: string, commands: seq<string>)

  datatype Scene = Scene(
    sceneId: string,
    npcName: string,
    sceneText: string,
    openCommands: seq<string>,
    closeCommands: seq<string>,
    buttons: seq<Button>)

  /** The "open" and "close" command slots of a scene. */
  datatype CommandSlot = Open | Close

  /** A command group node (`VisualSceneCommand`). */
  datatype SceneCommand = SceneCommand(id: Id, kind: CommandSlot, parentSceneId: string, commands: seq<string>)

  datatype Change = Created | Modified | Deleted

  /** `SceneCommandDataChange`. */
  datatype CommandChange = CommandChange(id: Id, kind: CommandSlot, change: Change)

  /** The errors the scene wrappers throw. */
  datatype SceneError = IdentityMismatch | NotFound | CapacityExceeded | InvalidOperation

  type CommandMap = OrderedMap<CommandSlot, SceneCommand>

  /** A button slot node (`VisualSlot`); `highestIndex` is set only by LogicalScene. */
  datatype Slot = Slot(id: Id, parentSceneId: string, index: int, button: Button, highestIndex: Option<bool>)

  /** `ButtonSlotDataChange`; `highestIndex` is absent in VisualScene's records and in the
      record of a slot removed by LogicalScene's `deleteSlot`. */
  datatype ButtonChange = ButtonChange(id: Id, index: int, change: Change, highestIndex: Option<bool>)

  /** `VisualSceneDataChange`: a slot record or a command group record. */
  datatype DataChange = ButtonDataChange(button: ButtonChange) | CommandDataChange(command: CommandChange)

  type SlotMap = OrderedMap<int, Slot>

  /** The slots under two different keys `a` and `b` have different ids. */
  ghost predicate SlotsApart(m: SlotMap, a: int, b: int) {
    a in m.entries && b in m.entries && a != b ==> m.entries[a].id != m.entries[b].id
  }

  /** No two slots of the map share an id. */
  ghost predicate SlotIdsDistinct(m: SlotMap) {
    forall a, b :: SlotsApart(m, a, b)
  }

  /** Every slot key is a position of the raw button array and its slot holds the button
      stored there. */
  ghost predicate SlotsMatch(m: SlotMap, buttons: seq<Button>) {
    forall k :: k in m.entries ==> 0 <= k < |buttons| && m.entries[k].button == buttons[k]
  }

  /** Every command group sits under its own kind and holds the scene's list of that kind. */
  ghost predicate GroupsMatch(c: CommandMap, s: Scene) {
    forall kind :: kind in c.entries ==> c.entries[kind].kind == kind && c.entries[kind].commands == CommandsOf(s, kind)
  }

  /** Putting a slot under key k and its button at position k keeps the map matched. */
  lemma SlotsMatchReplace(m: SlotMap, buttons: seq<Button>, k: int, slot: Slot)
    requires m.Valid() && SlotsMatch(m, buttons) && 0 <= k < |buttons|
    ensures SlotsMatch(m.Set(k, slot), buttons[k := slot.button])
  {
  }

  /** Appending a button to the array keeps every existing slot matched. */
  lemma SlotsMatchAppend(m: SlotMap, buttons: seq<Button>, b: Button)
    requires SlotsMatch(m, buttons)
    ensures SlotsMatch(m, buttons + [b])
  {
    forall k | k in m.entries ensures (buttons + [b])[k] == buttons[k] {
    }
  }

  /** Replacing a scene's buttons or texts leaves its command groups matched. */
  lemma GroupsMatchKeepsCommands(c: CommandMap, s: Scene, t: Scene)
    requires GroupsMatch(c, s)
    requires t.openCommands == s.openCommands && t.closeCommands == s.closeCommands
    ensures GroupsMatch(c, t)
  {
    forall kind | kind in c.entries ensures CommandsOf(t, kind) == CommandsOf(s, kind) {
    }
  }

  /** Writing a group's list into both the group and the scene keeps them matched. */
  lemma GroupsMatchSet(c: CommandMap, s: Scene, command: SceneCommand)
    requires c.Valid() && GroupsMatch(c, s)
    ensures GroupsMatch(c.Set(command.kind, command), WithCommands(s, command.kind, command.commands))
  {
  }

  /** Removing a group and emptying its list keeps the remaining groups matched. */
  lemma GroupsMatchDelete(c: CommandMap, s: Scene, kind: CommandSlot)
    requires c.Valid() && GroupsMatch(c, s)
    ensures GroupsMatch(c.Delete(kind), WithCommands(s, kind, []))
  {
  }

  /** The tagged list `getLastDataChanges` returns: slot records first, then command records. */
  function AsDataChanges(buttons: seq<ButtonChange>, commands: seq<CommandChange>): (r: seq<DataChange>)
    ensures |r| == |buttons| + |commands|
    ensures forall j :: 0 <= j < |buttons| ==> r[j] == ButtonDataChange(buttons[j])
    ensures forall j :: 0 <= j < |commands| ==> r[|buttons| + j] == CommandDataChange(commands[j])
  {
    seq(|buttons|, j requires 0 <= j < |buttons| => ButtonDataChange(buttons[j]))
      + seq(|commands|, j requires 0 <= j < |commands| => CommandDataChange(commands[j]))
  }

  /** `buttons[index]`: undefined past the end of the array. */
  function ButtonAt(s: Scene, index: int): (b: Option<Button>)
    ensures b.Some? <==> 0 <= index < |s.buttons|
    ensures b.Some? ==> b.value == s.buttons[index]
  {
    if 0 <= index < |s.buttons| then Some(s.buttons[index]) else None
  }

  function CommandsOf(s: Scene, kind: CommandSlot): seq<string> {
    match kind
    case Open => s.openCommands
    case Close => s.closeCommands
  }

  /** The scene with the command list of `kind` replaced. */
  function WithCommands(s: Scene, kind: CommandSlot, commands: seq<string>): (r: Scene)
    ensures CommandsOf(r, kind) == commands
    ensures r.sceneId == s.sceneId && r.buttons == s.buttons
    ensures r.npcName == s.npcName && r.sceneText == s.sceneText
    ensures forall other :: other != kind ==> CommandsOf(r, other) == CommandsOf(s, other)
  {
    match kind
    case Open => s.(openCommands := commands)
    case Close => s.(closeCommands := commands)
  }

  /** The indices 0 .. n-1 in increasing order. */
  function Upto(n: nat): (r: seq<int>)
    ensures |r| == n
    ensures forall i :: 0 <= i < n ==> r[i] == i
  {
    seq(n, i => i)
  }

  function Min(a: int, b: int): int { if a <= b then a else b }

  /** The indices listed by `Upto(n)` are exactly 0 .. n-1. */
  lemma InUpto(n: nat, i: int)
    ensures i in Upto(n) <==> 0 <= i < n
  {
    if 0 <= i < n {
      assert Upto(n)[i] == i;
    }
  }

  /** The record kind a reconciliation stages for one button index. The source first stages
      "modified" on any inequality, then overwrites it with "created" when only the new button
      exists and with "deleted" when only the old one does; the last write is what survives. */
  function ClassifyButton(before: Option<Button>, after: Option<Button>): (c: Option<Change>)
    ensures c.None? <==> before == after
    ensures c == Some(Created) <==> before.None? && after.Some?
    ensures c == Some(Deleted) <==> before.Some? && after.None?
    ensures c == Some(Modified) <==> before.Some? && after.Some? && before != after
  {
    var staged := if before != after then Some(Modified) else None;
    var staged := if before.None? && after.Some? then Some(Created) else staged;
    if after.None? && before.Some? then Some(Deleted) else staged
  }

  /** The record kind a reconciliation stages for one command list: nothing when the lists are
      equal, otherwise "modified", refined to "created" (from empty) or "deleted" (to empty). */
  function ClassifyCommands(before: seq<string>, after: seq<string>): (c: Option<Change>)
    ensures c.None? <==> before == after
    ensures c == Some(Created) <==> before == [] && after != []
    ensures c == Some(Deleted) <==> before != [] && after == []
    ensures c == Some(Modified) <==> before != [] && after != [] && before != after
  {
    if before == after then None
    else if |after| > 0 && |before| == 0 then Some(Created)
    else if |before| > 0 && |after| == 0 then Some(Deleted)
    else Some(Modified)
  }
}
