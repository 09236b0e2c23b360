# Dialogue node editor — a Dafny model of its core

The dialogue node editor is a Visual Studio Code extension for Minecraft Bedrock NPC dialogue
files. A dialogue file holds scenes. Each scene has a tag, an NPC name, a text, open and close
command lists, and up to six buttons. The editor shows every scene as a graph of nodes: one node
for the scene, one per occupied button slot and one per non-empty command group. It keeps that
graph, an open text editor and the file on disk in step.

This project models the logic that does so:

- **Scene wrappers.** `LogicalScene` and `VisualScene` give every button slot and command group a
  node id. They keep those ids when a newer snapshot of the scene arrives, and record which slots
  and groups that snapshot created, modified or deleted. `LogicalScene` also edits its slots in
  place: delete with down-shift of the later slots, add, swap and update.
- **Webview composables.**
  - The scene cache (`useDialogueData`) turns scene messages into cached wrappers and listener
    calls.
  - The scene dock (`useSceneDock`) keeps the ordered set of docked scenes.
  - The layout store (`useLayout`) keeps node positions and the viewport.
  - `dataMapper` decorates buttons with node ids.
- **Extension side.**
  - The scene store (`DialogueStore`) swallows echoes of unchanged scenes.
  - The outbound `MessageQueue` coalesces messages until the webview is ready.
  - The dialogue file mappers read and write scene JSON. Text may be Minecraft rawtext, which
    names a translation key.
  - The `.lang` file helpers parse `key=value` lines, substitute `%n` placeholders and write one
    key back.

How the model represents the source:

- A JavaScript `Map` is an ordered map: its keys in first-insertion order plus a finite map.
- `uuidv4()` is a counter that mints fresh `nat` ids.
- A JSON text field is a `Json` value; the scenes hold its kind (missing, text, rawtext or other).
- Listener calls are deliveries appended to an event log.
- Messages posted to the host, and states handed to it, are appended to logs.
- Classes whose fields the source updates in place are Dafny classes. The mappers and parsers
  are functions.

## Model

| member | source | states |
|---|---|---|
| OrderedMaps.OrderedMap.Get | packages/app/src/classes/LogicalScene.ts:528-530 | `Map.get`: a value exactly for a present key, and it is that key's value |
| OrderedMaps.OrderedMap.Set | packages/app/src/classes/LogicalScene.ts:475 | `Map.set`: the key maps to the value. A present key keeps its place in the order; a new key is appended. Keys stay distinct |
| OrderedMaps.OrderedMap.Delete | packages/app/src/classes/LogicalScene.ts:364 | `Map.delete`: the key is gone from the entries and the order, the others stay, and deleting an absent key changes nothing |
| OrderedMaps.OrderedMap.Values | packages/app/src/classes/LogicalScene.ts:532-534 | `Map.values()`: one value per key, in key order |
| OrderedMaps.RemoveKey | packages/app/src/composables/useSceneDock.ts:20-25 | removing a key from an insertion order keeps exactly the other keys and keeps them distinct |
| OrderedMaps.SetNewAppendsValue | packages/extension/src/classes/MessageQueue.ts:70-73 | setting a new key appends its value at the end of the values iteration |
| Listeners.Deliveries | packages/app/src/composables/dialogueData.ts:108 | `forEach(fn => fn(msg))`: one call per listener, in registration order, each with the same message |
| Listeners.Broadcast | packages/app/src/composables/useSceneDock.ts:17 | running the listeners appends exactly those deliveries to the log |
| SceneModel.AsDataChanges | packages/app/src/classes/LogicalScene.ts:283-287 | the slot changes come first, in order, then the command changes |
| SceneModel.ButtonAt | packages/app/src/classes/LogicalScene.ts:120-121 | `buttons[index]`: a button exactly for an index inside the array (undefined outside) |
| SceneModel.WithCommands | packages/app/src/classes/LogicalScene.ts:557-561 | writing one command list changes that list only |
| SceneModel.ClassifyButton | packages/app/src/classes/LogicalScene.ts:122-159 | per slot: no change iff old and new button are equal; created iff only the new exists; deleted iff only the old exists; modified iff both exist and differ |
| SceneModel.ClassifyCommands | packages/app/src/classes/LogicalScene.ts:179-221 | per group: no change iff the lists are equal; created iff the old list was empty; deleted iff the new list is empty; otherwise modified |
| SceneNodes.InitialSlots | packages/app/src/classes/LogicalScene.ts:54-70 | `fromScene` builds one slot per button, keyed 0 .. n-1 in order |
| SceneNodes.InitialSlotAt | packages/app/src/classes/LogicalScene.ts:56-70 | slot i has id next+i, index i, the i-th button and the parent scene. In LogicalScene it has the highest-index flag (true only for the last button); in VisualScene it has no flag |
| SceneNodes.InitialIdsDistinct | packages/app/src/classes/VisualScene.ts:52-66 | the fresh slot ids are pairwise distinct and lie in [next, next+n) |
| SceneNodes.ReconciledSlots | packages/app/src/classes/LogicalScene.ts:115-173 | the reconciled slot map holds exactly the indices of the new scene's buttons, in index order |
| SceneNodes.ReconciledSlotAt | packages/app/src/classes/LogicalScene.ts:123-171 | a reconciled slot keeps the id of the old slot at its index, or gets a fresh id next+i. It carries index i, the new button, the scene id and the highest-index flag of the new scene |
| SceneNodes.ReconciledSlotIs | packages/app/src/classes/LogicalScene.ts:117-172 | the reconciled map holds index i iff i < n and i is below the number of buttons, and its entry there is the slot built for i |
| SceneNodes.ReconciledIdsDistinct | packages/app/src/classes/LogicalScene.ts:123 | when old ids are distinct and below the fresh-id counter, reconciled slot ids stay distinct |
| SceneNodes.ReconciledSlotsMatchButtons | packages/app/src/classes/LogicalScene.ts:164-171 | after reconciliation every slot holds the button at its index |
| SceneNodes.SlotRecordsExact | packages/app/src/classes/LogicalScene.ts:117-159 | the change ledger holds only real per-index records, in increasing index order, and holds one for every index whose button changed |
| SceneNodes.SlotRecordsSound | packages/app/src/classes/LogicalScene.ts:124-159 | every ledger entry is the record computed for its own index |
| SceneNodes.SlotRecordsOrdered | packages/app/src/classes/LogicalScene.ts:116-117 | the ledger lists indices in increasing order, as `Map` iteration does for inserts made in index order |
| SceneNodes.SlotRecordsComplete | packages/app/src/classes/LogicalScene.ts:124-159 | every index whose button changed has its record in the ledger |
| SceneNodes.SlotRecordClassify | packages/app/src/classes/LogicalScene.ts:124-159 | a changed index is recorded with the slot's id: created iff it is past the old buttons, deleted iff it is past the new buttons, otherwise modified |
| SceneNodes.ReconcileSlot | packages/app/src/classes/LogicalScene.ts:118-172 | one loop step: a slot exactly when the new scene has a button there, and the record for that index |
| SceneNodes.StageRecordStep | packages/app/src/classes/LogicalScene.ts:124-159 | staging the step's record keeps the ledger in step with the specification of the first index+1 records |
| SceneNodes.ReconcileSlots | packages/app/src/classes/LogicalScene.ts:115-173 | the six-slot loop yields exactly the reconciled slot map and the change ledger |
| SceneNodes.ReconcileIndex | packages/app/src/classes/LogicalScene.ts:117-173 | one loop iteration advances the slot map and the ledger from index to index+1 |
| SceneNodes.ReconciledCommands | packages/app/src/classes/LogicalScene.ts:175-236 | the reconciled groups are exactly the non-empty lists, open before close. Each keeps its old id or gets a fresh one, and carries the new list |
| SceneNodes.ReconcileCommandGroup | packages/app/src/classes/LogicalScene.ts:179-221 | one group: present iff its new list is non-empty, and the record for that group |
| SceneNodes.ReconcileCommandGroups | packages/app/src/classes/LogicalScene.ts:175-265 | the open and close steps yield exactly the reconciled groups and the group ledger |
| SceneNodes.CommandRecordsClassify | packages/app/src/classes/LogicalScene.ts:193-221 | a group is recorded iff its list changed, with the classification of the change and the group's kept id |
| SceneNodes.ReconcileUnchanged | packages/app/src/classes/LogicalScene.ts:122-124 | reconciling a scene with itself records no change |
| SceneNodes.ReconcileFromSceneIsIdentity | packages/app/src/classes/LogicalScene.ts:52-173 | reconciling a freshly built scene with the same scene gives back its slot map and records nothing |
| SceneNodes.ReconciledIdsWithin | packages/app/src/classes/LogicalScene.ts:123 | all ids stay below the advanced counter, and a slot with a fresh id had no slot at its index before |
| SceneNodes.InitialNodeIdsFresh | packages/app/src/classes/LogicalScene.ts:56-91 | the ids `fromScene` mints (one per button, then the open and close groups) are pairwise distinct, slot against slot and slot against group, and lie below next+n+2 |
| SceneNodes.ReconciledNodeIdsFresh | packages/app/src/classes/LogicalScene.ts:123-227 | when the old node ids are unique and below the counter, the reconciled slots and groups again have unique ids, below the counter advanced by eight |
| SceneNodes.ReconciledGroupIdsApart | packages/app/src/classes/LogicalScene.ts:183-227 | after reconciliation no group shares its id with a slot, and the open and close groups have different ids |
| SceneNodes.ReplaceSlotKeepsIdsFresh | packages/app/src/classes/LogicalScene.ts:442-450 | replacing a slot by one with the same id keeps the node ids unique |
| SceneNodes.AddSlotKeepsIdsFresh | packages/app/src/classes/LogicalScene.ts:464-475 | a slot under a new index with an id at or above the bound keeps the node ids unique, below that id + 1 |
| SceneNodes.SetGroupKeepsIdsFresh | packages/app/src/classes/LogicalScene.ts:542-564 | a group that keeps its id, or a new group whose id is at or above the bound, keeps the node ids unique (the bound then moves past the new id) |
| SceneNodes.DeleteGroupKeepsIdsFresh | packages/app/src/classes/LogicalScene.ts:416-431 | removing a group keeps the node ids unique and below the same bound |
| SceneNodes.SwapSlotsKeepsIdsFresh | packages/app/src/classes/LogicalScene.ts:500-526 | exchanging two slots, each keeping its id, keeps the node ids unique |
| LogicalScenes.InitialCommands | packages/app/src/classes/LogicalScene.ts:72-91 | `fromScene` creates a group exactly for each non-empty list, open before close, with fresh ids and the scene's lists |
| LogicalScenes.InitialCommandIds | packages/app/src/classes/LogicalScene.ts:75-86 | group ids lie in [firstId, firstId+2) |
| LogicalScenes.InitialIdsFresh | packages/app/src/classes/LogicalScene.ts:52-99 | every node id `fromScene` mints lies in its block next .. next+n+1, and all node ids are pairwise distinct |
| LogicalScenes.InitialSlotsMatch | packages/app/src/classes/LogicalScene.ts:56-70 | every built slot holds the scene's button at its index |
| LogicalScenes.ReconcileFromSceneKeepsGroups | packages/app/src/classes/LogicalScene.ts:175-265 | reconciling a freshly built scene with itself keeps its groups and records no group change |
| LogicalScenes.ShiftedSlots | packages/app/src/classes/LogicalScene.ts:372-406 | the rebuilt map lists the survivors in the old order, each under its shifted key |
| LogicalScenes.ShiftedSlotsAt | packages/app/src/classes/LogicalScene.ts:373-405 | each surviving slot lands unchanged under its shifted key |
| LogicalScenes.Spliced | packages/app/src/classes/LogicalScene.ts:365 | `splice(i, 1)`: one element shorter, every other element at its shifted index |
| LogicalScenes.SlotsAfterDeletion | packages/app/src/classes/LogicalScene.ts:364-407 | the slot map after a deletion is a well-formed ordered map |
| LogicalScenes.ShiftedSlotsMatchButtons | packages/app/src/classes/LogicalScene.ts:364-407 | after the delete, the map shift and the splice, every slot again holds the button at its (new) index |
| LogicalScenes.ShiftedSlotsValues | packages/app/src/classes/LogicalScene.ts:372-407 | the rebuilt map iterates over the same slots, in the same order, as the map with the key deleted |
| LogicalScenes.DeletionKeepsIdsFresh | packages/app/src/classes/LogicalScene.ts:364-407 | deleting a slot and shifting the rest keeps the node ids unique and below the same bound: every survivor keeps its id |
| LogicalScenes.SlotDeletion | packages/app/src/classes/LogicalScene.ts:352-409 | deleting keeps the invariant that every slot holds the button at its index |
| LogicalScenes.DeleteSlotIn | packages/app/src/classes/LogicalScene.ts:352-409 | the imperative delete (absent slot: no change and no records) computes exactly the specified map, buttons and records |
| LogicalScenes.ShiftRecordsShape | packages/app/src/classes/LogicalScene.ts:376-402 | every slot above the deleted one is recorded as modified at key-1. A slot below becomes recorded only when it is now the last. Every record carries highestIndex iff its index is the last |
| LogicalScenes.ShiftStep | packages/app/src/classes/LogicalScene.ts:373-406 | one loop step adds one shifted slot and at most one record |
| LogicalScenes.ShiftSlot | packages/app/src/classes/LogicalScene.ts:374-403 | one key's new index and its record |
| LogicalScenes.ShiftSlots | packages/app/src/classes/LogicalScene.ts:372-406 | the loop over the map's entries yields exactly the shifted map and the modification records |
| LogicalScenes.LogicalScene.constructor | packages/app/src/classes/LogicalScene.ts:33-42 | stores the scene and both maps, and starts with empty change ledgers |
| LogicalScenes.LogicalScene.FromScene | packages/app/src/classes/LogicalScene.ts:52-99 | a new wrapper whose slots and groups are the initial ones, with empty ledgers; its node ids are unique and below next+n+2 |
| LogicalScenes.LogicalScene.UpdateScene | packages/app/src/classes/LogicalScene.ts:107-277 | a different scene id is refused. Otherwise a new wrapper holds the new scene, the reconciled slots and groups, and both ledgers; when the old wrapper's ids lie below the counter, the new wrapper's ids are unique and below the counter advanced by eight |
| LogicalScenes.LogicalScene.WithLedger | packages/app/src/classes/LogicalScene.ts:268-276 | the new wrapper holds the given maps and the given ledgers |
| LogicalScenes.LogicalScene.GetLastDataChanges | packages/app/src/classes/LogicalScene.ts:283-311 | returns the slot changes then the command changes, and clears both ledgers iff asked |
| LogicalScenes.LogicalScene.SetSceneText | packages/app/src/classes/LogicalScene.ts:323-325 | only the scene text changes |
| LogicalScenes.LogicalScene.SetNpcName | packages/app/src/classes/LogicalScene.ts:343-345 | only the NPC name changes |
| LogicalScenes.LogicalScene.DeleteSlot | packages/app/src/classes/LogicalScene.ts:352-409 | the slots, buttons and returned records become the specified deletion. The commands and the ledgers are untouched |
| LogicalScenes.LogicalScene.DeleteCommand | packages/app/src/classes/LogicalScene.ts:416-431 | an absent group returns null and changes nothing; a present one is removed, its list is emptied and its id is returned |
| LogicalScenes.LogicalScene.UpdateSlot | packages/app/src/classes/LogicalScene.ts:442-450 | an absent slot is an error and changes nothing; otherwise the slot and the scene's button at that index both take the new button |
| LogicalScenes.LogicalScene.AddSlot | packages/app/src/classes/LogicalScene.ts:457-490 | a full scene is an error. Otherwise a slot with the minted id (at or above the id bound) is appended as the new highest, and the bound moves past it. The previous highest slot, if any, loses its flag and that change is returned |
| LogicalScenes.PlacedHighest | packages/app/src/classes/LogicalScene.ts:464-489 | the new slot sits under its index (a new key goes last in map order); the slot below it, if any, is kept with its flag cleared and is reported by a "modified" record; every other slot is unchanged |
| LogicalScenes.LogicalScene.PlaceHighestSlot | packages/app/src/classes/LogicalScene.ts:464-489 | the slot map after an add: the new slot under its index and the slot below it demoted, with its record. Every slot still holds the button at its index, and the ids stay unique |
| LogicalScenes.LogicalScene.SwapSlots | packages/app/src/classes/LogicalScene.ts:500-526 | the same index, or an empty slot, is an error. Otherwise the slots exchange places, indices and highest flags, and so do the buttons |
| LogicalScenes.LogicalScene.SetCommand | packages/app/src/classes/LogicalScene.ts:542-564 | an existing group takes the new list and keeps its id; a missing one is created with the minted id, at or above the id bound, which moves past it. The scene's list follows |
| LogicalScenes.LogicalScene.GetSlot | packages/app/src/classes/LogicalScene.ts:528-530 | the slot at an index, or null |
| LogicalScenes.LogicalScene.GetSlots | packages/app/src/classes/LogicalScene.ts:532-534 | all slots, in map order |
| LogicalScenes.LogicalScene.GetCommand | packages/app/src/classes/LogicalScene.ts:566-568 | the group of a kind, or null |
| LogicalScenes.LogicalScene.GetCommands | packages/app/src/classes/LogicalScene.ts:570-572 | all groups, in map order |
| LogicalScenes.LogicalScene.ToScene | packages/app/src/classes/LogicalScene.ts:577-582 | the raw scene agrees with every slot's button and every group's list |
| LogicalScenes.LogicalScene.GetVisualScene | packages/app/src/classes/LogicalScene.ts:587-597 | texts, the open and close node ids when present, and the button node ids in slot-map order |
| VisualScenes.VisualInitialCommands | packages/app/src/classes/VisualScene.ts:67-81 | `fromScene` always creates both groups (close first, then open), even for empty lists |
| VisualScenes.ReconcileFromSceneDropsEmptyGroups | packages/app/src/classes/VisualScene.ts:161-249 | reconciling a fresh VisualScene with itself drops the empty groups that `fromScene` created, keeps the rest unchanged, and records nothing |
| VisualScenes.VisualInitialIdsFresh | packages/app/src/classes/VisualScene.ts:52-81 | the ids `VisualScene.fromScene` mints are pairwise distinct and below next+n+2 |
| VisualScenes.VisualScene.constructor | packages/app/src/classes/VisualScene.ts:33-42 | stores the scene and both maps, with empty ledgers |
| VisualScenes.VisualScene.FromScene | packages/app/src/classes/VisualScene.ts:52-91 | the initial unflagged slots and both command groups, with unique ids below next+n+2 |
| VisualScenes.VisualScene.UpdateScene | packages/app/src/classes/VisualScene.ts:99-263 | the same reconciliation as LogicalScene, without highest-index flags, and the same id bound; a different id is refused |
| VisualScenes.VisualScene.WithLedger | packages/app/src/classes/VisualScene.ts:254-262 | the new wrapper holds the given maps and ledgers |
| VisualScenes.VisualScene.GetLastDataChanges | packages/app/src/classes/VisualScene.ts:269-273 | slot changes then command changes, and clears iff asked |
| VisualScenes.VisualScene.GetUpdatedSlots | packages/app/src/classes/VisualScene.ts:279-285 | returns the slot ledger and empties it iff asked |
| VisualScenes.VisualScene.GetUpdatedCommands | packages/app/src/classes/VisualScene.ts:291-297 | returns the command ledger and empties it iff asked |
| VisualScenes.VisualScene.SetSceneText | packages/app/src/classes/VisualScene.ts:309-311 | only the scene text changes |
| VisualScenes.VisualScene.SetNpcName | packages/app/src/classes/VisualScene.ts:329-331 | only the NPC name changes |
| VisualScenes.VisualScene.SetCommand | packages/app/src/classes/VisualScene.ts:347-369 | an existing group keeps its id; a missing one gets the minted id, at or above the id bound, which moves past it; the scene's list follows |
| VisualScenes.VisualScene.GetSlot | packages/app/src/classes/VisualScene.ts:333-335 | the slot at an index, or null |
| VisualScenes.VisualScene.GetSlots | packages/app/src/classes/VisualScene.ts:337-339 | all slots in map order |
| VisualScenes.VisualScene.GetCommand | packages/app/src/classes/VisualScene.ts:371-373 | the group of a kind, or null |
| VisualScenes.VisualScene.GetCommands | packages/app/src/classes/VisualScene.ts:375-377 | all groups in map order |
| VisualScenes.VisualScene.ToScene | packages/app/src/classes/VisualScene.ts:382-387 | the raw scene agrees with every slot and group |
| DialogueDataCache.ChildIds | packages/app/src/composables/dialogueData.ts:122-124 | command node ids in map order, then button node ids in map order |
| DialogueDataCache.ListedIdsDistinct | packages/app/src/composables/dialogueData.ts:122-124 | listing the group ids and then the slot ids of maps with unique node ids lists no id twice |
| DialogueDataCache.ChildIdsDistinct | packages/app/src/composables/dialogueData.ts:122-125 | the child ids a delete reports are pairwise distinct |
| DialogueDataCache.CacheValidDelete | packages/app/src/composables/dialogueData.ts:126 | dropping a scene keeps the cache well formed |
| DialogueDataCache.DialogueData.constructor | packages/app/src/composables/dialogueData.ts:16-23 | an empty cache with no listeners |
| DialogueDataCache.DialogueData.GetScene | packages/app/src/composables/dialogueData.ts:28-30 | the cached wrapper of a scene id, if any |
| DialogueDataCache.CacheValidPut | packages/app/src/composables/dialogueData.ts:36 | caching a well-formed wrapper under its own id, with the counter raised past its ids, makes the cache well formed again, whatever was cached under that id before |
| DialogueDataCache.DialogueData.CreateScene | packages/app/src/composables/dialogueData.ts:35-45 | accepts any well-formed wrapper, including a cached one edited in place: caches it under its id, raises the counter past its ids and, only inside the webview, posts a create message; no listener runs |
| DialogueDataCache.DialogueData.UpdateScene | packages/app/src/composables/dialogueData.ts:50-60 | as createScene, with an update message |
| DialogueDataCache.DialogueData.DeleteScene | packages/app/src/composables/dialogueData.ts:65-74 | drops the scene and, only inside the webview, posts a delete message |
| DialogueDataCache.DialogueData.OnSceneCreate | packages/app/src/composables/dialogueData.ts:78-80 | registers a create listener after the others |
| DialogueDataCache.DialogueData.OnSceneUpdate | packages/app/src/composables/dialogueData.ts:82-84 | registers an update listener after the others |
| DialogueDataCache.DialogueData.OnSceneDelete | packages/app/src/composables/dialogueData.ts:89-91 | registers a delete listener after the others |
| DialogueDataCache.DialogueData.NotifyListeners | packages/app/src/composables/dialogueData.ts:108-113 | the create listeners, or the update listeners, each receive the wrapper once, in registration order |
| DialogueDataCache.DialogueData.CacheAndNotify | packages/app/src/composables/dialogueData.ts:108-114 | tells the create (or update) listeners, then caches the wrapper under its id; the counter is unchanged |
| DialogueDataCache.DialogueData.Cache | packages/app/src/composables/dialogueData.ts:36 | caches a well-formed wrapper under its own id, replacing whatever was there, and raises the counter past its ids; the cache stays well formed |
| DialogueDataCache.DialogueData.CacheNewScene | packages/app/src/composables/dialogueData.ts:106-109 | an unseen scene gets a wrapper built from the message, which the create listeners receive and the cache keeps |
| DialogueDataCache.DialogueData.ReconcileCachedScene | packages/app/src/composables/dialogueData.ts:111-115 | a cached scene is reconciled into a new wrapper, which the update listeners receive and the cache keeps |
| DialogueDataCache.DialogueData.HandleSceneMessage | packages/app/src/composables/dialogueData.ts:102-116 | a create or update message for an unseen id builds a wrapper. For a cached id it reconciles the cached wrapper. Either way the message type is not consulted |
| DialogueDataCache.DialogueData.HandleDeleteMessage | packages/app/src/composables/dialogueData.ts:118-127 | an unknown id is ignored. A cached scene's child node ids go to the delete listeners, then it is dropped |
| DialogueDataCache.DialogueData.HandleMessage | packages/app/src/composables/dialogueData.ts:95-129 | a create or update message does exactly what the scene branch does (build or reconcile, tell the listeners, cache); a delete does exactly what the delete branch does and never fails or mints ids; a refused update leaves the cache and the log untouched |
| DialogueStores.DialogueStore.constructor | packages/extension/src/stores/dialogueStore.ts:8-15 | an empty store with no listeners |
| DialogueStores.DialogueStore.OnSceneCreate | packages/extension/src/stores/dialogueStore.ts:17-19 | registers a create listener after the others |
| DialogueStores.DialogueStore.OnSceneUpdate | packages/extension/src/stores/dialogueStore.ts:21-23 | registers an update listener after the others |
| DialogueStores.DialogueStore.OnSceneDelete | packages/extension/src/stores/dialogueStore.ts:25-27 | registers a delete listener after the others |
| DialogueStores.DialogueStore.UpsertScene | packages/extension/src/stores/dialogueStore.ts:34-66 | an identical scene is swallowed. A new one is stored and announced as a create; a changed one as an update. Each carries its source |
| DialogueStores.DialogueStore.DeleteScene | packages/extension/src/stores/dialogueStore.ts:73-88 | the scene is removed. The delete listeners hear about it only when it existed |
| DialogueStores.DialogueStore.GetScenes | packages/extension/src/stores/dialogueStore.ts:90-92 | the stored scenes in first-insertion order, each under its own id |
| DialogueStores.UpsertKeepsListing | packages/extension/src/stores/dialogueStore.ts:34-66 | an update keeps the scene's place in the listing; a create appends it |
| MessageQueues.Coalesced | packages/extension/src/classes/MessageQueue.ts:53-58 | an update arriving on a buffered create stays a create carrying the new scene; any other message replaces what was buffered |
| MessageQueues.Buffered | packages/extension/src/classes/MessageQueue.ts:52-59 | the coalesced message is buffered under its scene id. An existing id keeps its place; a new id is appended |
| MessageQueues.SceneOuts | packages/extension/src/classes/MessageQueue.ts:70-73 | the buffered scene messages in queue order |
| MessageQueues.CollectSceneOuts | packages/extension/src/classes/MessageQueue.ts:70-73 | the loop over the queue's values sends exactly those messages |
| MessageQueues.Pending | packages/extension/src/classes/MessageQueue.ts:65-74 | a flush sends the config message first, when present, then every scene message in queue order |
| MessageQueues.CreateThenUpdateStaysCreate | packages/extension/src/classes/MessageQueue.ts:53-58 | a create followed by an update of the same scene flushes as one create with the updated scene |
| MessageQueues.LaterMessageReplaces | packages/extension/src/classes/MessageQueue.ts:52-59 | any message other than an update replaces the buffered one, and other scenes are untouched |
| MessageQueues.MessageQueue.constructor | packages/extension/src/classes/MessageQueue.ts:22-24 | not ready, nothing queued, nothing sent |
| MessageQueues.MessageQueue.SetReady | packages/extension/src/classes/MessageQueue.ts:31-38 | becoming ready sends everything pending; the queue is kept |
| MessageQueues.MessageQueue.EnqueueMessage | packages/extension/src/classes/MessageQueue.ts:46-60 | when ready, the message is sent at once. Otherwise a config message takes the single config slot and a scene message is buffered |
| MessageQueues.MessageQueue.FlushMessages | packages/extension/src/classes/MessageQueue.ts:65-74 | sends the config message then the scene messages, and clears nothing |
| MessageQueues.MessageQueue.Clear | packages/extension/src/classes/MessageQueue.ts:79-81 | empties the scene queue |
| SceneDocks.SceneDock.constructor | packages/app/src/composables/useSceneDock.ts:4-10 | nothing docked, no listeners |
| SceneDocks.SceneDock.DockScene | packages/app/src/composables/useSceneDock.ts:12-18 | a docked id changes nothing; a new id is appended and the dock listeners are told |
| SceneDocks.SceneDock.UndockScene | packages/app/src/composables/useSceneDock.ts:20-25 | an undocked id changes nothing; a docked one is removed, the order is kept and the undock listeners are told |
| SceneDocks.SceneDock.OnDockScene | packages/app/src/composables/useSceneDock.ts:27-29 | registers a dock listener |
| SceneDocks.SceneDock.OnUndockScene | packages/app/src/composables/useSceneDock.ts:31-33 | registers an undock listener |
| SceneDocks.SceneDock.IsSceneDocked | packages/app/src/composables/useSceneDock.ts:35-37 | true exactly for a docked id |
| SceneDocks.SceneDock.GetDockedSceneIds | packages/app/src/composables/useSceneDock.ts:39-41 | exactly the docked ids, each once, in docking order |
| SceneDocks.RemoveAbsentKey | packages/app/src/composables/useSceneDock.ts:21-22 | removing an id that is not docked leaves the dock as it was |
| SceneDocks.DockThenUndockRestores | packages/app/src/composables/useSceneDock.ts:12-25 | docking a new scene then undocking it restores the dock |
| Layouts.Target | packages/app/src/composables/useLayout.ts:57-75 | the node a `NodeStateOptions` names. A command slot other than open or close is the thrown error |
| Layouts.DefaultState | packages/app/src/composables/useLayout.ts:50-54 | a missing scene starts at (0, 0) with no other positions |
| Layouts.WriteAt | packages/app/src/composables/useLayout.ts:59 | a JavaScript array write past the end extends the array with holes; other cells keep their values |
| Layouts.ReadAfterWrite | packages/app/src/composables/useLayout.ts:57-103 | reading a node back after setting it gives the position just set |
| Layouts.WriteKeepsOthers | packages/app/src/composables/useLayout.ts:57-75 | setting one node's position leaves every other node's position as it was |
| Layouts.FirstWriteStartsFromDefault | packages/app/src/composables/useLayout.ts:49-55 | after the first write to a scene its scene node sits at (0, 0) and every other node is unset |
| Layouts.Loaded | packages/app/src/composables/useLayout.ts:30-33 | the saved states are loaded into a well-formed map, each under its own scene id |
| Layouts.LoadedKeys | packages/app/src/composables/useLayout.ts:31-33 | exactly the saved scene ids are loaded |
| Layouts.LoadedLastWins | packages/app/src/composables/useLayout.ts:31-33 | for a repeated scene id the last saved state wins |
| Layouts.Layout.constructor | packages/app/src/composables/useLayout.ts:25-35 | without a saved state: empty map and viewport (0, 0, zoom 1); with one: the loaded map and its viewport |
| Layouts.Layout.Snapshot | packages/app/src/composables/useLayout.ts:38-42 | the saved state: every scene state in map order, and the viewport |
| Layouts.Layout.SaveState | packages/app/src/composables/useLayout.ts:37-44 | hands the current snapshot to the host |
| Layouts.Layout.SetPosition | packages/app/src/composables/useLayout.ts:46-80 | a bad command slot is an error that changes nothing. Otherwise the scene's state (or a default) takes the position, is stored and saved, and reads back as set |
| Layouts.Layout.GetPosition | packages/app/src/composables/useLayout.ts:82-104 | an unknown scene gives undefined; a bad command slot is an error; otherwise the node's position or undefined |
| Layouts.Layout.SetViewportState | packages/app/src/composables/useLayout.ts:106-109 | stores the viewport, which then reads back, and saves the state |
| Layouts.Layout.GetViewportState | packages/app/src/composables/useLayout.ts:111-113 | the current viewport |
| LangFiles.Trim | packages/extension/src/helpers/langFileParser.ts:24 | `trim()`: the result neither starts nor ends with white space |
| LangFiles.TrimSlice | packages/extension/src/helpers/langFileParser.ts:24 | the trimmed string is the input's middle, with only white space cut on each side |
| LangFiles.TrimOfTrimmed | packages/extension/src/helpers/langFileParser.ts:32-33 | trimming a trimmed string changes nothing |
| LangFiles.IndexOf | packages/extension/src/helpers/langFileParser.ts:30 | `indexOf`: -1 iff absent, otherwise the first occurrence |
| LangFiles.Split | packages/extension/src/helpers/langFileParser.ts:20 | `split('\n')`: at least one piece, and no piece holds the separator |
| LangFiles.JoinSplit | packages/extension/src/helpers/langFileParser.ts:138 | joining the split pieces gives back the content |
| LangFiles.SplitJoin | packages/extension/src/helpers/langFileParser.ts:156 | splitting the joined lines gives back the lines |
| LangFiles.SplitWithoutSeparator | packages/extension/src/helpers/langFileParser.ts:20 | content without a separator is one piece |
| LangFiles.SplitPrefix | packages/extension/src/helpers/langFileParser.ts:20 | the first line is split off before the rest |
| LangFiles.ParsedLine | packages/extension/src/helpers/langFileParser.ts:24-35 | a recognised line yields a non-empty key without '=' |
| LangFiles.KeyOfLine | packages/extension/src/helpers/langFileParser.ts:32 | the text before the first '=' of a trimmed line, trimmed, is a non-empty key |
| LangFiles.ParsedLineSkips | packages/extension/src/helpers/langFileParser.ts:25-27 | blank lines and `#` or `//` comments yield nothing |
| LangFiles.ParsedLineNeedsEquals | packages/extension/src/helpers/langFileParser.ts:31 | a line without '=' after its first character yields nothing |
| LangFiles.ParsedLines | packages/extension/src/helpers/langFileParser.ts:22-36 | one parse result per line, in order |
| LangFiles.ParseLangFile | packages/extension/src/helpers/langFileParser.ts:18-39 | the loop over the lines builds the table the specification collects |
| LangFiles.CollectKeys | packages/extension/src/helpers/langFileParser.ts:34 | a key is in the table iff some line sets it |
| LangFiles.CollectLastWins | packages/extension/src/helpers/langFileParser.ts:34 | the last line that sets a key gives its value |
| LangFiles.CollectKeysWellFormed | packages/extension/src/helpers/langFileParser.ts:31-34 | every parsed key is non-empty and free of '=' |
| LangFiles.DecimalString | packages/extension/src/helpers/langFileParser.ts:116 | the decimal digits of an index, whose value is the index |
| LangFiles.Placeholder | packages/extension/src/helpers/langFileParser.ts:116 | `%<index>` starts with '%' and has at least one digit |
| LangFiles.ReplaceFromAbsent | packages/extension/src/helpers/langFileParser.ts:117 | with no occurrence from position k on, replacement leaves that suffix as it is |
| LangFiles.ReplaceAllAbsent | packages/extension/src/helpers/langFileParser.ts:117 | a global replace of an absent pattern changes nothing |
| LangFiles.ReplaceFromFirst | packages/extension/src/helpers/langFileParser.ts:117 | the first occurrence at or after k is replaced, and the scan resumes after it |
| LangFiles.ReplaceFromSuffix | packages/extension/src/helpers/langFileParser.ts:117 | replacing from an offset equals replacing in the suffix |
| LangFiles.ReplaceAllFirst | packages/extension/src/helpers/langFileParser.ts:117 | a global replace is the text before the first occurrence, then the replacement, then the rest replaced, without rescanning the inserted text |
| LangFiles.Resolution | packages/extension/src/helpers/langFileParser.ts:97-122 | no table gives the missing-file marker. A missing or empty value gives the missing-key marker. Otherwise the value has each `%i` replaced in turn |
| LangFiles.ResolveTranslation | packages/extension/src/helpers/langFileParser.ts:97-122 | the loop over the `with` values computes the specified resolution |
| LangFiles.ResolutionEmptyWith | packages/extension/src/helpers/langFileParser.ts:113 | an empty `with` list resolves as no list |
| LangFiles.SubstituteZeroPlaceholder | packages/extension/src/helpers/langFileParser.ts:113-118 | no values leaves the translation alone, and one value replaces `%0` |
| LangFiles.Recognised | packages/extension/src/helpers/langFileParser.ts:143-144 | flags exactly the lines whose trimmed form starts with `key=` |
| LangFiles.FirstMatch | packages/extension/src/helpers/langFileParser.ts:142-149 | the first line that sets the key, or none when no line does |
| LangFiles.FirstSet | packages/extension/src/helpers/langFileParser.ts:142-149 | the first flagged position at or after start, or none |
| LangFiles.FirstMatchIs | packages/extension/src/helpers/langFileParser.ts:142-149 | a line that sets the key with none before it is the one that is rewritten |
| LangFiles.EditedLines | packages/extension/src/helpers/langFileParser.ts:142-154 | the first matching line becomes `key=value`; without a match the line is appended |
| LangFiles.EditLines | packages/extension/src/helpers/langFileParser.ts:139-154 | the loop with early exit computes exactly the specified edit |
| LangFiles.UpdateLangContent | packages/extension/src/helpers/langFileParser.ts:137-156 | the written content is the edited lines joined with newlines |
| LangFiles.EntryLineShape | packages/extension/src/helpers/langFileParser.ts:145 | a written `key=value` line with clean key and value is already trimmed, is not a comment, and splits back into key and value |
| LangFiles.EntryLineEquals | packages/extension/src/helpers/langFileParser.ts:145 | its first '=' sits right after the key |
| LangFiles.ParsedEntryLine | packages/extension/src/helpers/langFileParser.ts:145 | parsing the written line gives the key and value back |
| LangFiles.EditThenParse | packages/extension/src/helpers/langFileParser.ts:131-162 | after writing a clean key and value, parsing the file gives that value for the key, unless a later line sets the key again |
| LangFiles.CollectAfterWrite | packages/extension/src/helpers/langFileParser.ts:34 | overwriting one parsed entry, with no later entry for that key, makes it the key's value |
| Rawtexts.IsRawtext | packages/extension/src/helpers/rawtextHelper.ts:10-17 | the four tests (truthy, `typeof` "object", a `rawtext` property, that property an array) pass exactly for an object whose `rawtext` field is an array; `undefined`, `null`, arrays and primitives fail |
| Rawtexts.ToTextValue | packages/extension/src/helpers/rawtextHelper.ts:79-91 | the kind of a JSON text field: `undefined` and `null` are missing, a string is text, a value is rawtext exactly when `isRawtext` accepts it (with the components of its array), and every other value is another value |
| Rawtexts.ResolveJsonField | packages/extension/src/helpers/rawtextHelper.ts:75-92 | the code's tests on the raw JSON value give the same text as classifying the value and resolving its kind |
| Rawtexts.TextValueRoundTrip | packages/extension/src/helpers/rawtextHelper.ts:10-17 | every text kind written as JSON (rawtext as an object holding its array of component objects) is classified back as itself |
| Rawtexts.ResolveRawtext | packages/extension/src/helpers/rawtextHelper.ts:22-38 | an empty list gives ''. Only the first component counts: a translation resolves through the table; anything else gives the invalid-rawtext marker |
| Rawtexts.CreateRawtext | packages/extension/src/helpers/rawtextHelper.ts:43-55 | one translation component for the key, with `with` only when values are present and non-empty |
| Rawtexts.GetTranslationKey | packages/extension/src/helpers/rawtextHelper.ts:60-67 | the first component's key, or null for an empty list, a keyless component or an empty key |
| Rawtexts.ResolveTextField | packages/extension/src/helpers/rawtextHelper.ts:75-92 | by kind: absent or other values give ''; a string stays; rawtext is resolved |
| Rawtexts.TranslationKeyRoundTrip | packages/extension/src/helpers/rawtextHelper.ts:43-67 | reading the key back from created rawtext gives the key |
| Rawtexts.CreatedRawtextResolves | packages/extension/src/helpers/rawtextHelper.ts:22-55 | created rawtext resolves as the key with its values does |
| DialogueMappers.FieldKey | packages/extension/src/helpers/dialogueMapper.ts:32-33 | the remembered key: the rawtext's key, and none for plain text |
| DialogueMappers.FromButtonData | packages/extension/src/helpers/dialogueMapper.ts:44-55 | empty button id, the resolved name, the commands, and the name's key |
| DialogueMappers.FromButtons | packages/extension/src/helpers/dialogueMapper.ts:20 | every button mapped, in order |
| DialogueMappers.FromSceneDataAsWritten | packages/extension/src/helpers/dialogueMapper.ts:14-39 | the code as written fails exactly on a text `{rawtext: []}` |
| DialogueMappers.EmptyRawtextTextThrows | packages/extension/src/helpers/dialogueMapper.ts:34 | a scene whose text is `{rawtext: []}` throws a TypeError |
| DialogueMappers.TextWithValues | packages/extension/src/helpers/dialogueMapper.ts:34 | for rawtext with at least one component, exactly the first component's `with` field, whatever the component; nothing for any other text |
| DialogueMappers.FromSceneData | packages/extension/src/helpers/dialogueMapper.ts:14-39 | tag, resolved name and text, commands defaulting to [], mapped buttons, and the remembered keys and `with` values |
| DialogueMappers.CorrectedAgreesWithWritten | packages/extension/src/helpers/dialogueMapper.ts:34 | the corrected mapper agrees with the code wherever that does not throw, and maps `{rawtext: []}` to '' with no key |
| DialogueMappers.StoredKey | packages/extension/src/helpers/dialogueMapper.ts:62-71 | a key is used only when present and non-empty |
| DialogueMappers.ToButtonData | packages/extension/src/helpers/dialogueMapper.ts:116-131 | a stored name key is written as rawtext; otherwise the name is written as text |
| DialogueMappers.ToSceneData | packages/extension/src/helpers/dialogueMapper.ts:60-111 | empty texts, empty command lists and no buttons are omitted. A stored key is written as rawtext (with its `with` values for the text) |
| DialogueMappers.FieldRoundTrip | packages/extension/src/helpers/dialogueMapper.ts:14-111 | a field whose resolution is non-empty and whose form is canonical is written back as read |
| DialogueMappers.ButtonRoundTrip | packages/extension/src/helpers/dialogueMapper.ts:44-131 | a button with a canonical name is written back exactly as read |
| DialogueMappers.SceneRoundTrip | packages/extension/src/helpers/dialogueMapper.ts:14-111 | a scene in canonical form is written back exactly as read |
| DialogueParsers.FromDialogue | packages/extension/src/helpers/dialogueParser.ts:40-44 | every scene of the file is mapped, in order, by the corrected scene mapper |
| DialogueParsers.ReadScenesAsWritten | packages/extension/src/helpers/dialogueParser.ts:42 | the scenes read one by one as written: the read throws iff some scene's text is rawtext with no components; otherwise every scene is mapped, in order |
| DialogueParsers.FromDialogueAsWritten | packages/extension/src/helpers/dialogueParser.ts:40-44 | `fromDialogue` as written throws iff some scene's text is `{rawtext: []}`, and otherwise reads exactly what the corrected `FromDialogue` reads |
| DialogueParsers.ToDialogue | packages/extension/src/helpers/dialogueParser.ts:46-53 | the format version and every scene written back, in order |
| DialogueParsers.ScenesKeepIds | packages/extension/src/helpers/dialogueParser.ts:40-53 | writing then reading keeps the number of scenes and each scene's id |
| DialogueParsers.DialogueRoundTrip | packages/extension/src/helpers/dialogueParser.ts:40-53 | a file whose scenes are canonical is written back exactly as read |
| DataMappers.ToVisualButton | packages/app/src/helpers/dataMapper.ts:17-24 | the button's fields plus a fresh id and the parent scene |
| DataMappers.ToVisualScene | packages/app/src/helpers/dataMapper.ts:9-15 | the scene's fields, with every button decorated in order |
| DataMappers.VisualButtonsFresh | packages/app/src/helpers/dataMapper.ts:9-24 | decorated buttons keep their content and order, point to their scene and have distinct fresh ids |
| Wrappers.OptionToSeq | packages/app/src/classes/LogicalScene.ts:116 | a possibly missing record as a list of at most one |

## Left out

- `DialogueMessageManager`, `DialogueDocument`, `DialogueEditor`, the `vscodeMessages` bridge and the settings manager are outside the modelled core. They only wire the stores to the editor host.
- `parseRawDialogue` (JSON parsing and schema validation), `findLangFile` and `loadLangFile` are left out: they are file-system and JSON-library calls. The model starts from parsed values and from the file content as a string.
- File, network and host I/O are parameters or logs:
  - `fs.readFileSync` and `writeFileSync` become the content string and the written string;
  - `setState` is a log of saved states;
  - `getState` is a constructor parameter;
  - `postMessage` is a log of posted messages;
  - the queue's send function is a log of sent messages.
  - The catch-all `false` result of `updateLangFile` on an I/O error is therefore not modelled.
- `uuidv4()` is a counter, which is what the random ids promise with high probability. Each logical scene wrapper carries an id bound, its mark on the counter: its node ids are pairwise distinct and below the bound (the visual wrapper's bound is ghost). `fromScene` and `updateScene` take their ids from a counter value, and `addSlot` and `setCommand` require the minted id to be at or above the bound, which then moves past it. The scene cache keeps every cached wrapper's bound at or below its own counter; the local `createScene` and `updateScene` accept a wrapper with any bound and raise the counter to it. They do require every wrapper cached under another id to be still well formed with its ids below the counter, so editing in place a cached wrapper other than the one being pushed back is not covered. That node ids of two different cached scenes differ is not stated.
- Listener callbacks are not run. A delivery records which listener would receive which message. Callbacks that re-enter the stores are not modelled.
- Objects are values. Aliasing between a returned slot or command and the object kept in the map is not modelled: `updateSlot`, `swapSlots` and `setCommand` return a copy of the new stored value. `MessageQueue.enqueueMessage`'s in-place rewrite of a buffered create message's scene is modelled as storing a new message.
- The `messageType` of an incoming scene message is not consulted by the scene cache; the model follows the code, which decides on the cache alone.
- `DialogueStore` keeps no separate order list and has no `resetAll`. The store follows the code: a JavaScript `Map` whose iteration order is first-insertion order.
- `MessageQueue.flushMessages` does not clear the queue or the config slot (the code never does). A later `setReady(true)` sends them again.
- LangFiles.ResolveTranslation: a `with` value is inserted literally. JavaScript's `$&`, `$1` and similar patterns in a replacement string are not interpreted.
- Prototype keys of a plain JavaScript object (for example `toString`) are not modelled. The `.lang` table is a finite map.
- A rawtext component is an object with or without a `translate` key, and either kind may carry `with` values.
- Rawtexts.ToComponent: an array element that is not an object, or whose `translate` field is not a string, is read as a component without a key. The code throws on a `null` or primitive element, and looks up a non-string key as its string form. A `with` field that is not an array of strings is read as absent; the code substitutes whatever it holds, or throws.
- JSON numbers are integers (`NaN` and fractions are not modelled). The `in` operator on an array sees only `length`; its indices and prototype properties are not modelled, and `rawtext` is none of them.
- `ConfigMessage` carries its settings as an opaque list of strings; the queue only stores and forwards it. The `VisualButton`, `VisualScene`, `RawtextObject` and `ConfigMessage` type declarations are not part of this model; their fields are taken from the code that builds them.
- `NodeStateOptions` carries the command slot as a string, so that a slot other than `open` and `close` can reach the thrown error.
- Positions and the viewport are opaque values (`real` coordinates); no arithmetic is done on them.
- `deepEqual` is structural equality of values.
- LogicalScenes.LogicalScene.DeleteSlot: a surviving slot keeps its stored `index` and `highestIndex`, as in the code. Only the returned records carry the new index and flag.

## Findings

| source | as written | input that shows it | evidently intended | confidence | as-written member | corrected member |
|---|---|---|---|---|---|---|
| packages/extension/src/helpers/dialogueMapper.ts:34 | `isRawtext(sceneData.text) && sceneData.text.rawtext[0].with` reads `.with` of `undefined` when the rawtext list is empty, so `fromSceneData` throws a TypeError | a scene whose `text` is `{"rawtext": []}` | the scene is read with text '' and no `with` values, as `resolveRawtext` and `getTranslationKey` already treat an empty list | not executed | DialogueMappers.FromSceneDataAsWritten, DialogueParsers.FromDialogueAsWritten | DialogueMappers.FromSceneData, DialogueParsers.FromDialogue |
