/** The webview's scene cache (`useDialogueData`): one LogicalScene per scene id. Messages from
    the extension create, reconcile or drop the cached scenes and tell the listeners; local
    edits change the cache and, inside the editor webview, post the change to the extension
    without telling the listeners. */
module DialogueDataCache {
  import opened Wrappers
  import opened OrderedMaps
  import opened SceneModel
  import opened SceneNodes
  import opened SceneMessages
  import opened Listeners
  import opened LogicalScenes

  /** What the cache's listeners receive. */
  datatype SceneEvent =
    | SceneCreated(sceneId: string, scene: LogicalScene)
    | SceneUpdated(sceneId: string, scene: LogicalScene)
    | SceneDeleted(sceneId: string, children: seq<Id>)

  /** The child node ids a delete reports: the command group ids, then the slot ids, each in
      its map's order. */
  function ChildIds(scene: LogicalScene): (ids: seq<Id>)
    reads scene
    requires scene.Valid()
    ensures |ids| == |scene.commandMap.keys| + |scene.buttonMap.keys|
    ensures forall j :: 0 <= j < |scene.commandMap.keys| ==> ids[j] == scene.commandMap.entries[scene.commandMap.keys[j]].id
    ensures forall j :: 0 <= j < |scene.buttonMap.keys| ==>
              ids[|scene.commandMap.keys| + j] == scene.buttonMap.entries[scene.buttonMap.keys[j]].id
  {
    var commands := scene.GetCommands();
    var slots := scene.GetSlots();
    seq(|commands|, j requires 0 <= j < |commands| => commands[j].id)
      + seq(|slots|, j requires 0 <= j < |slots| => slots[j].id)
  }

  /** Listing the group ids of a command map and then the slot ids of a slot map, both in
      map order, lists no id twice when the node ids are unique. */
  lemma ListedIdsDistinct(groups: CommandMap, slots: SlotMap, bound: Id, ids: seq<Id>)
    requires groups.Valid() && slots.Valid() && NodeIdsFresh(slots, groups, bound)
    requires |ids| == |groups.keys| + |slots.keys|
    requires forall j :: 0 <= j < |groups.keys| ==> ids[j] == groups.entries[groups.keys[j]].id
    requires forall j :: 0 <= j < |slots.keys| ==> ids[|groups.keys| + j] == slots.entries[slots.keys[j]].id
    ensures forall a, b :: 0 <= a < b < |ids| ==> ids[a] != ids[b]
  {
    var g := |groups.keys|;
    forall a, b | 0 <= a < b < |ids|
      ensures ids[a] != ids[b]
    {
      if b < g {
        var ka, kb := groups.keys[a], groups.keys[b];
        assert ka in groups.entries && kb in groups.entries && ka != kb;
        assert {ka, kb} == {Open, Close};
      } else if a < g {
        assert ids[b] == slots.entries[slots.keys[b - g]].id;
        assert groups.keys[a] in groups.entries && slots.keys[b - g] in slots.entries;
        assert SlotGroupApart(slots, groups, slots.keys[b - g], groups.keys[a]);
      } else {
        assert ids[a] == slots.entries[slots.keys[a - g]].id && ids[b] == slots.entries[slots.keys[b - g]].id;
        assert slots.keys[a - g] in slots.entries && slots.keys[b - g] in slots.entries;
        assert SlotsApart(slots, slots.keys[a - g], slots.keys[b - g]);
      }
    }
  }

  /** No node is reported twice by a delete: the child ids are pairwise distinct. */
  lemma ChildIdsDistinct(scene: LogicalScene)
    requires scene.Valid()
    ensures forall a, b :: 0 <= a < b < |ChildIds(scene)| ==> ChildIds(scene)[a] != ChildIds(scene)[b]
  {
    ListedIdsDistinct(scene.commandMap, scene.buttonMap, scene.idBound, ChildIds(scene));
  }

  /** The scene objects a cache map holds. */
  ghost function Scenes(m: OrderedMap<string, LogicalScene>): set<LogicalScene> {
    set id | id in m.entries :: m.entries[id]
  }

  /** Each cached scene is stored under its own id, is itself consistent, and holds only
      ids below `bound`. */
  ghost predicate CacheValid(m: OrderedMap<string, LogicalScene>, bound: Id)
    reads Scenes(m)
  {
    && m.Valid()
    && forall id :: id in m.entries ==>
         m.entries[id].sceneId == id && m.entries[id].Valid() && m.entries[id].idBound <= bound
  }

  /** The scene objects a cache map holds under ids other than `sceneId`. */
  ghost function ScenesBesides(m: OrderedMap<string, LogicalScene>, sceneId: string): set<LogicalScene> {
    set id | id in m.entries && id != sceneId :: m.entries[id]
  }

  /** The cache is consistent, with ids below `bound`, everywhere except possibly under
      `sceneId`; the object cached there may have been edited since. */
  ghost predicate CacheValidBesides(m: OrderedMap<string, LogicalScene>, bound: Id, sceneId: string)
    reads ScenesBesides(m, sceneId)
  {
    && m.Valid()
    && forall id :: id in m.entries && id != sceneId ==>
         m.entries[id].sceneId == id && m.entries[id].Valid() && m.entries[id].idBound <= bound
  }

  /** Caching a consistent scene under its own id, with the bound raised to cover its ids,
      makes the cache consistent again, whatever was cached under that id before. */
  lemma CacheValidPut(m: OrderedMap<string, LogicalScene>, low: Id, bound: Id, scene: LogicalScene)
    requires CacheValidBesides(m, low, scene.sceneId) && low <= bound
    requires scene.Valid() && scene.idBound <= bound
    ensures CacheValid(m.Set(scene.sceneId, scene), bound)
  {
    var updated := m.Set(scene.sceneId, scene);
    forall id | id in updated.entries
      ensures updated.entries[id].sceneId == id && updated.entries[id].Valid() && updated.entries[id].idBound <= bound
    {
      if id != scene.sceneId {
        assert updated.entries[id] == m.entries[id];
      }
    }
  }

  /** Dropping an id keeps the cache consistent. */
  lemma CacheValidDelete(m: OrderedMap<string, LogicalScene>, bound: Id, sceneId: string)
    requires CacheValid(m, bound)
    ensures CacheValid(m.Delete(sceneId), bound)
  {
  }

  /** `scene` is what `LogicalScene.fromScene` builds from `sceneData` with ids from `next`. */
  ghost predicate BuiltFrom(scene: LogicalScene, sceneData: Scene, next: Id)
    reads scene
  {
    && scene.Valid()
    && scene.scene == sceneData && scene.sceneId == sceneData.sceneId
    && scene.buttonMap == InitialSlots(true, sceneData, next, |sceneData.buttons|)
    && scene.commandMap == InitialCommands(sceneData, next + |sceneData.buttons|)
  }

  /** `updated` is what `LogicalScene.updateScene` makes of `existing` and `sceneData` with
      ids from `next`, change records included. */
  ghost predicate ReconciledFrom(updated: LogicalScene, existing: LogicalScene, sceneData: Scene, next: Id)
    reads updated, existing
  {
    && updated.Valid()
    && updated.scene == sceneData && updated.sceneId == sceneData.sceneId
    && updated.buttonMap == ReconciledSlots(true, existing.buttonMap, sceneData, next, SCENE_MAX_BUTTONS)
    && updated.commandMap == ReconciledCommands(existing.commandMap, sceneData, next)
    && updated.lastButtonChanges == SlotRecords(true, existing.scene, existing.buttonMap, sceneData, next, SCENE_MAX_BUTTONS)
    && updated.lastCommandChanges == CommandRecords(existing.scene, existing.commandMap, sceneData, next)
  }

  class DialogueData {
    var scenesMap: OrderedMap<string, LogicalScene>
    var createListeners: seq<ListenerId>
    var updateListeners: seq<ListenerId>
    var deleteListeners: seq<ListenerId>
    /** Every listener call made so far, in order. */
    var events: seq<Delivery<SceneEvent>>
    /** Every message posted to the extension so far, in order. */
    var posted: seq<SceneMessage>
    /** The id supply: ids from `nextId` on have never been handed out; every cached scene's
        id bound is at or below it. */
    var nextId: Id
    /** Whether the page runs inside the editor webview (`inWebview()`). */
    const inWebview: bool

    /** Each cached scene is stored under its own id, is itself consistent, and holds only
        ids the supply has handed out. */
    ghost predicate Valid()
      reads this`scenesMap, this`nextId, Scenes(scenesMap)
    {
      CacheValid(scenesMap, nextId)
    }

    constructor (inWebview: bool, firstId: Id)
      ensures Valid()
      ensures this.inWebview == inWebview && nextId == firstId
      ensures scenesMap == Empty() && events == [] && posted == []
      ensures createListeners == [] && updateListeners == [] && deleteListeners == []
    {
      this.inWebview := inWebview;
      nextId := firstId;
      scenesMap := Empty();
      createListeners := [];
      updateListeners := [];
      deleteListeners := [];
      events := [];
      posted := [];
    }

    /** `getScene`: the cached scene, or null for an unknown id. */
    function GetScene(sceneId: string): (r: Option<LogicalScene>)
      reads this`scenesMap
      ensures r.Some? <==> sceneId in scenesMap.entries
      ensures r.Some? ==> r.value == scenesMap.entries[sceneId]
    {
      scenesMap.Get(sceneId)
    }

    /** Caches `scene` under its own id, replacing whatever was cached there, and moves the
        id supply past the ids it holds. */
    method Cache(scene: LogicalScene)
      requires CacheValidBesides(scenesMap, nextId, scene.sceneId) && scene.Valid()
      modifies this`scenesMap, this`nextId
      ensures Valid()
      ensures scenesMap == old(scenesMap).Set(scene.sceneId, scene)
      ensures nextId == if scene.idBound > old(nextId) then scene.idBound else old(nextId)
    {
      var bound := if scene.idBound > nextId then scene.idBound else nextId;
      CacheValidPut(scenesMap, nextId, bound, scene);
      scenesMap, nextId := scenesMap.Set(scene.sceneId, scene), bound;
    }

    /** `createScene` (a local edit): caches the scene under its id, replacing whatever was
        cached there, and, in the webview, posts a create message carrying its raw scene; no
        listener is told. The scene may be any consistent one, a wrapper built here or a
        cached one edited in place; the id supply moves past the ids it holds. */
    method CreateScene(scene: LogicalScene)
      requires CacheValidBesides(scenesMap, nextId, scene.sceneId) && scene.Valid()
      modifies this`scenesMap, this`posted, this`nextId
      ensures Valid()
      ensures scenesMap == old(scenesMap).Set(scene.sceneId, scene)
      ensures posted == old(posted) + (if inWebview then [GenericSceneMessage(GenericKind.CreateScene, scene.sceneId, scene.scene)] else [])
      ensures nextId == if scene.idBound > old(nextId) then scene.idBound else old(nextId)
    {
      Cache(scene);
      if inWebview {
        posted := posted + [GenericSceneMessage(GenericKind.CreateScene, scene.sceneId, scene.ToScene())];
      }
    }

    /** `updateScene` (a local edit): as `createScene`, with an update message. */
    method UpdateScene(scene: LogicalScene)
      requires CacheValidBesides(scenesMap, nextId, scene.sceneId) && scene.Valid()
      modifies this`scenesMap, this`posted, this`nextId
      ensures Valid()
      ensures scenesMap == old(scenesMap).Set(scene.sceneId, scene)
      ensures posted == old(posted) + (if inWebview then [GenericSceneMessage(GenericKind.UpdateScene, scene.sceneId, scene.scene)] else [])
      ensures nextId == if scene.idBound > old(nextId) then scene.idBound else old(nextId)
    {
      Cache(scene);
      if inWebview {
        posted := posted + [GenericSceneMessage(GenericKind.UpdateScene, scene.sceneId, scene.ToScene())];
      }
    }

    /** `deleteScene` (a local edit): drops the id from the cache and, in the webview, posts a
        delete message, whether or not the id was cached; no listener is told. */
    method DeleteScene(sceneId: string)
      requires Valid()
      modifies this`scenesMap, this`posted
      ensures Valid()
      ensures scenesMap == old(scenesMap).Delete(sceneId)
      ensures posted == old(posted) + (if inWebview then [DeleteSceneMessage(sceneId)] else [])
    {
      scenesMap := scenesMap.Delete(sceneId);
      if inWebview {
        posted := posted + [DeleteSceneMessage(sceneId)];
      }
    }

    /** `onSceneCreate`: registers a create listener after the existing ones. */
    method OnSceneCreate(callback: ListenerId)
      modifies this`createListeners
      ensures createListeners == old(createListeners) + [callback]
    {
      createListeners := createListeners + [callback];
    }

    /** `onSceneUpdate`: registers an update listener after the existing ones. */
    method OnSceneUpdate(callback: ListenerId)
      modifies this`updateListeners
      ensures updateListeners == old(updateListeners) + [callback]
    {
      updateListeners := updateListeners + [callback];
    }

    /** `onSceneDelete`: registers a delete listener after the existing ones. */
    method OnSceneDelete(callback: ListenerId)
      modifies this`deleteListeners
      ensures deleteListeners == old(deleteListeners) + [callback]
    {
      deleteListeners := deleteListeners + [callback];
    }

    /** The last step of the inbound handler: the create listeners (`isNew`) or the update
        listeners are told about the scene, then it is cached under its own id. */
    method CacheAndNotify(scene: LogicalScene, isNew: bool)
      requires Valid() && scene.Valid() && scene.idBound <= nextId
      modifies this`scenesMap, this`events, this`nextId
      ensures Valid()
      ensures scenesMap == old(scenesMap).Set(scene.sceneId, scene) && nextId == old(nextId)
      ensures isNew ==> events == old(events) + Deliveries(createListeners, SceneCreated(scene.sceneId, scene))
      ensures !isNew ==> events == old(events) + Deliveries(updateListeners, SceneUpdated(scene.sceneId, scene))
    {
      NotifyListeners(scene, isNew);
      Cache(scene);
    }

    /** The create listeners (`isNew`) or the update listeners are told about the scene, in
        registration order. */
    method NotifyListeners(scene: LogicalScene, isNew: bool)
      modifies this`events
      ensures isNew ==> events == old(events) + Deliveries(createListeners, SceneCreated(scene.sceneId, scene))
      ensures !isNew ==> events == old(events) + Deliveries(updateListeners, SceneUpdated(scene.sceneId, scene))
    {
      if isNew {
        events := Broadcast(events, createListeners, SceneCreated(scene.sceneId, scene));
      } else {
        events := Broadcast(events, updateListeners, SceneUpdated(scene.sceneId, scene));
      }
    }

    /** The branch of the inbound handler for a scene id not in the cache: a fresh
        LogicalScene with ids from the supply, cached under its own id, and the create
        listeners told. */
    method CacheNewScene(sceneData: Scene) returns (created: LogicalScene)
      requires Valid()
      modifies this`scenesMap, this`events, this`nextId
      ensures Valid()
      ensures fresh(created) && BuiltFrom(created, sceneData, old(nextId))
      ensures scenesMap == old(scenesMap).Set(sceneData.sceneId, created)
      ensures events == old(events) + Deliveries(createListeners, SceneCreated(sceneData.sceneId, created))
      ensures nextId == old(nextId) + |sceneData.buttons| + 2
    {
      var first := nextId;
      nextId := nextId + |sceneData.buttons| + 2;
      created := LogicalScene.FromScene(sceneData, first);
      CacheAndNotify(created, true);
      assert BuiltFrom(created, sceneData, first);
    }

    /** The branch of the inbound handler for a cached scene: the reconciliation of the
        cached scene with the message's scene (ids from the supply), cached in its place, and
        the update listeners told; nothing changes when the reconciliation throws. */
    method ReconcileCachedScene(existing: LogicalScene, sceneData: Scene) returns (r: Result<LogicalScene, SceneError>)
      requires Valid() && existing.Valid() && existing.idBound <= nextId
      modifies this`scenesMap, this`events, this`nextId
      ensures Valid()
      ensures existing.sceneId != sceneData.sceneId ==>
        r == Failure(IdentityMismatch) && scenesMap == old(scenesMap) && events == old(events) && nextId == old(nextId)
      ensures existing.sceneId == sceneData.sceneId ==>
        && r.Success? && fresh(r.value) && ReconciledFrom(r.value, existing, sceneData, old(nextId))
        && scenesMap == old(scenesMap).Set(sceneData.sceneId, r.value)
        && events == old(events) + Deliveries(updateListeners, SceneUpdated(sceneData.sceneId, r.value))
        && nextId == old(nextId) + SCENE_MAX_BUTTONS + 2
    {
      r := LogicalScene.UpdateScene(existing, sceneData, nextId);
      if r.Failure? {
        return;
      }
      nextId := nextId + SCENE_MAX_BUTTONS + 2;
      CacheAndNotify(r.value, false);
    }

    /** The inbound message handler, for a create or update message (the message type is not
        consulted): a scene id not in the cache gets a fresh LogicalScene and the create
        listeners are told; a cached one is reconciled with the message's scene and the update
        listeners are told. The reconciliation throws, and nothing changes, when the scene
        inside the message has a different id from the message. */
    method HandleSceneMessage(messageType: GenericKind, sceneId: string, sceneData: Scene) returns (error: Option<SceneError>)
      requires Valid()
      modifies this`scenesMap, this`events, this`nextId
      ensures Valid()
      ensures sceneId !in old(scenesMap.entries) ==>
        && error.None?
        && sceneData.sceneId in scenesMap.entries
        && var created := scenesMap.entries[sceneData.sceneId];
           && fresh(created) && BuiltFrom(created, sceneData, old(nextId))
           && scenesMap == old(scenesMap).Set(sceneData.sceneId, created)
           && events == old(events) + Deliveries(createListeners, SceneCreated(sceneData.sceneId, created))
           && nextId == old(nextId) + |sceneData.buttons| + 2
      ensures sceneId in old(scenesMap.entries) && sceneData.sceneId != sceneId ==>
        && error == Some(IdentityMismatch)
        && scenesMap == old(scenesMap) && events == old(events) && nextId == old(nextId)
      ensures sceneId in old(scenesMap.entries) && sceneData.sceneId == sceneId ==>
        && error.None?
        && sceneId in scenesMap.entries
        && var updated := scenesMap.entries[sceneId];
           && fresh(updated) && ReconciledFrom(updated, old(scenesMap.entries[sceneId]), sceneData, old(nextId))
           && scenesMap == old(scenesMap).Set(sceneId, updated)
           && events == old(events) + Deliveries(updateListeners, SceneUpdated(sceneId, updated))
           && nextId == old(nextId) + SCENE_MAX_BUTTONS + 2
    {
      var existingScene := scenesMap.Get(sceneId);
      if existingScene.None? {
        var created := CacheNewScene(sceneData);
        error := None;
      } else {
        var result := ReconcileCachedScene(existingScene.value, sceneData);
        error := if result.Failure? then Some(result.error) else None;
      }
    }

    /** The inbound message handler, for a delete message: an id not in the cache is ignored;
        a cached scene's command group ids and then its slot ids go to the delete listeners,
        and the scene leaves the cache. */
    method HandleDeleteMessage(sceneId: string)
      requires Valid()
      modifies this`scenesMap, this`events
      ensures Valid()
      ensures sceneId !in old(scenesMap.entries) ==> scenesMap == old(scenesMap) && events == old(events)
      ensures sceneId in old(scenesMap.entries) ==>
        && scenesMap == old(scenesMap).Delete(sceneId)
        && events == old(events) + Deliveries(deleteListeners, SceneDeleted(sceneId, ChildIds(old(scenesMap.entries[sceneId]))))
    {
      var sceneToDelete := scenesMap.Get(sceneId);
      if sceneToDelete.None? {
        return;
      }
      var childIds := ChildIds(sceneToDelete.value);
      CacheValidDelete(scenesMap, nextId, sceneId);
      events := Broadcast(events, deleteListeners, SceneDeleted(sceneId, childIds));
      scenesMap := scenesMap.Delete(sceneId);
    }

    /** The inbound message handler: dispatches on the message type. */
    method HandleMessage(message: SceneMessage) returns (error: Option<SceneError>)
      requires Valid()
      modifies this`scenesMap, this`events, this`nextId
      ensures Valid()
      ensures message.GenericSceneMessage? && message.sceneId !in old(scenesMap.entries) ==>
        && error.None?
        && message.sceneData.sceneId in scenesMap.entries
        && var created := scenesMap.entries[message.sceneData.sceneId];
           && fresh(created) && BuiltFrom(created, message.sceneData, old(nextId))
           && scenesMap == old(scenesMap).Set(message.sceneData.sceneId, created)
           && events == old(events) + Deliveries(createListeners, SceneCreated(message.sceneData.sceneId, created))
           && nextId == old(nextId) + |message.sceneData.buttons| + 2
      ensures message.GenericSceneMessage? && message.sceneId in old(scenesMap.entries)
              && message.sceneData.sceneId != message.sceneId ==>
        && error == Some(IdentityMismatch)
        && scenesMap == old(scenesMap) && events == old(events) && nextId == old(nextId)
      ensures message.GenericSceneMessage? && message.sceneId in old(scenesMap.entries)
              && message.sceneData.sceneId == message.sceneId ==>
        && error.None?
        && message.sceneId in scenesMap.entries
        && var updated := scenesMap.entries[message.sceneId];
           && fresh(updated) && ReconciledFrom(updated, old(scenesMap.entries[message.sceneId]), message.sceneData, old(nextId))
           && scenesMap == old(scenesMap).Set(message.sceneId, updated)
           && events == old(events) + Deliveries(updateListeners, SceneUpdated(message.sceneId, updated))
           && nextId == old(nextId) + SCENE_MAX_BUTTONS + 2
      ensures message.DeleteSceneMessage? ==> error.None? && nextId == old(nextId)
      ensures message.DeleteSceneMessage? && message.sceneId !in old(scenesMap.entries) ==>
        scenesMap == old(scenesMap) && events == old(events)
      ensures message.DeleteSceneMessage? && message.sceneId in old(scenesMap.entries) ==>
        && scenesMap == old(scenesMap).Delete(message.sceneId)
        && events == old(events) + Deliveries(deleteListeners, SceneDeleted(message.sceneId, ChildIds(old(scenesMap.entries[message.sceneId]))))
      ensures error.Some? ==> scenesMap == old(scenesMap) && events == old(events)
    {
      match message
      case GenericSceneMessage(messageType, sceneId, sceneData) =>
        error := HandleSceneMessage(messageType, sceneId, sceneData);
      case DeleteSceneMessage(sceneId) =>
        HandleDeleteMessage(sceneId);
        error := None;
    }
  }
}
