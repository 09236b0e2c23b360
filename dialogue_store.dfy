/** The extension's scene store (`DialogueStore`): the current scenes keyed by scene id, in
    first-insertion order, with listeners told about every create, update and delete together
    with where the change came from. Writing a scene equal to the stored one is an echo and is
    swallowed silently. */
module DialogueStores {
  import opened Wrappers
  import opened OrderedMaps
  import opened SceneModel
  import opened SceneMessages
  import opened Listeners

  /** Where a store update came from. */
  datatype StoreUpdateSource = Extension | Webview

  /** What the store's listeners receive: a scene message tagged with its source. */
  datatype StoreMessage =
    | StoreGenericMessage(messageSource: StoreUpdateSource, messageType: GenericKind, sceneData: Scene, sceneId: string)
    | StoreDeleteMessage(messageSource: StoreUpdateSource, sceneId: string)

  class DialogueStore {
    var dialogueMap: OrderedMap<string, Scene>
    var createListeners: seq<ListenerId>
    var updateListeners: seq<ListenerId>
    var deleteListeners: seq<ListenerId>
    /** Every listener call made so far, in order. */
    var delivered: seq<Delivery<StoreMessage>>

    /** Each scene is stored under its own id. */
    ghost predicate Valid()
      reads this`dialogueMap
    {
      && dialogueMap.Valid()
      && forall id :: id in dialogueMap.entries ==> dialogueMap.entries[id].sceneId == id
    }

    constructor ()
      ensures Valid()
      ensures dialogueMap == Empty()
      ensures createListeners == [] && updateListeners == [] && deleteListeners == []
      ensures delivered == []
    {
      dialogueMap := Empty();
      createListeners := [];
      updateListeners := [];
      deleteListeners := [];
      delivered := [];
    }

    /** `onSceneCreate`: registers a create listener after the existing ones. */
    method OnSceneCreate(callback: ListenerId)
      modifies this`createListeners
      ensures createListeners == old(createListeners) + [callback]
    {
      createListeners := createListeners + [callback];
    }

    /** `onSceneUpdate`: registers an update listener after the existing ones. */
    method OnSceneUpdate(callback: ListenerId)
      modifies this`updateListeners
      ensures updateListeners == old(updateListeners) + [callback]
    {
      updateListeners := updateListeners + [callback];
    }

    /** `onSceneDelete`: registers a delete listener after the existing ones. */
    method OnSceneDelete(callback: ListenerId)
      modifies this`deleteListeners
      ensures deleteListeners == old(deleteListeners) + [callback]
    {
      deleteListeners := deleteListeners + [callback];
    }

    /** `upsertScene`: a scene equal to the stored one changes nothing and tells no one;
        otherwise the scene is stored under its id (a new id goes last, a known id keeps its
        place) and the create listeners (new id) or the update listeners (known id) are told,
        in registration order, with the given source. */
    method UpsertScene(source: StoreUpdateSource, scene: Scene)
      requires Valid()
      modifies this`dialogueMap, this`delivered
      ensures Valid()
      ensures scene.sceneId in old(dialogueMap.entries) && old(dialogueMap.entries[scene.sceneId]) == scene ==>
        dialogueMap == old(dialogueMap) && delivered == old(delivered)
      ensures scene.sceneId !in old(dialogueMap.entries) ==>
        && dialogueMap == old(dialogueMap).Set(scene.sceneId, scene)
        && delivered == old(delivered) + Deliveries(createListeners, StoreGenericMessage(source, CreateScene, scene, scene.sceneId))
      ensures scene.sceneId in old(dialogueMap.entries) && old(dialogueMap.entries[scene.sceneId]) != scene ==>
        && dialogueMap == old(dialogueMap).Set(scene.sceneId, scene)
        && delivered == old(delivered) + Deliveries(updateListeners, StoreGenericMessage(source, UpdateScene, scene, scene.sceneId))
    {
      var sceneTag := scene.sceneId;
      var existingScene := dialogueMap.Get(sceneTag);
      var isNew := existingScene.None?;
      var isIdentical := existingScene == Some(scene);
      if isIdentical {
        return;
      }
      dialogueMap := dialogueMap.Set(sceneTag, scene);
      if isNew {
        var createSceneMessage := StoreGenericMessage(source, CreateScene, scene, sceneTag);
        delivered := Broadcast(delivered, createListeners, createSceneMessage);
      } else {
        var updateSceneMessage := StoreGenericMessage(source, UpdateScene, scene, sceneTag);
        delivered := Broadcast(delivered, updateListeners, updateSceneMessage);
      }
    }

    /** `deleteScene`: an absent id changes nothing and tells no one; a present one is removed
        and the delete listeners are told the id and the source. */
    method DeleteScene(source: StoreUpdateSource, sceneTag: string)
      requires Valid()
      modifies this`dialogueMap, this`delivered
      ensures Valid()
      ensures dialogueMap == old(dialogueMap).Delete(sceneTag)
      ensures sceneTag !in old(dialogueMap.entries) ==> delivered == old(delivered)
      ensures sceneTag in old(dialogueMap.entries) ==>
        delivered == old(delivered) + Deliveries(deleteListeners, StoreDeleteMessage(source, sceneTag))
    {
      var elementExisted := sceneTag in dialogueMap.entries;
      dialogueMap := dialogueMap.Delete(sceneTag);
      if !elementExisted {
        return;
      }
      var deleteMessage := StoreDeleteMessage(source, sceneTag);
      delivered := Broadcast(delivered, deleteListeners, deleteMessage);
    }

    /** `getScenes`: the stored scenes in first-insertion order. */
    function GetScenes(): (scenes: seq<Scene>)
      reads this
      requires Valid()
      ensures |scenes| == |dialogueMap.keys|
      ensures forall i :: 0 <= i < |scenes| ==>
        scenes[i] == dialogueMap.entries[dialogueMap.keys[i]] && scenes[i].sceneId == dialogueMap.keys[i]
    {
      dialogueMap.Values()
    }
  }

  /** Replacing a stored scene keeps every scene's position in `getScenes`: only the replaced
      entry's value changes, and a new scene id is listed last after all the old ones. */
  lemma UpsertKeepsListing(m: OrderedMap<string, Scene>, scene: Scene)
    requires m.Valid()
    ensures scene.sceneId in m.entries ==>
      && m.Set(scene.sceneId, scene).keys == m.keys
      && forall i :: 0 <= i < |m.keys| ==>
           m.Set(scene.sceneId, scene).Values()[i] == if m.keys[i] == scene.sceneId then scene else m.Values()[i]
    ensures scene.sceneId !in m.entries ==> m.Set(scene.sceneId, scene).Values() == m.Values() + [scene]
  {
    if scene.sceneId !in m.entries {
      SetNewAppendsValue(m, scene.sceneId, scene);
    }
  }
}
