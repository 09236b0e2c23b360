/** The scene dock (`useSceneDock`): the set of scene ids docked beside the graph, kept in
    docking order as a JavaScript `Set` keeps it, with listeners told when a scene is docked
    or undocked. Docking a docked scene and undocking an undocked one do nothing. */
module SceneDocks {
  import opened OrderedMaps
  import opened Listeners

  class SceneDock {
    /** The docked scene ids, in the order they were docked. */
    var dockedScenes: seq<string>
    var dockListeners: seq<ListenerId>
    var undockListeners: seq<ListenerId>
    /** Every listener call made so far, in order; the message is the scene id. */
    var events: seq<Delivery<string>>

    /** A set holds each id once. */
    ghost predicate Valid()
      reads this`dockedScenes
    {
      forall i, j :: 0 <= i < j < |dockedScenes| ==> dockedScenes[i] != dockedScenes[j]
    }

    constructor ()
      ensures Valid()
      ensures dockedScenes == [] && dockListeners == [] && undockListeners == [] && events == []
    {
      dockedScenes := [];
      dockListeners := [];
      undockListeners := [];
      events := [];
    }

    /** `dockScene`: an already docked id changes nothing and tells no one; otherwise the id
        is docked after the others and every dock listener is told, once, in order. */
    method DockScene(sceneId: string)
      requires Valid()
      modifies this`dockedScenes, this`events
      ensures Valid()
      ensures sceneId in old(dockedScenes) ==> dockedScenes == old(dockedScenes) && events == old(events)
      ensures sceneId !in old(dockedScenes) ==>
        && dockedScenes == old(dockedScenes) + [sceneId]
        && events == old(events) + Deliveries(dockListeners, sceneId)
    {
      var alreadyDocked := IsSceneDocked(sceneId);
      if alreadyDocked {
        return;
      }
      dockedScenes := dockedScenes + [sceneId];
      events := Broadcast(events, dockListeners, sceneId);
    }

    /** `undockScene`: an id that is not docked changes nothing and tells no one; a docked
        one is removed, the others keep their order, and every undock listener is told. */
    method UndockScene(sceneId: string)
      requires Valid()
      modifies this`dockedScenes, this`events
      ensures Valid()
      ensures dockedScenes == RemoveKey(old(dockedScenes), sceneId)
      ensures sceneId !in dockedScenes
      ensures sceneId !in old(dockedScenes) ==> dockedScenes == old(dockedScenes) && events == old(events)
      ensures sceneId in old(dockedScenes) ==> events == old(events) + Deliveries(undockListeners, sceneId)
    {
      var wasDeleted := sceneId in dockedScenes;
      dockedScenes := RemoveKey(dockedScenes, sceneId);
      if !wasDeleted {
        RemoveAbsentKey(old(dockedScenes), sceneId);
        return;
      }
      events := Broadcast(events, undockListeners, sceneId);
    }

    /** `onDockScene`: registers a dock listener after the existing ones. */
    method OnDockScene(callback: ListenerId)
      modifies this`dockListeners
      ensures dockListeners == old(dockListeners) + [callback]
    {
      dockListeners := dockListeners + [callback];
    }

    /** `onUndockScene`: registers an undock listener after the existing ones. */
    method OnUndockScene(callback: ListenerId)
      modifies this`undockListeners
      ensures undockListeners == old(undockListeners) + [callback]
    {
      undockListeners := undockListeners + [callback];
    }

    /** `isSceneDocked`: true exactly for a docked id. */
    function IsSceneDocked(sceneId: string): (docked: bool)
      reads this`dockedScenes
      ensures docked <==> exists i :: 0 <= i < |dockedScenes| && dockedScenes[i] == sceneId
    {
      sceneId in dockedScenes
    }

    /** `getDockedSceneIds`: the docked ids in docking order, each once. */
    function GetDockedSceneIds(): (ids: seq<string>)
      reads this`dockedScenes
      requires Valid()
      ensures forall i, j :: 0 <= i < j < |ids| ==> ids[i] != ids[j]
      ensures forall id :: id in ids <==> IsSceneDocked(id)
    {
      dockedScenes
    }
  }

  /** Removing an id that is not listed leaves the list as it is. */
  lemma {:induction false} RemoveAbsentKey(keys: seq<string>, k: string)
    requires k !in keys
    ensures RemoveKey(keys, k) == keys
  {
    if keys != [] {
      RemoveAbsentKey(keys[1..], k);
    }
  }

  /** Docking then undocking a scene that was not docked restores the dock. */
  lemma {:induction false} DockThenUndockRestores(docked: seq<string>, sceneId: string)
    requires sceneId !in docked
    ensures RemoveKey(docked + [sceneId], sceneId) == docked
  {
    if docked == [] {
    } else {
      assert (docked + [sceneId])[1..] == docked[1..] + [sceneId];
      DockThenUndockRestores(docked[1..], sceneId);
    }
  }
}
