/** The decoration of a scene's buttons for the graph view: each button gains a fresh node id
    and its parent scene's id. Ids come from a supply: the i-th button receives `next + i`. */
module DataMappers {
  import opened SceneModel

  /** A button decorated for the graph view. */
  datatype VisualButton = VisualButton(displayName: string, commands: seq<string>, id: Id, parentSceneId: string)

  /** A scene whose buttons are decorated. */
  datatype VisualSceneData = VisualSceneData(
    sceneId: string,
    npcName: string,
    sceneText: string,
    openCommands: seq<string>,
    closeCommands: seq<string>,
    buttons: seq<VisualButton>)

  /** `toVisualButton`: the button's fields, the fresh id and the parent scene id. */
  function ToVisualButton(button: Button, parentSceneId: string, freshId: Id): (v: VisualButton)
    ensures v.displayName == button.displayName && v.commands == button.commands
    ensures v.id == freshId && v.parentSceneId == parentSceneId
  {
    VisualButton(button.displayName, button.commands, freshId, parentSceneId)
  }

  /** `toVisualScene`: the scene's own fields unchanged and every button decorated, in
      order, with the scene's id as parent. */
  function ToVisualScene(scene: Scene, next: Id): (v: VisualSceneData)
    ensures v.sceneId == scene.sceneId && v.npcName == scene.npcName && v.sceneText == scene.sceneText
    ensures v.openCommands == scene.openCommands && v.closeCommands == scene.closeCommands
    ensures |v.buttons| == |scene.buttons|
    ensures forall i :: 0 <= i < |scene.buttons| ==> v.buttons[i] == ToVisualButton(scene.buttons[i], scene.sceneId, next + i)
  {
    VisualSceneData(scene.sceneId, scene.npcName, scene.sceneText, scene.openCommands, scene.closeCommands,
      seq(|scene.buttons|, i requires 0 <= i < |scene.buttons| => ToVisualButton(scene.buttons[i], scene.sceneId, next + i)))
  }

  /** The decorated buttons carry the scene's buttons in order, all under the scene, with ids
      that differ from one another and lie in the fresh block `[next, next + |buttons|)`. */
  lemma VisualButtonsFresh(scene: Scene, next: Id)
    ensures var v := ToVisualScene(scene, next);
            && (forall i :: 0 <= i < |v.buttons| ==>
                  && Button(v.buttons[i].displayName, v.buttons[i].commands) == scene.buttons[i]
                  && v.buttons[i].parentSceneId == scene.sceneId
                  && next <= v.buttons[i].id < next + |scene.buttons|)
            && (forall i, j :: 0 <= i < j < |v.buttons| ==> v.buttons[i].id != v.buttons[j].id)
  {
  }
}
