/** The messages the extension and the webview exchange about scenes. */
module SceneMessages {
  import opened SceneModel

  /** The two message types that carry a whole scene. */
  datatype GenericKind = CreateScene | UpdateScene

  /** `SceneMessage`: a create or update carrying the scene, or a delete carrying its id. */
  datatype SceneMessage =
    | GenericSceneMessage(messageType: GenericKind, sceneId: string, sceneData: Scene)
    | DeleteSceneMessage(sceneId: string)

  /** The editor settings message; the settings are carried as an opaque list of strings. */
  datatype ConfigMessage = ConfigMessage(settings: seq<string>)
}
