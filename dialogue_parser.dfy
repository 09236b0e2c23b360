/** A whole dialogue file (`format_version` and the list of scenes under
    `minecraft:npc_dialogue`) read into editor scenes and written back. */
module DialogueParsers {
  import opened Wrappers
  import opened LangFiles
  import opened Rawtexts
  import opened DialogueMappers

  /** A dialogue file. */
  datatype DialogueData = DialogueData(format_version: string, scenes: seq<SceneData>)

  /** `fromDialogue`: every scene of the file read, in order. */
  function FromDialogue(dialogueData: DialogueData, langData: Option<LangData>): (scenes: seq<MappedScene>)
    ensures |scenes| == |dialogueData.scenes|
    ensures forall i :: 0 <= i < |scenes| ==> scenes[i] == FromSceneData(dialogueData.scenes[i], langData)
  {
    seq(|dialogueData.scenes|, i requires 0 <= i < |dialogueData.scenes| => FromSceneData(dialogueData.scenes[i], langData))
  }

  /** The scenes read one by one as `fromSceneData` is written: the first scene whose text
      is rawtext with no components throws, and the whole read with it. */
  function ReadScenesAsWritten(scenes: seq<SceneData>, langData: Option<LangData>): (r: Result<seq<MappedScene>, MapperError>)
    ensures r.Failure? <==> exists i :: 0 <= i < |scenes| && scenes[i].text == Rawtext([])
    ensures r.Success? ==> |r.value| == |scenes|
    ensures r.Success? ==> forall i :: 0 <= i < |scenes| ==> r.value[i] == FromSceneData(scenes[i], langData)
  {
    if scenes == [] then Success([])
    else
      match FromSceneDataAsWritten(scenes[0], langData)
      case Failure(e) => Failure(e)
      case Success(first) =>
        match ReadScenesAsWritten(scenes[1..], langData)
        case Failure(e) =>
          assert forall i :: 0 <= i < |scenes| - 1 ==> scenes[1..][i] == scenes[i + 1];
          Failure(e)
        case Success(rest) =>
          CorrectedAgreesWithWritten(scenes[0], langData);
          assert forall i :: 1 <= i < |scenes| ==> scenes[i] == scenes[1..][i - 1];
          Success([first] + rest)
  }

  /** `fromDialogue` as written: it throws exactly when some scene's text is rawtext with no
      components, and otherwise reads what the corrected `fromDialogue` reads. */
  function FromDialogueAsWritten(dialogueData: DialogueData, langData: Option<LangData>): (r: Result<seq<MappedScene>, MapperError>)
    ensures r.Failure? <==> exists i :: 0 <= i < |dialogueData.scenes| && dialogueData.scenes[i].text == Rawtext([])
    ensures r.Success? ==> r.value == FromDialogue(dialogueData, langData)
  {
    ReadScenesAsWritten(dialogueData.scenes, langData)
  }

  /** `toDialogue`: the given format version and every scene written back, in order. */
  function ToDialogue(allScenes: seq<MappedScene>, formatVersion: string): (d: DialogueData)
    ensures d.format_version == formatVersion
    ensures |d.scenes| == |allScenes|
    ensures forall i :: 0 <= i < |allScenes| ==> d.scenes[i] == ToSceneData(allScenes[i])
  {
    DialogueData(formatVersion, seq(|allScenes|, i requires 0 <= i < |allScenes| => ToSceneData(allScenes[i])))
  }

  /** Writing scenes to a file and reading it back keeps the number of scenes and each
      scene's id at its position. */
  lemma ScenesKeepIds(allScenes: seq<MappedScene>, formatVersion: string, langData: Option<LangData>)
    ensures |FromDialogue(ToDialogue(allScenes, formatVersion), langData)| == |allScenes|
    ensures forall i :: 0 <= i < |allScenes| ==>
              FromDialogue(ToDialogue(allScenes, formatVersion), langData)[i].sceneId == allScenes[i].sceneId
  {
  }

  /** Reading a file whose scenes are all stable and writing it back with its own format
      version gives the file. */
  lemma DialogueRoundTrip(dialogueData: DialogueData, langData: Option<LangData>)
    requires forall i :: 0 <= i < |dialogueData.scenes| ==> StableSceneData(dialogueData.scenes[i], langData)
    ensures ToDialogue(FromDialogue(dialogueData, langData), dialogueData.format_version) == dialogueData
  {
    var written := ToDialogue(FromDialogue(dialogueData, langData), dialogueData.format_version);
    forall i | 0 <= i < |dialogueData.scenes|
      ensures written.scenes[i] == dialogueData.scenes[i]
    {
      SceneRoundTrip(dialogueData.scenes[i], langData);
    }
    assert written.scenes == dialogueData.scenes;
  }
}
