/** Mapping between a dialogue file's scene JSON (`scene_tag`, `npc_name`, `text`, command
    lists, buttons; text fields possibly rawtext) and the editor's scene shape. Reading a scene
    resolves its text fields and remembers their translation keys; writing one back emits a
    remembered key as rawtext instead of the resolved text. */
module DialogueMappers {
  import opened Wrappers
  import opened LangFiles
  import opened Rawtexts

  /** A button as the dialogue file holds it. */
  datatype ButtonData = ButtonData(name: TextValue, commands: seq<string>)

  /** A scene as the dialogue file holds it; absent optional fields are None or Missing. */
  datatype SceneData = SceneData(
    scene_tag: string,
    npc_name: TextValue,
    text: TextValue,
    on_open_commands: Option<seq<string>>,
    on_close_commands: Option<seq<string>>,
    buttons: Option<seq<ButtonData>>)

  /** The translation keys a mapped button remembers. */
  datatype ButtonMetadata = ButtonMetadata(nameKey: Option<string>)

  /** A button in the editor's shape. */
  datatype MappedButton = MappedButton(buttonId: string, name: string, commands: seq<string>, metadata: Option<ButtonMetadata>)

  /** The translation keys (and `with` values) a mapped scene remembers. */
  datatype SceneMetadata = SceneMetadata(npcNameKey: Option<string>, textKey: Option<string>, textWithValues: Option<seq<string>>)

  /** A scene in the editor's shape. */
  datatype MappedScene = MappedScene(
    sceneId: string,
    npcName: string,
    text: string,
    onOpenCommands: seq<string>,
    onCloseCommands: seq<string>,
    buttons: seq<MappedButton>,
    metadata: Option<SceneMetadata>)

  /** The error JavaScript throws when a property of `undefined` is read. */
  datatype MapperError = TypeError

  /** The key remembered for a text field: its translation key when it is rawtext, else null. */
  function FieldKey(value: TextValue): (key: Option<string>)
    ensures key.Some? ==> value.Rawtext?
    ensures value.Rawtext? ==> key == GetTranslationKey(value.rawtext)
  {
    if value.Rawtext? then GetTranslationKey(value.rawtext) else None
  }

  /** `fromButtonData`: the resolved name, an empty id for the editor to fill in, the
      commands, and the name's key. */
  function FromButtonData(buttonData: ButtonData, langData: Option<LangData>): (b: MappedButton)
    ensures b.buttonId == [] && b.commands == buttonData.commands
    ensures b.name == ResolveTextField(buttonData.name, langData)
    ensures b.metadata == Some(ButtonMetadata(FieldKey(buttonData.name)))
  {
    MappedButton([], ResolveTextField(buttonData.name, langData), buttonData.commands,
                 Some(ButtonMetadata(FieldKey(buttonData.name))))
  }

  /** The buttons of a scene, mapped one by one in order. */
  function FromButtons(buttons: seq<ButtonData>, langData: Option<LangData>): (mapped: seq<MappedButton>)
    ensures |mapped| == |buttons|
    ensures forall i :: 0 <= i < |buttons| ==> mapped[i] == FromButtonData(buttons[i], langData)
  {
    seq(|buttons|, i requires 0 <= i < |buttons| => FromButtonData(buttons[i], langData))
  }

  /** `fromSceneData` as written: `text.rawtext[0].with` is read whenever the text is rawtext,
      so rawtext text with no components throws. */
  function FromSceneDataAsWritten(sceneData: SceneData, langData: Option<LangData>): (r: Result<MappedScene, MapperError>)
    ensures r.Failure? <==> sceneData.text == Rawtext([])
  {
    if sceneData.text.Rawtext? && sceneData.text.rawtext == [] then Failure(TypeError)
    else Success(FromSceneData(sceneData, langData))
  }

  /** The `with` values remembered for the scene text: those of the first component, whether
      or not it has a `translate` key, when the text is rawtext and they are present (an
      empty list is kept: it is truthy), else null. */
  function TextWithValues(text: TextValue): (w: Option<seq<string>>)
    ensures w.Some? ==> text.Rawtext? && text.rawtext != [] && text.rawtext[0].with == w
    ensures text.Rawtext? && text.rawtext != [] ==> w == text.rawtext[0].with
  {
    if text.Rawtext? && text.rawtext != [] then text.rawtext[0].with else None
  }

  /** `fromSceneData`, with rawtext text that has no components remembering no `with` values:
      the id from `scene_tag`, the resolved name and text, missing command lists and buttons
      as empty lists, the buttons mapped in order, and the keys of the rawtext fields. */
  function FromSceneData(sceneData: SceneData, langData: Option<LangData>): (scene: MappedScene)
    ensures scene.sceneId == sceneData.scene_tag
    ensures scene.npcName == ResolveTextField(sceneData.npc_name, langData)
    ensures scene.text == ResolveTextField(sceneData.text, langData)
    ensures scene.onOpenCommands == sceneData.on_open_commands.GetOr([])
    ensures scene.onCloseCommands == sceneData.on_close_commands.GetOr([])
    ensures scene.buttons == FromButtons(sceneData.buttons.GetOr([]), langData)
    ensures scene.metadata == Some(SceneMetadata(FieldKey(sceneData.npc_name), FieldKey(sceneData.text), TextWithValues(sceneData.text)))
  {
    MappedScene(
      sceneData.scene_tag,
      ResolveTextField(sceneData.npc_name, langData),
      ResolveTextField(sceneData.text, langData),
      sceneData.on_open_commands.GetOr([]),
      sceneData.on_close_commands.GetOr([]),
      FromButtons(sceneData.buttons.GetOr([]), langData),
      Some(SceneMetadata(FieldKey(sceneData.npc_name), FieldKey(sceneData.text), TextWithValues(sceneData.text))))
  }

  /** The reading that throws: a scene whose text is `{ rawtext: [] }`. */
  lemma EmptyRawtextTextThrows(sceneTag: string, langData: Option<LangData>)
    ensures FromSceneDataAsWritten(SceneData(sceneTag, Missing, Rawtext([]), None, None, None), langData) == Failure(TypeError)
  {
  }

  /** Wherever the code as written does not throw, the corrected reading agrees with it, and
      on the throwing input it remembers no `with` values and an empty text. */
  lemma CorrectedAgreesWithWritten(sceneData: SceneData, langData: Option<LangData>)
    ensures FromSceneDataAsWritten(sceneData, langData).Success? ==>
              FromSceneDataAsWritten(sceneData, langData).value == FromSceneData(sceneData, langData)
    ensures sceneData.text == Rawtext([]) ==>
              var scene := FromSceneData(sceneData, langData);
              scene.text == [] && scene.metadata.value.textKey.None? && scene.metadata.value.textWithValues.None?
  {
  }

  /** The remembered key to write back: present and non-empty, else none (an absent metadata
      object counts as no key). */
  function StoredKey(key: Option<string>): (k: Option<string>)
    ensures k.Some? <==> key.Some? && key.value != []
    ensures k.Some? ==> k == key
  {
    if key.Some? && key.value != [] then key else None
  }

  /** A field written back: rawtext naming the remembered key when there is one, else the
      plain text. */
  function FieldOut(text: string, key: Option<string>, with: Option<seq<string>>): TextValue {
    match StoredKey(key)
    case Some(k) => Rawtext([Translate(k, with)])
    case None => Text(text)
  }

  /** `toButtonData`: the name as rawtext naming the remembered key when there is one, else
      the plain name (even when empty), and the commands. */
  function ToButtonData(button: MappedButton): (b: ButtonData)
    ensures b.commands == button.commands
    ensures var key := if button.metadata.Some? then button.metadata.value.nameKey else None;
            && (StoredKey(key).Some? ==> b.name == Rawtext([Translate(key.value, None)]))
            && (StoredKey(key).None? ==> b.name == Text(button.name))
  {
    var key := if button.metadata.Some? then button.metadata.value.nameKey else None;
    ButtonData(FieldOut(button.name, key, None), button.commands)
  }

  /** `toSceneData`: `scene_tag` always; `npc_name` and `text` only when non-empty, each as
      rawtext naming the remembered key when there is one (the text with its remembered
      `with` values) or else as the plain string; command lists and buttons only when
      non-empty, the buttons written back in order. */
  function ToSceneData(scene: MappedScene): (d: SceneData)
    ensures d.scene_tag == scene.sceneId
    ensures d.npc_name.Missing? <==> scene.npcName == []
    ensures d.text.Missing? <==> scene.text == []
    ensures scene.npcName != [] ==>
              d.npc_name == FieldOut(scene.npcName, if scene.metadata.Some? then scene.metadata.value.npcNameKey else None, None)
    ensures scene.text != [] ==>
              d.text == FieldOut(scene.text, if scene.metadata.Some? then scene.metadata.value.textKey else None,
                                 if scene.metadata.Some? then scene.metadata.value.textWithValues else None)
    ensures d.on_open_commands == if scene.onOpenCommands == [] then None else Some(scene.onOpenCommands)
    ensures d.on_close_commands == if scene.onCloseCommands == [] then None else Some(scene.onCloseCommands)
    ensures d.buttons.None? <==> scene.buttons == []
    ensures d.buttons.Some? ==>
              && |d.buttons.value| == |scene.buttons|
              && forall i :: 0 <= i < |scene.buttons| ==> d.buttons.value[i] == ToButtonData(scene.buttons[i])
  {
    var npcNameKey := if scene.metadata.Some? then scene.metadata.value.npcNameKey else None;
    var textKey := if scene.metadata.Some? then scene.metadata.value.textKey else None;
    var withValues := if scene.metadata.Some? then scene.metadata.value.textWithValues else None;
    SceneData(
      scene.sceneId,
      if scene.npcName != [] then FieldOut(scene.npcName, npcNameKey, None) else Missing,
      if scene.text != [] then FieldOut(scene.text, textKey, withValues) else Missing,
      if scene.onOpenCommands != [] then Some(scene.onOpenCommands) else None,
      if scene.onCloseCommands != [] then Some(scene.onCloseCommands) else None,
      if scene.buttons != [] then Some(seq(|scene.buttons|, i requires 0 <= i < |scene.buttons| => ToButtonData(scene.buttons[i])))
      else None)
  }

  /** A text field that survives reading and writing back: a non-empty plain string, or
      rawtext with one translation component whose key is non-empty (carrying `with` values
      only where the field keeps them) and whose resolution is not empty. */
  predicate StableField(value: TextValue, langData: Option<LangData>, keepsWith: bool) {
    match value
    case Text(s) => s != []
    case Rawtext(components) =>
      && |components| == 1 && components[0].Translate? && components[0].translate != []
      && (keepsWith || components[0].with.None?)
      && ResolveTextField(value, langData) != []
    case _ => false
  }

  /** A button name that survives reading and writing back: any plain string, or rawtext with
      one translation component with a non-empty key and no `with` values. */
  predicate StableName(value: TextValue) {
    match value
    case Text(_) => true
    case Rawtext(components) =>
      |components| == 1 && components[0].Translate? && components[0].translate != [] && components[0].with.None?
    case _ => false
  }

  /** Scene data that survives reading and writing back unchanged. */
  predicate StableSceneData(d: SceneData, langData: Option<LangData>) {
    && StableField(d.npc_name, langData, false)
    && StableField(d.text, langData, true)
    && d.on_open_commands.Some? && d.on_open_commands.value != []
    && d.on_close_commands.Some? && d.on_close_commands.value != []
    && d.buttons.Some? && d.buttons.value != []
    && forall i :: 0 <= i < |d.buttons.value| ==> StableName(d.buttons.value[i].name)
  }

  /** Reading and writing back a stable field gives the field. */
  lemma FieldRoundTrip(value: TextValue, langData: Option<LangData>, keepsWith: bool)
    requires StableField(value, langData, keepsWith)
    ensures var text := ResolveTextField(value, langData);
            text != [] && FieldOut(text, FieldKey(value), if keepsWith then TextWithValues(value) else None) == value
  {
    if value.Rawtext? {
      assert [Translate(value.rawtext[0].translate, value.rawtext[0].with)] == value.rawtext;
    }
  }

  /** Reading and writing back a button with a stable name gives the button. */
  lemma ButtonRoundTrip(b: ButtonData, langData: Option<LangData>)
    requires StableName(b.name)
    ensures ToButtonData(FromButtonData(b, langData)) == b
  {
    if b.name.Rawtext? {
      assert [Translate(b.name.rawtext[0].translate, None)] == b.name.rawtext;
    }
  }

  /** Writing back a scene just read from stable scene data gives that data. */
  lemma SceneRoundTrip(d: SceneData, langData: Option<LangData>)
    requires StableSceneData(d, langData)
    ensures ToSceneData(FromSceneData(d, langData)) == d
  {
    var scene := FromSceneData(d, langData);
    FieldRoundTrip(d.npc_name, langData, false);
    FieldRoundTrip(d.text, langData, true);
    var written := ToSceneData(scene);
    forall i | 0 <= i < |d.buttons.value|
      ensures written.buttons.value[i] == d.buttons.value[i]
    {
      ButtonRoundTrip(d.buttons.value[i], langData);
    }
    assert written.buttons.value == d.buttons.value;
  }
}
