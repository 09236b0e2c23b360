/** The extension's outbound queue to the webview (`MessageQueue`). Until the webview reports
    ready, scene messages are buffered one per scene id (a later one replaces the earlier one,
    except that an update to a scene whose creation is still buffered stays a creation) and
    the config message occupies a single slot; once ready, everything is sent at once and new
    messages go straight out. */
module MessageQueues {
  import opened Wrappers
  import opened OrderedMaps
  import opened SceneModel
  import opened SceneMessages

  /** A message handed to the send function. */
  datatype OutboundMessage = SceneOut(scene: SceneMessage) | ConfigOut(config: ConfigMessage)

  /** The message a scene's buffer slot holds after `message` arrives: an update that follows
      a buffered creation becomes a creation carrying the update's scene; anything else
      replaces what was there. */
  function Coalesced(existing: Option<SceneMessage>, message: SceneMessage): (m: SceneMessage)
    ensures m.sceneId == message.sceneId
    ensures existing.Some? && existing.value.GenericSceneMessage? && existing.value.messageType == CreateScene
            && message.GenericSceneMessage? && message.messageType == UpdateScene
            ==> m == GenericSceneMessage(CreateScene, message.sceneId, message.sceneData)
    ensures !(existing.Some? && existing.value.GenericSceneMessage? && existing.value.messageType == CreateScene)
            ==> m == message
    ensures !(message.GenericSceneMessage? && message.messageType == UpdateScene) ==> m == message
  {
    match existing
    case Some(GenericSceneMessage(CreateScene, _, _)) =>
      (match message
       case GenericSceneMessage(UpdateScene, id, data) => GenericSceneMessage(CreateScene, id, data)
       case _ => message)
    case _ => message
  }

  /** The scene buffer after a scene message arrives while the queue is not ready. */
  function Buffered(queue: OrderedMap<string, SceneMessage>, message: SceneMessage): (r: OrderedMap<string, SceneMessage>)
    requires queue.Valid()
    ensures r.Valid()
    ensures r.entries == queue.entries[message.sceneId := Coalesced(queue.Get(message.sceneId), message)]
    ensures message.sceneId in queue.entries ==> r.keys == queue.keys
    ensures message.sceneId !in queue.entries ==> r.keys == queue.keys + [message.sceneId]
  {
    queue.Set(message.sceneId, Coalesced(queue.Get(message.sceneId), message))
  }

  /** The buffered scene messages under `keys`, in that order. */
  function SceneOuts(entries: map<string, SceneMessage>, keys: seq<string>): (out: seq<OutboundMessage>)
    requires forall k :: k in keys ==> k in entries
    ensures |out| == |keys|
    ensures forall i :: 0 <= i < |keys| ==> out[i] == SceneOut(entries[keys[i]])
  {
    if keys == [] then []
    else SceneOuts(entries, keys[..|keys| - 1]) + [SceneOut(entries[keys[|keys| - 1]])]
  }

  /** The loop of `flushMessages` over the scene buffer: each buffered message, in order. */
  method CollectSceneOuts(entries: map<string, SceneMessage>, keys: seq<string>) returns (out: seq<OutboundMessage>)
    requires forall k :: k in keys ==> k in entries
    ensures out == SceneOuts(entries, keys)
  {
    out := [];
    for i := 0 to |keys|
      invariant out == SceneOuts(entries, keys[..i])
    {
      assert keys[..i + 1][..i] == keys[..i];
      out := out + [SceneOut(entries[keys[i]])];
    }
    assert keys[..|keys|] == keys;
  }

  /** What a flush sends: the config message if one is buffered, then every buffered scene
      message in first-buffered order. */
  function Pending(config: Option<ConfigMessage>, queue: OrderedMap<string, SceneMessage>): (out: seq<OutboundMessage>)
    requires queue.Valid()
    ensures var skip := if config.Some? then 1 else 0;
            && |out| == skip + |queue.keys|
            && (config.Some? ==> out[0] == ConfigOut(config.value))
            && forall i :: 0 <= i < |queue.keys| ==> out[skip + i] == SceneOut(queue.entries[queue.keys[i]])
  {
    (if config.Some? then [ConfigOut(config.value)] else []) + SceneOuts(queue.entries, queue.keys)
  }

  /** A buffered creation followed by an update of the same scene stays one creation, now
      carrying the update's scene; the scene keeps its place in the buffer. */
  lemma CreateThenUpdateStaysCreate(queue: OrderedMap<string, SceneMessage>, id: string, created: Scene, updated: Scene)
    requires queue.Valid()
    ensures var once := Buffered(queue, GenericSceneMessage(CreateScene, id, created));
            var twice := Buffered(once, GenericSceneMessage(UpdateScene, id, updated));
            && twice.entries[id] == GenericSceneMessage(CreateScene, id, updated)
            && twice.keys == once.keys
            && twice.entries.Keys == queue.entries.Keys + {id}
  {
    var once := Buffered(queue, GenericSceneMessage(CreateScene, id, created));
    assert once.entries[id] == GenericSceneMessage(CreateScene, id, created);
  }

  /** Outside that one case the later message for a scene replaces the earlier one, and the
      other scenes' buffered messages are untouched. */
  lemma LaterMessageReplaces(queue: OrderedMap<string, SceneMessage>, message: SceneMessage)
    requires queue.Valid()
    requires !(message.GenericSceneMessage? && message.messageType == UpdateScene)
    ensures Buffered(queue, message).entries[message.sceneId] == message
    ensures forall id :: id in queue.entries && id != message.sceneId ==>
              id in Buffered(queue, message).entries && Buffered(queue, message).entries[id] == queue.entries[id]
  {
  }

  class MessageQueue {
    /** One buffered scene message per scene id, in first-buffered order. */
    var queue: OrderedMap<string, SceneMessage>
    /** The single config slot (`miscQueue`). */
    var config: Option<ConfigMessage>
    var isReady: bool
    /** Every message handed to the send function so far, in order. */
    var sent: seq<OutboundMessage>

    /** Every buffered scene message sits under its own scene id. */
    ghost predicate Valid()
      reads this`queue
    {
      && queue.Valid()
      && forall id :: id in queue.entries ==> queue.entries[id].sceneId == id
    }

    /** A new queue is not ready and holds nothing. */
    constructor ()
      ensures Valid()
      ensures !isReady && queue == Empty() && config.None? && sent == []
    {
      queue := Empty();
      config := None;
      isReady := false;
      sent := [];
    }

    /** `setReady`: records the state; becoming (or staying) ready flushes the buffers. */
    method SetReady(readyState: bool)
      requires Valid()
      modifies this
      ensures Valid()
      ensures isReady == readyState
      ensures queue == old(queue) && config == old(config)
      ensures sent == old(sent) + (if readyState then Pending(config, queue) else [])
    {
      isReady := readyState;
      if isReady {
        FlushMessages();
      }
    }

    /** `enqueueMessage`: when ready the message is sent at once and nothing is buffered;
        otherwise a config message overwrites the config slot and a scene message is
        coalesced into its scene's buffer slot. */
    method EnqueueMessage(message: OutboundMessage)
      requires Valid()
      modifies this
      ensures Valid()
      ensures isReady == old(isReady)
      ensures old(isReady) ==> sent == old(sent) + [message] && queue == old(queue) && config == old(config)
      ensures !old(isReady) && message.ConfigOut? ==>
        sent == old(sent) && queue == old(queue) && config == Some(message.config)
      ensures !old(isReady) && message.SceneOut? ==>
        sent == old(sent) && queue == Buffered(old(queue), message.scene) && config == old(config)
    {
      if isReady {
        sent := sent + [message];
      } else if message.ConfigOut? {
        config := Some(message.config);
      } else {
        var existingMessage := queue.Get(message.scene.sceneId);
        var buffered := Coalesced(existingMessage, message.scene);
        queue := queue.Set(message.scene.sceneId, buffered);
      }
    }

    /** `flushMessages`: sends the config message, if any, then every buffered scene
        message in order; the buffers are left as they are. */
    method FlushMessages()
      requires Valid()
      modifies this`sent
      ensures sent == old(sent) + Pending(config, queue)
    {
      var out: seq<OutboundMessage> := [];
      if config.Some? {
        out := [ConfigOut(config.value)];
      }
      var sceneOuts := CollectSceneOuts(queue.entries, queue.keys);
      sent := sent + (out + sceneOuts);
    }

    /** `clear`: empties the scene buffer; the config slot is kept. */
    method Clear()
      modifies this`queue
      ensures Valid()
      ensures queue == Empty()
    {
      queue := Empty();
    }
  }
}
