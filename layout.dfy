/** The graph layout (`useLayout`): where each scene's nodes sit on the canvas, keyed by scene
    id in first-insertion order, plus the viewport transform. It starts from the state the
    webview host saved, and every change hands the whole layout back to the host to save.
    Positions are opaque values: nothing is computed on them. */
module Layouts {
  import opened Wrappers
  import opened OrderedMaps

  /** A canvas position. */
  datatype XYPosition = XYPosition(x: real, y: real)

  /** The canvas pan and zoom. */
  datatype ViewportTransform = ViewportTransform(x: real, y: real, zoom: real)

  /** The saved positions of one scene's nodes; `buttonPositions` is a sparse array, a hole
      being None. */
  datatype SceneState = SceneState(
    sceneId: string,
    sceneNodePosition: XYPosition,
    openCommandNodePosition: Option<XYPosition>,
    closeCommandNodePosition: Option<XYPosition>,
    buttonPositions: seq<Option<XYPosition>>)

  /** What is handed to the host to save, and what it hands back on load. */
  datatype LayoutState = LayoutState(state: seq<SceneState>, viewPort: ViewportTransform)

  /** Which node of a scene a position belongs to; a command node names its slot as a string,
      and only "open" and "close" are slots. */
  datatype NodeStateOptions = ButtonNode(slot: nat) | CommandNode(commandSlot: string) | SceneNode

  /** A node of a scene, once the options are known to name one. */
  datatype NodeKey = ButtonKey(index: nat) | OpenKey | CloseKey | SceneKey

  /** Layout errors: a command node whose slot is neither "open" nor "close". */
  datatype LayoutError = UnknownCommandSlot

  /** The node the options name, or the error both `setPosition` and `getPosition` throw. */
  function Target(options: NodeStateOptions): (r: Result<NodeKey, LayoutError>)
    ensures r.Failure? <==> options.CommandNode? && options.commandSlot != "open" && options.commandSlot != "close"
    ensures options.ButtonNode? ==> r == Success(ButtonKey(options.slot))
    ensures options.SceneNode? ==> r == Success(SceneKey)
  {
    match options
    case ButtonNode(slot) => Success(ButtonKey(slot))
    case CommandNode(commandSlot) =>
      if commandSlot == "close" then Success(CloseKey)
      else if commandSlot == "open" then Success(OpenKey)
      else Failure(UnknownCommandSlot)
    case SceneNode => Success(SceneKey)
  }

  /** The viewport before anything is loaded or set. */
  const DefaultViewport := ViewportTransform(0.0, 0.0, 1.0)

  /** The state a scene starts with on its first `setPosition`: scene node at the origin, no
      command node positions, no button positions. */
  function DefaultState(sceneId: string): (st: SceneState)
    ensures st.sceneId == sceneId && st.sceneNodePosition == XYPosition(0.0, 0.0)
    ensures st.openCommandNodePosition.None? && st.closeCommandNodePosition.None? && st.buttonPositions == []
  {
    SceneState(sceneId, XYPosition(0.0, 0.0), None, None, [])
  }

  /** A sparse-array write `a[slot] = v`: indices past the end become holes. */
  function WriteAt(a: seq<Option<XYPosition>>, slot: nat, v: XYPosition): (r: seq<Option<XYPosition>>)
    ensures |r| == if slot < |a| then |a| else slot + 1
    ensures r[slot] == Some(v)
    ensures forall i :: 0 <= i < |r| && i != slot ==> r[i] == if i < |a| then a[i] else None
  {
    if slot < |a| then a[slot := Some(v)]
    else a + seq(slot - |a|, _ => None) + [Some(v)]
  }

  /** A sparse-array read `a[slot]`: a hole or an index past the end is `undefined`. */
  function ReadAt(a: seq<Option<XYPosition>>, slot: nat): Option<XYPosition> {
    if slot < |a| then a[slot] else None
  }

  /** The state with the named node moved to `position`. */
  function WithPosition(st: SceneState, position: XYPosition, key: NodeKey): SceneState {
    match key
    case ButtonKey(slot) => st.(buttonPositions := WriteAt(st.buttonPositions, slot, position))
    case OpenKey => st.(openCommandNodePosition := Some(position))
    case CloseKey => st.(closeCommandNodePosition := Some(position))
    case SceneKey => st.(sceneNodePosition := position)
  }

  /** The position the state holds for the named node, `undefined` when it holds none. */
  function PositionOf(st: SceneState, key: NodeKey): Option<XYPosition> {
    match key
    case ButtonKey(slot) => ReadAt(st.buttonPositions, slot)
    case OpenKey => st.openCommandNodePosition
    case CloseKey => st.closeCommandNodePosition
    case SceneKey => Some(st.sceneNodePosition)
  }

  /** Reading a node just written gives the written position. */
  lemma ReadAfterWrite(st: SceneState, position: XYPosition, key: NodeKey)
    ensures PositionOf(WithPosition(st, position, key), key) == Some(position)
    ensures WithPosition(st, position, key).sceneId == st.sceneId
  {
  }

  /** Writing one node leaves every other node of the scene where it was. */
  lemma WriteKeepsOthers(st: SceneState, position: XYPosition, key: NodeKey, other: NodeKey)
    requires other != key
    ensures PositionOf(WithPosition(st, position, key), other) == PositionOf(st, other)
  {
    if key.ButtonKey? && other.ButtonKey? {
      var a := st.buttonPositions;
      var r := WriteAt(a, key.index, position);
      assert other.index < |r| ==> r[other.index] == if other.index < |a| then a[other.index] else None;
    }
  }

  /** The layout the load loop builds from the saved scene states: each state set under its
      own scene id, in order, so a later state for an id replaces an earlier one. */
  function Loaded(saved: seq<SceneState>): (m: OrderedMap<string, SceneState>)
    ensures m.Valid()
    ensures forall id :: id in m.entries ==> m.entries[id].sceneId == id
  {
    if saved == [] then Empty()
    else Loaded(saved[..|saved| - 1]).Set(saved[|saved| - 1].sceneId, saved[|saved| - 1])
  }

  /** Loading keeps one entry per distinct saved scene id and no other. */
  lemma {:induction false} LoadedKeys(saved: seq<SceneState>)
    ensures forall id :: id in Loaded(saved).entries <==> exists i :: 0 <= i < |saved| && saved[i].sceneId == id
  {
    if saved != [] {
      var prefix := saved[..|saved| - 1];
      LoadedKeys(prefix);
      forall id | id in Loaded(saved).entries
        ensures exists i :: 0 <= i < |saved| && saved[i].sceneId == id
      {
        if id != saved[|saved| - 1].sceneId {
          var i :| 0 <= i < |prefix| && prefix[i].sceneId == id;
          assert saved[i].sceneId == id;
        }
      }
      forall id | exists i :: 0 <= i < |saved| && saved[i].sceneId == id
        ensures id in Loaded(saved).entries
      {
        var i :| 0 <= i < |saved| && saved[i].sceneId == id;
        if i < |prefix| {
          assert prefix[i].sceneId == id;
        }
      }
    }
  }

  /** The entry loaded for a scene id is the last saved state with that id. */
  lemma {:induction false} LoadedLastWins(saved: seq<SceneState>, i: nat)
    requires i < |saved|
    requires forall j :: i < j < |saved| ==> saved[j].sceneId != saved[i].sceneId
    ensures saved[i].sceneId in Loaded(saved).entries
    ensures Loaded(saved).entries[saved[i].sceneId] == saved[i]
  {
    if i < |saved| - 1 {
      var prefix := saved[..|saved| - 1];
      assert prefix[i] == saved[i];
      assert forall j :: i < j < |prefix| ==> prefix[j] == saved[j];
      LoadedLastWins(prefix, i);
    }
  }

  class Layout {
    /** The node positions per scene id, in first-insertion order. */
    var layoutMap: OrderedMap<string, SceneState>
    var currentViewport: ViewportTransform
    /** Every layout handed to the host's `setState` so far, in order. */
    var savedStates: seq<LayoutState>

    /** Each scene's state is kept under its own id. */
    ghost predicate Valid()
      reads this`layoutMap
    {
      && layoutMap.Valid()
      && forall id :: id in layoutMap.entries ==> layoutMap.entries[id].sceneId == id
    }

    /** The composable's setup: with a saved layout, each saved scene state is set under its
        id, in order, and the saved viewport is taken; without one the layout is empty and the
        viewport is the identity. */
    constructor (saved: Option<LayoutState>)
      ensures Valid()
      ensures saved.None? ==> layoutMap == Empty() && currentViewport == DefaultViewport
      ensures saved.Some? ==> layoutMap == Loaded(saved.value.state) && currentViewport == saved.value.viewPort
      ensures savedStates == []
    {
      var loaded: OrderedMap<string, SceneState> := Empty();
      var viewport := DefaultViewport;
      if saved.Some? {
        var states := saved.value.state;
        for i := 0 to |states|
          invariant loaded == Loaded(states[..i])
        {
          assert states[..i + 1][..i] == states[..i];
          loaded := loaded.Set(states[i].sceneId, states[i]);
        }
        assert states[..|states|] == states;
        viewport := saved.value.viewPort;
      }
      layoutMap := loaded;
      currentViewport := viewport;
      savedStates := [];
    }

    /** What `saveState` hands to the host: the scene states in map order and the viewport. */
    function Snapshot(): (s: LayoutState)
      reads this`layoutMap, this`currentViewport
      requires Valid()
      ensures s.viewPort == currentViewport
      ensures |s.state| == |layoutMap.keys|
      ensures forall i :: 0 <= i < |s.state| ==> s.state[i] == layoutMap.entries[layoutMap.keys[i]]
    {
      LayoutState(layoutMap.Values(), currentViewport)
    }

    /** `saveState`: hands the current layout to the host. */
    method SaveState()
      requires Valid()
      modifies this`savedStates
      ensures savedStates == old(savedStates) + [Snapshot()]
    {
      var stateObject := LayoutState(layoutMap.Values(), currentViewport);
      savedStates := savedStates + [stateObject];
    }

    /** `setPosition`: the scene's state (or a fresh default one) gets the node's position and
        is set back under the scene id, and the layout is saved. An unknown command slot
        throws before anything changes. */
    method SetPosition(sceneId: string, position: XYPosition, options: NodeStateOptions) returns (r: Result<(), LayoutError>)
      requires Valid()
      modifies this`layoutMap, this`savedStates
      ensures Valid()
      ensures r.Failure? <==> Target(options).Failure?
      ensures r.Failure? ==> layoutMap == old(layoutMap) && savedStates == old(savedStates)
      ensures r.Success? ==>
        && layoutMap == old(layoutMap).Set(sceneId, WithPosition(old(layoutMap).Get(sceneId).GetOr(DefaultState(sceneId)), position, Target(options).value))
        && savedStates == old(savedStates) + [Snapshot()]
        && GetPosition(sceneId, options) == Success(Some(position))
    {
      var target := Target(options);
      if target.Failure? {
        return Failure(target.error);
      }
      var found := layoutMap.Get(sceneId);
      var sceneState := if found.Some? then found.value else DefaultState(sceneId);
      sceneState := WithPosition(sceneState, position, target.value);
      ReadAfterWrite(if found.Some? then found.value else DefaultState(sceneId), position, target.value);
      layoutMap := layoutMap.Set(sceneId, sceneState);
      SaveState();
      r := Success(());
    }

    /** `getPosition`: `undefined` for a scene with no state (whatever the options), else the
        position held for the named node; an unknown command slot of a known scene throws. */
    function GetPosition(sceneId: string, options: NodeStateOptions): (r: Result<Option<XYPosition>, LayoutError>)
      reads this`layoutMap
      ensures sceneId !in layoutMap.entries ==> r == Success(None)
      ensures sceneId in layoutMap.entries ==>
        (r.Failure? <==> Target(options).Failure?)
        && (r.Success? ==> r.value == PositionOf(layoutMap.entries[sceneId], Target(options).value))
    {
      if sceneId !in layoutMap.entries then Success(None)
      else
        match Target(options)
        case Failure(e) => Failure(e)
        case Success(key) => Success(PositionOf(layoutMap.entries[sceneId], key))
    }

    /** `setViewportState`: takes the transform and saves the layout. */
    method SetViewportState(transform: ViewportTransform)
      requires Valid()
      modifies this`currentViewport, this`savedStates
      ensures Valid()
      ensures currentViewport == transform && GetViewportState() == transform
      ensures savedStates == old(savedStates) + [Snapshot()]
    {
      currentViewport := transform;
      SaveState();
    }

    /** `getViewportState`. */
    function GetViewportState(): (v: ViewportTransform)
      reads this`currentViewport
      ensures v == currentViewport
    {
      currentViewport
    }
  }

  /** The first position set for a scene starts from the default state: the scene node at the
      origin unless it is the node being set, and no other node placed. */
  lemma FirstWriteStartsFromDefault(sceneId: string, position: XYPosition, key: NodeKey, other: NodeKey)
    requires other != key
    ensures other.SceneKey? ==> PositionOf(WithPosition(DefaultState(sceneId), position, key), other) == Some(XYPosition(0.0, 0.0))
    ensures !other.SceneKey? ==> PositionOf(WithPosition(DefaultState(sceneId), position, key), other).None?
  {
    WriteKeepsOthers(DefaultState(sceneId), position, key, other);
  }
}
