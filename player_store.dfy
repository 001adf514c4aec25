/**
 * The player store: six playback fields and a list of change listeners.
 * One dispatched action at a time sets some of the fields and, unless it is one
 * of the defined no-ops, emits a single change event.
 *
 * `Apply` is the transition table on values; the class `PlayerStore` performs
 * the same transitions in place through its setters and is proved against it.
 */
module Stores {

  /** A payload object of a position or track update, or JavaScript `null`. */
  datatype Info = Null | Object(json: string)

  /** The action types the store's dispatcher switch recognises, and every other one. */
  datatype Action =
    | Seek
    | Pause
    | Play
    | PlaystateUpdate(state: string)
    | PositionInfoUpdate(info: Info)
    | CurrentTrackUpdate(track: Info)
    | NextTrackUpdate(track: Info)
    | MutedUpdate(muted: bool)
    | VolumeUpdate(volume: int)
    | ZoneGroupSelect
    | Unrecognised(actionType: string)

  /** The six store fields. */
  datatype Snapshot = Snapshot(
    playing: bool,
    positionInfo: Info,
    currentTrack: Info,
    nextTrack: Info,
    muted: bool,
    volume: int)

  /** The store as it is created. */
  const Initial := Snapshot(false, Null, Null, Null, false, 0)

  const Transitioning := "transitioning"
  const PlayingState := "playing"

  datatype Field = Playing | PositionInfo | CurrentTrack | NextTrack | Muted | Volume

  /** `s` and `t` hold the same value in field `f`. */
  predicate Agree(s: Snapshot, t: Snapshot, f: Field) {
    match f
    case Playing => s.playing == t.playing
    case PositionInfo => s.positionInfo == t.positionInfo
    case CurrentTrack => s.currentTrack == t.currentTrack
    case NextTrack => s.nextTrack == t.nextTrack
    case Muted => s.muted == t.muted
    case Volume => s.volume == t.volume
  }

  /** Whether an action makes the store emit a change event. */
  predicate Notifies(a: Action) {
    !(a.Seek? || a.Unrecognised? || (a.PlaystateUpdate? && a.state == Transitioning))
  }

  /** The fields each action writes. */
  function Writes(a: Action): (fs: set<Field>)
    ensures fs != {} <==> Notifies(a)
  {
    match a
    case Seek => {}
    case Pause => {Playing}
    case Play => {Playing}
    case PlaystateUpdate(state) => if state == Transitioning then {} else {Playing}
    case PositionInfoUpdate(_) => {PositionInfo}
    case CurrentTrackUpdate(_) => {CurrentTrack}
    case NextTrackUpdate(_) => {NextTrack}
    case MutedUpdate(_) => {Muted}
    case VolumeUpdate(_) => {Volume}
    case ZoneGroupSelect => {CurrentTrack, NextTrack}
    case Unrecognised(_) => {}
  }

  /** The state after one dispatch, and whether a change event was emitted. */
  datatype Transition = Transition(after: Snapshot, emits: bool)

  /** One run of the dispatcher switch. */
  function Apply(s: Snapshot, a: Action): (r: Transition)
    ensures forall f :: f !in Writes(a) ==> Agree(s, r.after, f)
    ensures r.emits == Notifies(a)
    ensures a.Pause? ==> !r.after.playing
    ensures a.Play? ==> r.after.playing
    ensures a.PlaystateUpdate? && a.state != Transitioning ==> (r.after.playing <==> a.state == PlayingState)
    ensures a.PositionInfoUpdate? ==> r.after.positionInfo == a.info
    ensures a.CurrentTrackUpdate? ==> r.after.currentTrack == a.track
    ensures a.NextTrackUpdate? ==> r.after.nextTrack == a.track
    ensures a.MutedUpdate? ==> r.after.muted == a.muted
    ensures a.VolumeUpdate? ==> r.after.volume == a.volume
    ensures a.ZoneGroupSelect? ==> r.after.currentTrack == Null && r.after.nextTrack == Null
  {
    match a
    case Seek => Transition(s, false)
    case Pause => Transition(s.(playing := false), true)
    case Play => Transition(s.(playing := true), true)
    case PlaystateUpdate(state) =>
      if state == Transitioning then Transition(s, false)
      else Transition(s.(playing := state == PlayingState), true)
    case PositionInfoUpdate(info) => Transition(s.(positionInfo := info), true)
    case CurrentTrackUpdate(track) => Transition(s.(currentTrack := track), true)
    case NextTrackUpdate(track) => Transition(s.(nextTrack := track), true)
    case MutedUpdate(muted) => Transition(s.(muted := muted), true)
    case VolumeUpdate(volume) => Transition(s.(volume := volume), true)
    case ZoneGroupSelect => Transition(s.(currentTrack := Null, nextTrack := Null), true)
    case Unrecognised(_) => Transition(s, false)
  }

  /** Dispatching the same action twice leaves the store as dispatching it once. */
  lemma ApplyIdempotent(s: Snapshot, a: Action)
    ensures Apply(Apply(s, a).after, a).after == Apply(s, a).after
  {
  }

  /** Two actions that write disjoint fields give the same store in either order. */
  lemma DisjointActionsCommute(s: Snapshot, a: Action, b: Action)
    requires Writes(a) !! Writes(b)
    ensures Apply(Apply(s, a).after, b).after == Apply(Apply(s, b).after, a).after
  {
    var ab := Apply(Apply(s, a).after, b).after;
    var ba := Apply(Apply(s, b).after, a).after;
    forall f: Field ensures Agree(ab, ba, f) {
      if f in Writes(a) {
        assert f !in Writes(b);
      }
    }
    assert Agree(ab, ba, Playing) && Agree(ab, ba, PositionInfo) && Agree(ab, ba, CurrentTrack);
    assert Agree(ab, ba, NextTrack) && Agree(ab, ba, Muted) && Agree(ab, ba, Volume);
  }

  /** The store after a stream of actions, dispatched front to back. */
  function Replay(s: Snapshot, actions: seq<Action>): Snapshot
    decreases |actions|
  {
    if actions == [] then s else Replay(Apply(s, actions[0]).after, actions[1..])
  }

  /** The payload of the last volume update in `actions`, or `v` when there is none. */
  function LastVolume(actions: seq<Action>, v: int): int
    decreases |actions|
  {
    if actions == [] then v
    else if actions[|actions| - 1].VolumeUpdate? then actions[|actions| - 1].volume
    else LastVolume(actions[..|actions| - 1], v)
  }

  lemma {:induction false} ReplaySnoc(s: Snapshot, actions: seq<Action>, a: Action)
    ensures Replay(s, actions + [a]) == Apply(Replay(s, actions), a).after
    decreases |actions|
  {
    if actions == [] {
      assert [a][1..] == [];
    } else {
      assert (actions + [a])[1..] == actions[1..] + [a];
      ReplaySnoc(Apply(s, actions[0]).after, actions[1..], a);
    }
  }

  /** The volume the store holds is the payload of the last volume update dispatched. */
  lemma {:induction false} ReplayVolumeIsLastWrite(s: Snapshot, actions: seq<Action>)
    ensures Replay(s, actions).volume == LastVolume(actions, s.volume)
    decreases |actions|
  {
    if actions != [] {
      var init := actions[..|actions| - 1];
      var a := actions[|actions| - 1];
      assert actions == init + [a];
      ReplaySnoc(s, init, a);
      ReplayVolumeIsLastWrite(s, init);
      assert Volume !in Writes(a) ==> Agree(Replay(s, init), Apply(Replay(s, init), a).after, Volume);
    }
  }

  /** The store object: its fields, the registered listeners and a log of their invocations. */
  class PlayerStore {
    var playing: bool
    var positionInfo: Info
    var currentTrack: Info
    var nextTrack: Info
    var muted: bool
    var volume: int
    /** Registered change listeners, by identity, in registration order. */
    var listeners: seq<nat>
    /** Every listener invocation so far, in order. */
    var delivered: seq<nat>
    /** The number of change events emitted so far. */
    var changes: nat

    function Current(): Snapshot
      reads this
    {
      Snapshot(playing, positionInfo, currentTrack, nextTrack, muted, volume)
    }

    constructor ()
      ensures Current() == Initial
      ensures listeners == [] && delivered == [] && changes == 0
    {
      playing, positionInfo, currentTrack, nextTrack, muted, volume := false, Null, Null, Null, false, 0;
      listeners, delivered, changes := [], [], 0;
    }

    /** Calls every registered listener once, in registration order. */
    method EmitChange()
      modifies this
      ensures delivered == old(delivered) + listeners
      ensures changes == old(changes) + 1
      ensures Current() == old(Current()) && listeners == old(listeners)
    {
      var i := 0;
      while i < |listeners|
        invariant 0 <= i <= |listeners|
        invariant delivered == old(delivered) + listeners[..i]
        invariant Current() == old(Current()) && listeners == old(listeners) && changes == old(changes)
      {
        delivered := delivered + [listeners[i]];
        i := i + 1;
      }
      assert listeners[..i] == listeners;
      changes := changes + 1;
    }

    method AddChangeListener(listener: nat)
      modifies this
      ensures listeners == old(listeners) + [listener]
      ensures Current() == old(Current()) && delivered == old(delivered) && changes == old(changes)
    {
      listeners := listeners + [listener];
    }

    method SetPlaying(p: bool)
      modifies this
      ensures Current() == old(Current()).(playing := p)
      ensures listeners == old(listeners) && delivered == old(delivered) && changes == old(changes)
    {
      playing := p;
    }

    method SetPositionInfo(info: Info)
      modifies this
      ensures Current() == old(Current()).(positionInfo := info)
      ensures listeners == old(listeners) && delivered == old(delivered) && changes == old(changes)
    {
      positionInfo := info;
    }

    method SetCurrentTrack(info: Info)
      modifies this
      ensures Current() == old(Current()).(currentTrack := info)
      ensures listeners == old(listeners) && delivered == old(delivered) && changes == old(changes)
    {
      currentTrack := info;
    }

    method SetNextTrack(info: Info)
      modifies this
      ensures Current() == old(Current()).(nextTrack := info)
      ensures listeners == old(listeners) && delivered == old(delivered) && changes == old(changes)
    {
      nextTrack := info;
    }

    method SetMuted(m: bool)
      modifies this
      ensures Current() == old(Current()).(muted := m)
      ensures listeners == old(listeners) && delivered == old(delivered) && changes == old(changes)
    {
      muted := m;
    }

    method SetVolume(v: int)
      modifies this
      ensures Current() == old(Current()).(volume := v)
      ensures listeners == old(listeners) && delivered == old(delivered) && changes == old(changes)
    {
      volume := v;
    }

    /** The dispatcher callback: applies one action and notifies the listeners when it changes the store. */
    method Dispatch(a: Action)
      modifies this
      ensures Current() == Apply(old(Current()), a).after
      ensures listeners == old(listeners)
      ensures Notifies(a) ==> delivered == old(delivered) + listeners && changes == old(changes) + 1
      ensures !Notifies(a) ==> delivered == old(delivered) && changes == old(changes)
    {
      match a {
        case Seek =>
        case Pause =>
          SetPlaying(false);
          EmitChange();
        case Play =>
          SetPlaying(true);
          EmitChange();
        case PlaystateUpdate(state) =>
          var p := false;
          if state == Transitioning {
            return;
          }
          if state == PlayingState {
            p := true;
          }
          SetPlaying(p);
          EmitChange();
        case PositionInfoUpdate(info) =>
          SetPositionInfo(info);
          EmitChange();
        case CurrentTrackUpdate(track) =>
          SetCurrentTrack(track);
          EmitChange();
        case NextTrackUpdate(track) =>
          SetNextTrack(track);
          EmitChange();
        case MutedUpdate(m) =>
          SetMuted(m);
          EmitChange();
        case VolumeUpdate(v) =>
          SetVolume(v);
          EmitChange();
        case ZoneGroupSelect =>
          SetCurrentTrack(Null);
          SetNextTrack(Null);
          EmitChange();
        case Unrecognised(_) =>
      }
    }
  }
}
