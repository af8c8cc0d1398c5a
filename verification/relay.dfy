/** The controller of the wrapper-based comparison page
    (comparison/js/comparison.js): two fixed slots `env1` and `env2`, a
    lock flag it broadcasts, and a relay that forwards `scroll` payloads
    from one slot to the other. */
module Relay {
  import opened Common
  import opened Messages

  /** A wrapper iframe the controller holds; `hasWindow` is whether its
      `contentWindow` is available. */
  datatype Frame = Frame(hasWindow: bool)

  /** What a container shows: its initial markup, the loading markup with
      the indicator shown or hidden, or the error message. */
  datatype Container = Blank | Loading(indicatorShown: bool) | ErrorShown

  datatype Controller = Controller(
    lockEnabled: bool,
    env1Frame: Option<Frame>,
    env2Frame: Option<Frame>,
    env1Container: Container,
    env2Container: Container)

  /** A `postMessage` to the wrapper in a slot. */
  datatype Post = Post(to: Slot, msg: Msg)

  /** The controller as the constructor leaves it. */
  function Initial(): (c: Controller)
    ensures !c.lockEnabled && c.env1Frame.None? && c.env2Frame.None?
  {
    Controller(false, None, None, Blank, Blank)
  }

  function FrameAt(c: Controller, s: Slot): Option<Frame>
  {
    match s
    case Env1 => c.env1Frame
    case Env2 => c.env2Frame
  }

  function ContainerAt(c: Controller, s: Slot): Container
  {
    match s
    case Env1 => c.env1Container
    case Env2 => c.env2Container
  }

  /** A frame that exists and has a window. */
  predicate Reachable(c: Controller, s: Slot)
  {
    FrameAt(c, s).Some? && FrameAt(c, s).value.hasWindow
  }

  /** `{type: 'scrollLockState', active}`. */
  function LockStateMessage(active: bool): (m: Msg)
    ensures m.msgType == Some("scrollLockState") && m.active == Some(active)
    ensures m.isLocked.None?
  {
    Typed("scrollLockState").(active := Some(active))
  }

  /** `broadcastScrollLockState`: the lock state, to each reachable frame,
      `env1` first. */
  function Broadcast(c: Controller): (r: seq<Post>)
    ensures forall i :: 0 <= i < |r| ==> r[i].msg == LockStateMessage(c.lockEnabled)
    ensures forall s :: (exists i :: 0 <= i < |r| && r[i].to == s) <==> Reachable(c, s)
    ensures |r| == (if Reachable(c, Env1) then 1 else 0) + (if Reachable(c, Env2) then 1 else 0)
    ensures Reachable(c, Env1) ==> r[0].to == Env1
    ensures Reachable(c, Env2) ==> r[|r| - 1].to == Env2
  {
    var m := LockStateMessage(c.lockEnabled);
    var r := (if Reachable(c, Env1) then [Post(Env1, m)] else [])
             + (if Reachable(c, Env2) then [Post(Env2, m)] else []);
    assert forall s :: (exists i :: 0 <= i < |r| && r[i].to == s) ==> Reachable(c, s);
    assert Reachable(c, Env1) ==> r[0].to == Env1;
    assert Reachable(c, Env2) ==> r[|r| - 1].to == Env2;
    r
  }

  /** `toggleScrollLock`: flip the flag, then broadcast it. */
  function ToggleScrollLock(c: Controller): (r: (Controller, seq<Post>))
    ensures r.0.lockEnabled == !c.lockEnabled
    ensures r.0 == c.(lockEnabled := !c.lockEnabled)
    ensures r.1 == Broadcast(r.0)
  {
    var c2 := c.(lockEnabled := !c.lockEnabled);
    (c2, Broadcast(c2))
  }

  /** Two toggles restore the controller and broadcast the original flag. */
  lemma ToggleTwice(c: Controller)
    ensures ToggleScrollLock(ToggleScrollLock(c).0).0 == c
    ensures forall i :: 0 <= i < |ToggleScrollLock(ToggleScrollLock(c).0).1| ==>
              ToggleScrollLock(ToggleScrollLock(c).0).1[i].msg.active == Some(c.lockEnabled)
  {
  }

  /** `hideLoadingIndicator`: any id other than `env1` (a missing one
      included) selects the `env2` container; a container without the
      loading markup has no indicator to hide. */
  function HideIndicator(c: Controller, frameId: Option<string>): (r: Controller)
    ensures r.lockEnabled == c.lockEnabled && r.env1Frame == c.env1Frame && r.env2Frame == c.env2Frame
    ensures frameId == Some("env1") ==> r.env2Container == c.env2Container
    ensures frameId != Some("env1") ==> r.env1Container == c.env1Container
  {
    if frameId == Some("env1") then
      c.(env1Container := if c.env1Container.Loading? then Loading(false) else c.env1Container)
    else
      c.(env2Container := if c.env2Container.Loading? then Loading(false) else c.env2Container)
  }

  /** `syncScroll`: forward the payload as it is, or drop it when the
      target is missing or has no window. */
  function SyncScroll(c: Controller, data: Msg, target: Slot): (r: seq<Post>)
    ensures Reachable(c, target) ==> r == [Post(target, data)]
    ensures !Reachable(c, target) ==> r == []
  {
    if Reachable(c, target) then [Post(target, data)] else []
  }

  /** `handleMessage`. */
  function HandleMessage(c: Controller, data: Option<Msg>): (r: (Controller, seq<Post>))
    ensures data.None? || data.value.msgType.None? || data.value.msgType == Some("") ==> r == (c, [])
    ensures data.Some? && data.value.msgType == Some("scroll") ==> r.0 == c
    ensures data.Some? && data.value.msgType == Some("loaded") ==>
              r.0 == HideIndicator(c, data.value.frameId)
              && r.1 == if c.env1Frame.Some? && c.env2Frame.Some? then Broadcast(r.0) else []
    ensures (&& data.Some? && data.value.msgType.Some?
             && data.value.msgType.value != "loaded" && data.value.msgType.value != "scroll")
            ==> r == (c, [])
  {
    if data.None? || data.value.msgType.None? || data.value.msgType == Some("") then (c, [])
    else
      var m := data.value;
      if m.msgType == Some("loaded") then
        var c2 := HideIndicator(c, m.frameId);
        (c2, if c.env1Frame.Some? && c.env2Frame.Some? then Broadcast(c2) else [])
      else if m.msgType == Some("scroll") && c.lockEnabled then
        if m.frameId == Some("env1") then (c, SyncScroll(c, m, Env2))
        else if m.frameId == Some("env2") then (c, SyncScroll(c, m, Env1))
        else (c, [])
      else (c, [])
  }

  /** The relay of `scroll` payloads: while locked, a payload from one
      slot goes, unchanged, to the other slot only, and only when that
      frame is reachable; unlocked, or from an unknown id, it goes nowhere. */
  lemma ScrollRouting(c: Controller, m: Msg)
    requires m.msgType == Some("scroll")
    ensures var r := HandleMessage(c, Some(m)).1;
            && (!c.lockEnabled ==> r == [])
            && (m.frameId.None? || SlotOf(m.frameId.value).None? ==> r == [])
            && (c.lockEnabled && m.frameId.Some? && SlotOf(m.frameId.value).Some? ==>
                  var target := OtherSlot(SlotOf(m.frameId.value).value);
                  r == if Reachable(c, target) then [Post(target, m)] else [])
  {
  }

  /** A `loaded` report hides only its own slot's indicator and
      rebroadcasts the lock state exactly when both frames exist. */
  lemma LoadedHidesOwnIndicator(c: Controller, s: Slot)
    requires ContainerAt(c, s).Loading?
    ensures var r := HandleMessage(c, Some(Tagged("loaded", SlotId(s))));
            && ContainerAt(r.0, s) == Loading(false)
            && ContainerAt(r.0, OtherSlot(s)) == ContainerAt(c, OtherSlot(s))
            && (r.1 != [] ==> c.env1Frame.Some? && c.env2Frame.Some?)
  {
  }

  /** `loadEnvironment`: an empty url does nothing; otherwise the container
      shows the loading markup and, for the ids `env1` and `env2`, the new
      frame is kept in that slot. */
  function LoadEnvironment(c: Controller, container: Slot, url: string, frameId: string): (r: Controller)
    ensures url == "" ==> r == c
    ensures url != "" && SlotOf(frameId).Some? ==>
              FrameAt(r, SlotOf(frameId).value) == Some(Frame(true))
              && FrameAt(r, OtherSlot(SlotOf(frameId).value)) == FrameAt(c, OtherSlot(SlotOf(frameId).value))
    ensures url != "" && SlotOf(frameId).None? ==> r.env1Frame == c.env1Frame && r.env2Frame == c.env2Frame
    ensures r.lockEnabled == c.lockEnabled
  {
    if url == "" then c
    else
      var c1 := match container
        case Env1 => c.(env1Container := Loading(true))
        case Env2 => c.(env2Container := Loading(true));
      var c2 := if frameId == "env1" then c1.(env1Frame := Some(Frame(true)))
                else if frameId == "env2" then c1.(env2Frame := Some(Frame(true)))
                else c1;
      // `showLoadingIndicator(frameId)`
      if frameId == "env1" then c2.(env1Container := if c2.env1Container.Loading? then Loading(true) else c2.env1Container)
      else c2.(env2Container := if c2.env2Container.Loading? then Loading(true) else c2.env2Container)
  }

  /** `init`: both query parameters are required; `decodeURIComponent` may
      throw, which stops `init` where it happens. */
  function Init(c: Controller, env1Url: string, env2Url: string, decode: string -> Option<string>): (r: Controller)
    ensures env1Url == "" || env2Url == "" ==>
              r == c.(env1Container := ErrorShown, env2Container := ErrorShown)
    ensures env1Url != "" && env2Url != "" && decode(env1Url).None? ==> r == c
    ensures env1Url != "" && env2Url != "" && decode(env1Url).Some? && decode(env2Url).None? ==>
              r == LoadEnvironment(c, Env1, decode(env1Url).value, "env1")
    ensures env1Url != "" && env2Url != "" && decode(env1Url).Some? && decode(env2Url).Some? ==>
              r == LoadEnvironment(LoadEnvironment(c, Env1, decode(env1Url).value, "env1"),
                                   Env2, decode(env2Url).value, "env2")
  {
    if env1Url == "" || env2Url == "" then c.(env1Container := ErrorShown, env2Container := ErrorShown)
    else
      match decode(env1Url)
      case None => c
      case Some(u1) =>
        var c1 := LoadEnvironment(c, Env1, u1, "env1");
        match decode(env2Url)
        case None => c1
        case Some(u2) => LoadEnvironment(c1, Env2, u2, "env2")
  }

  /** With a url missing, both containers show the error and no frame is
      loaded. */
  lemma InitMissingUrl(env1Url: string, env2Url: string, decode: string -> Option<string>)
    requires env1Url == "" || env2Url == ""
    ensures Init(Initial(), env1Url, env2Url, decode).env1Container == ErrorShown
    ensures Init(Initial(), env1Url, env2Url, decode).env2Container == ErrorShown
    ensures Init(Initial(), env1Url, env2Url, decode).env1Frame.None?
    ensures Init(Initial(), env1Url, env2Url, decode).env2Frame.None?
  {
  }

  /** With both urls present and decodable, both slots hold a frame, so the
      first `loaded` report already rebroadcasts the lock state to both. */
  lemma InitThenLoadedBroadcasts(env1Url: string, env2Url: string, decode: string -> Option<string>, s: Slot)
    requires env1Url != "" && env2Url != ""
    requires decode(env1Url).Some? && decode(env1Url).value != ""
    requires decode(env2Url).Some? && decode(env2Url).value != ""
    ensures var c := Init(Initial(), env1Url, env2Url, decode);
            && Reachable(c, Env1) && Reachable(c, Env2)
            && HandleMessage(c, Some(Tagged("loaded", SlotId(s)))).1
               == [Post(Env1, LockStateMessage(false)), Post(Env2, LockStateMessage(false))]
  {
  }
}
