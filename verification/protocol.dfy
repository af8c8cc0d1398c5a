/** How the scripts of the wrapper-based comparison page fit together:
    the controller (comparison/js/comparison.js) talks to the wrappers
    (comparison/js/wrapper.js) in one vocabulary, and the in-frame script
    (comparison/js/frame-scroll.js) listens for another. Each script is
    modelled with its own wire format; the lemmas here say what happens
    when their messages meet. */
module Protocol {
  import opened Common
  import opened Messages
  import Relay
  import Wrapper
  import FrameScroll

  // ---------------------------------------------------------------------
  // Controller and wrappers agree
  // ---------------------------------------------------------------------

  /** A scroll in the `env1` wrapper, while the lock is on and the `env2`
      frame is reachable, is relayed to `env2` alone and puts the `env2`
      wrapper at the same position. */
  lemma ScrollMirrored(c: Relay.Controller, w1: Wrapper.WrapperState, w2: Wrapper.WrapperState)
    requires c.lockEnabled && Relay.Reachable(c, Env2) && w1.frameId == "env1"
    ensures var posts := Relay.HandleMessage(c, Some(Wrapper.OnScroll(w1))).1;
            && posts == [Relay.Post(Env2, Wrapper.OnScroll(w1))]
            && Wrapper.OnMessage(w2, Some(posts[0].msg)).pos == w1.pos
  {
    Relay.ScrollRouting(c, Wrapper.OnScroll(w1));
  }

  /** A wheel turn in one wrapper moves the other by the same deltas. */
  lemma WheelMirrored(c: Relay.Controller, w: Wrapper.WrapperState, other: Wrapper.WrapperState, dx: int, dy: int)
    requires c.lockEnabled && SlotOf(w.frameId).Some?
    requires Relay.Reachable(c, OtherSlot(SlotOf(w.frameId).value))
    ensures var posts := Relay.HandleMessage(c, Some(Wrapper.OnWheel(w, dx, dy))).1;
            && |posts| == 1 && posts[0].to == OtherSlot(SlotOf(w.frameId).value)
            && Wrapper.OnMessage(other, Some(posts[0].msg)).pos
               == Position(other.pos.x + dx, other.pos.y + dy)
  {
    Relay.ScrollRouting(c, Wrapper.OnWheel(w, dx, dy));
  }

  // ---------------------------------------------------------------------
  // The in-frame script does not speak the controller's language
  // ---------------------------------------------------------------------

  /** The controller's lock broadcast carries `active`, while the in-frame
      script copies `isLocked`, which the broadcast leaves out: whatever
      the controller's flag, the script ends up unlocked. */
  lemma LockBroadcastUnlocksFrame(s: FrameScroll.FrameState, b: bool, now: int)
    ensures !FrameScroll.HandleMessage(s, Some(Relay.LockStateMessage(b)), now).isLocked
  {
  }

  /** The controller relays `scroll` payloads; the in-frame script only
      replays `syncScroll`, so every payload the controller relays leaves
      it unchanged. */
  lemma RelayedScrollIgnoredByFrame(c: Relay.Controller, m: Msg, s: FrameScroll.FrameState, now: int)
    requires m.msgType == Some("scroll")
    ensures forall p :: p in Relay.HandleMessage(c, Some(m)).1 ==>
              FrameScroll.HandleMessage(s, Some(p.msg), now) == s
  {
    Relay.ScrollRouting(c, m);
  }

  /** What the controller can deliver to a frame: its lock broadcast, a
      relayed `scroll` payload, or nothing at all (the frame's own scrolls
      and its timers). */
  predicate ControllerTraffic(e: FrameScroll.Event)
  {
    match e
    case ScrollEvent(_) => true
    case TimerEvent(_) => true
    case MessageEvent(data, _) =>
      data.Some? &&
      ((exists b: bool :: data.value == Relay.LockStateMessage(b)) || data.value.msgType == Some("scroll"))
  }

  /** Fed only by the controller, the in-frame script never reports a
      scroll: no message it receives can set its lock. */
  lemma {:induction false} FrameSilentUnderController(name: string, pos: Position, evs: seq<FrameScroll.Event>)
    requires forall i :: 0 <= i < |evs| ==> ControllerTraffic(evs[i])
    ensures FrameScroll.Run(FrameScroll.Initial(name, pos), evs).1 == []
  {
    forall i | 0 <= i < |evs|
      ensures !FrameScroll.LocksFrame(evs[i])
    {
      assert ControllerTraffic(evs[i]);
    }
    FrameScroll.UnlockedRunIsSilent(FrameScroll.Initial(name, pos), evs);
  }

  /** Conversely, a report of the in-frame script carries `scrollTop` and
      `scrollLeft`, which no wrapper reads: relayed by the controller, it
      moves nothing. */
  lemma FrameReportIgnoredByWrapper(c: Relay.Controller, s: FrameScroll.FrameState, w: Wrapper.WrapperState)
    ensures forall p :: p in Relay.HandleMessage(c, Some(FrameScroll.Report(s))).1 ==>
              Wrapper.OnMessage(w, Some(p.msg)) == w
  {
    Relay.ScrollRouting(c, FrameScroll.Report(s));
  }
}
