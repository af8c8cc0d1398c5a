/** The same-page comparison view (comparison/comparison.js): two iframes,
    each moved inside a scrollable wrapper and shifted with `translateY`
    as the wrapper scrolls, kept in step by `handleWrapperScroll`; a
    wheel-driven fallback for frames it cannot reach; and the frame-height
    bookkeeping. Timers are explicit deadlines, the clock an integer. */
module Transform {
  import opened Common
  import opened Messages

  /** How long the guard stays up after a handled wrapper scroll, and after
      a handled wheel event. */
  const WrapperGuard: int := 15
  const WheelGuard: int := 30

  const MinHeight: int := 1000
  const FallbackHeight: int := 10000
  const LoadedPadding: int := 2000

  /** One side of the page. `hasFrame`: the iframe is registered in
      `this.iframes`; `hasWrapper`: its scroll wrapper exists; `scrollTop`:
      the wrapper's scroll offset; `translateY`: the iframe's transform;
      `height`: the iframe's height; `frameScrollY` and
      `scriptable`: the iframe window's own scroll offset, and whether
      scrolling it from here is allowed. */
  datatype Pane = Pane(
    hasFrame: bool,
    hasWrapper: bool,
    scrollTop: int,
    translateY: int,
    height: int,
    frameScrollY: int,
    scriptable: bool)

  datatype Loader = Loader(
    lockEnabled: bool,
    isScrolling: bool,
    env1: Pane,
    env2: Pane,
    guardTimers: seq<int>,
    wheelInstalled: bool)

  /** The loader as the constructor leaves it: unlocked, idle, no frame
      registered yet. */
  function Initial(env1: Pane, env2: Pane): (s: Loader)
    ensures !s.lockEnabled && !s.isScrolling && s.guardTimers == [] && !s.wheelInstalled
    ensures !s.env1.hasFrame && !s.env2.hasFrame
  {
    Loader(false, false, env1.(hasFrame := false), env2.(hasFrame := false), [], false)
  }

  function PaneAt(s: Loader, slot: Slot): Pane
  {
    match slot
    case Env1 => s.env1
    case Env2 => s.env2
  }

  function WithPane(s: Loader, slot: Slot, p: Pane): (r: Loader)
    ensures PaneAt(r, slot) == p && PaneAt(r, OtherSlot(slot)) == PaneAt(s, OtherSlot(slot))
    ensures r.lockEnabled == s.lockEnabled && r.isScrolling == s.isScrolling
    ensures r.guardTimers == s.guardTimers && r.wheelInstalled == s.wheelInstalled
  {
    match slot
    case Env1 => s.(env1 := p)
    case Env2 => s.(env2 := p)
  }

  function Abs(x: int): int
  {
    if x < 0 then -x else x
  }

  /** Both the wrapper and the iframe of a side are there. */
  predicate Present(p: Pane)
  {
    p.hasWrapper && p.hasFrame
  }

  // ---------------------------------------------------------------------
  // handleWrapperScroll
  // ---------------------------------------------------------------------

  /** `handleWrapperScroll(src)` at time `now`. While the guard is up
      nothing happens. Otherwise the guard goes up; with the source wrapper
      or frame missing it comes straight down again and nothing else
      changes; otherwise the source iframe is shifted by the wrapper's
      offset, the other side is brought to the same offset when it is more
      than one pixel away, and a timer will lower the guard. */
  function HandleWrapperScroll(s: Loader, src: Slot, now: int): (r: Loader)
    ensures s.isScrolling ==> r == s
    ensures !Present(PaneAt(s, src)) ==> r == s
    ensures r.lockEnabled == s.lockEnabled && r.wheelInstalled == s.wheelInstalled
    ensures !s.isScrolling && Present(PaneAt(s, src)) ==>
              var st := PaneAt(s, src).scrollTop;
              var tgt := PaneAt(s, OtherSlot(src));
              && r.isScrolling
              && r.guardTimers == s.guardTimers + [now + WrapperGuard]
              && PaneAt(r, src) == PaneAt(s, src).(translateY := -st)
              && PaneAt(r, OtherSlot(src)) ==
                   if Present(tgt) && Abs(tgt.scrollTop - st) > 1
                   then tgt.(scrollTop := st, translateY := -st)
                   else tgt
  {
    if s.isScrolling then s
    else
      var source := PaneAt(s, src);
      if !Present(source) then s
      else
        var st := source.scrollTop;
        var s1 := WithPane(s, src, source.(translateY := -st));
        var t := OtherSlot(src);
        var target := PaneAt(s, t);
        var s2 := if Present(target) && Abs(target.scrollTop - st) > 1
                  then WithPane(s1, t, target.(scrollTop := st, translateY := -st))
                  else s1;
        s2.(isScrolling := true, guardTimers := s2.guardTimers + [now + WrapperGuard])
  }

  /** After a handled scroll with both sides present, the other wrapper is
      within one pixel of the source: either it already was, or it was
      moved onto it. */
  lemma TargetWithinTolerance(s: Loader, src: Slot, now: int)
    requires !s.isScrolling && Present(PaneAt(s, src)) && Present(PaneAt(s, OtherSlot(src)))
    ensures var r := HandleWrapperScroll(s, src, now);
            Abs(PaneAt(r, OtherSlot(src)).scrollTop - PaneAt(r, src).scrollTop) <= 1
  {
  }

  /** Moving the other wrapper fires its own scroll event; while the
      guard is up that echo is absorbed. */
  lemma EchoAbsorbed(s: Loader, src: Slot, now: int, later: int)
    requires !s.isScrolling && Present(PaneAt(s, src))
    ensures var r := HandleWrapperScroll(s, src, now);
            HandleWrapperScroll(r, OtherSlot(src), later) == r
  {
  }

  /** The handler does not look at the lock: turning the lock off (which
      calls the undefined `removeScrollSync` and so removes nothing) leaves
      the wrappers in step. */
  lemma HandlerIgnoresLock(s: Loader, src: Slot, now: int, b: bool)
    ensures HandleWrapperScroll(s.(lockEnabled := b), src, now) == HandleWrapperScroll(s, src, now).(lockEnabled := b)
  {
  }

  // ---------------------------------------------------------------------
  // Timers
  // ---------------------------------------------------------------------

  function Pending(now: int): int -> bool
  {
    (t: int) => t > now
  }

  /** The clock reaches `now`: due timers fire, each lowering the guard. */
  function TimerFired(s: Loader, now: int): (r: Loader)
    ensures r.env1 == s.env1 && r.env2 == s.env2 && r.lockEnabled == s.lockEnabled && r.wheelInstalled == s.wheelInstalled
    ensures forall i :: 0 <= i < |r.guardTimers| ==> r.guardTimers[i] > now
    ensures r.guardTimers == Filter(s.guardTimers, Pending(now))
    ensures forall t :: t in r.guardTimers <==> t in s.guardTimers && t > now
    ensures r.isScrolling <==> s.isScrolling && forall i :: 0 <= i < |s.guardTimers| ==> s.guardTimers[i] > now
  {
    forall t ensures t in Filter(s.guardTimers, Pending(now)) <==> t in s.guardTimers && t > now {
      FilterMembership(s.guardTimers, Pending(now), t);
    }
    var anyDue := exists i :: 0 <= i < |s.guardTimers| && s.guardTimers[i] <= now;
    s.(isScrolling := s.isScrolling && !anyDue, guardTimers := Filter(s.guardTimers, Pending(now)))
  }

  // ---------------------------------------------------------------------
  // Heights
  // ---------------------------------------------------------------------

  /** The larger of two numbers. */
  function Max(a: int, b: int): int
  {
    if a >= b then a else b
  }

  /** `Math.max(...metrics, 1000)`, each metric being `value || 0`. */
  function MeasuredHeight(metrics: seq<nat>): (h: int)
    ensures h >= MinHeight
    ensures forall i :: 0 <= i < |metrics| ==> h >= metrics[i]
    ensures h == MinHeight || exists i :: 0 <= i < |metrics| && h == metrics[i]
  {
    if |metrics| == 0 then MinHeight
    else Max(MeasuredHeight(metrics[..|metrics| - 1]), metrics[|metrics| - 1])
  }

  /** What `handleFrameLoad` finds: no `contentDocument`, a document and
      its six height metrics, or an exception. */
  datatype DocAccess = NoDocument | Readable(metrics: seq<nat>) | Inaccessible

  /** `handleFrameLoad` for one side: the height is the measurement, or
      10000 when the document cannot be read; a successful measurement is
      followed by `handleWrapperScroll` on that side. The listener only
      exists on a wrapped frame. */
  function FrameLoad(s: Loader, src: Slot, access: DocAccess, now: int): (r: Loader)
    ensures !PaneAt(s, src).hasWrapper ==> r == s
    ensures PaneAt(s, src).hasWrapper && !access.Readable? ==>
              r == WithPane(s, src, PaneAt(s, src).(height := FallbackHeight))
    ensures PaneAt(s, src).hasWrapper && access.Readable? ==>
              PaneAt(r, src).height == MeasuredHeight(access.metrics)
              && r == HandleWrapperScroll(WithPane(s, src, PaneAt(s, src).(height := MeasuredHeight(access.metrics))), src, now)
  {
    var p := PaneAt(s, src);
    if !p.hasWrapper then s
    else
      match access
      case Readable(ms) => HandleWrapperScroll(WithPane(s, src, p.(height := MeasuredHeight(ms))), src, now)
      case _ => WithPane(s, src, p.(height := FallbackHeight))
  }

  /** The constructor's `message` listener: a `loaded` payload with a
      truthy `contentHeight`, for a registered frame, sets its height to
      that plus 2000. */
  function HeightMessage(s: Loader, data: Option<Msg>): (r: Loader)
    ensures r.isScrolling == s.isScrolling && r.guardTimers == s.guardTimers
    ensures r.lockEnabled == s.lockEnabled && r.wheelInstalled == s.wheelInstalled
    ensures data.Some? && data.value.msgType == Some("loaded") && data.value.contentHeight.Some?
            && data.value.contentHeight.value != 0 && data.value.frameId.Some?
            && SlotOf(data.value.frameId.value).Some?
            && PaneAt(s, SlotOf(data.value.frameId.value).value).hasFrame ==>
              var slot := SlotOf(data.value.frameId.value).value;
              r == WithPane(s, slot, PaneAt(s, slot).(height := data.value.contentHeight.value + LoadedPadding))
    ensures (|| data.None? || data.value.msgType != Some("loaded") || data.value.contentHeight.None?
             || data.value.contentHeight == Some(0)) ==> r == s
    ensures data.Some? && (data.value.frameId.None? || SlotOf(data.value.frameId.value).None?) ==> r == s
    ensures (&& data.Some? && data.value.frameId.Some? && SlotOf(data.value.frameId.value).Some?
             && !PaneAt(s, SlotOf(data.value.frameId.value).value).hasFrame) ==> r == s
  {
    if data.None? then s
    else
      var m := data.value;
      if m.msgType != Some("loaded") || m.contentHeight.None? || m.contentHeight.value == 0 then s
      else if m.frameId.None? then s
      else
        match SlotOf(m.frameId.value)
        case None => s
        case Some(slot) =>
          var p := PaneAt(s, slot);
          if p.hasFrame then WithPane(s, slot, p.(height := m.contentHeight.value + LoadedPadding)) else s
  }

  /** A height report applied twice leaves the frame as once: the height is
      set from the report, not grown. */
  lemma HeightMessageIdempotent(s: Loader, data: Option<Msg>)
    ensures HeightMessage(HeightMessage(s, data), data) == HeightMessage(s, data)
  {
  }

  // ---------------------------------------------------------------------
  // Wheel fallback
  // ---------------------------------------------------------------------

  /** `e.deltaY || e.detail || e.wheelDelta`. */
  function WheelDelta(deltaY: int, detail: int, wheelDelta: int): (d: int)
    ensures deltaY != 0 ==> d == deltaY
    ensures deltaY == 0 && detail != 0 ==> d == detail
    ensures deltaY == 0 && detail == 0 ==> d == wheelDelta
  {
    if deltaY != 0 then deltaY else if detail != 0 then detail else wheelDelta
  }

  /** `handleWheelEvent` with the already scaled amount: nothing unless the
      fallback is installed, the lock is on and the guard is down; then the
      guard goes up, `env1` and then `env2` are scrolled by the same amount
      (a refused `scrollBy` on `env1` stops before `env2`), and a timer
      will lower the guard. */
  function HandleWheel(s: Loader, amount: int, now: int): (r: Loader)
    ensures !s.wheelInstalled || !s.lockEnabled || s.isScrolling ==> r == s
    ensures s.wheelInstalled && s.lockEnabled && !s.isScrolling ==>
              && r.isScrolling && r.guardTimers == s.guardTimers + [now + WheelGuard]
              && (s.env1.scriptable ==> r.env1.frameScrollY == s.env1.frameScrollY + amount)
              && (s.env1.scriptable && s.env2.scriptable ==> r.env2.frameScrollY == s.env2.frameScrollY + amount)
              && (!s.env1.scriptable ==> r.env1 == s.env1 && r.env2 == s.env2)
              && (!s.env2.scriptable ==> r.env2 == s.env2)
    ensures r.lockEnabled == s.lockEnabled && r.wheelInstalled == s.wheelInstalled
  {
    if !s.wheelInstalled || !s.lockEnabled || s.isScrolling then s
    else
      var s1 := s.(isScrolling := true);
      var s2 := if s.env1.scriptable then
                  var e1 := s1.(env1 := s.env1.(frameScrollY := s.env1.frameScrollY + amount));
                  if s.env2.scriptable then e1.(env2 := s.env2.(frameScrollY := s.env2.frameScrollY + amount))
                  else e1
                else s1;
      s2.(guardTimers := s2.guardTimers + [now + WheelGuard])
  }

  /** With both frames scriptable, one wheel step moves both frames by the
      same amount, so their offsets keep their difference. */
  lemma WheelKeepsOffsetDifference(s: Loader, amount: int, now: int)
    requires s.wheelInstalled && s.lockEnabled && !s.isScrolling
    requires s.env1.scriptable && s.env2.scriptable
    ensures var r := HandleWheel(s, amount, now);
            r.env1.frameScrollY - r.env2.frameScrollY == s.env1.frameScrollY - s.env2.frameScrollY
  {
  }

  // ---------------------------------------------------------------------
  // The lock button
  // ---------------------------------------------------------------------

  /** The page as the lock button finds it. `probeThrows`: reading an
      iframe's `contentDocument` throws. */
  datatype Setup = Setup(frame1: bool, frame2: bool, container1: bool, container2: bool, probeThrows: bool)

  /** One side of `setupScrollSyncWrappers`: a side without a container is
      skipped; an unwrapped frame gets a fresh wrapper (offset 0) and the
      initial 10000px height; an already wrapped one is kept. */
  function WrapPane(p: Pane, container: bool): (r: Pane)
    ensures !container || p.hasWrapper ==> r == p
    ensures container ==> r.hasWrapper && r.hasFrame == p.hasFrame
    ensures container && !p.hasWrapper ==> r.scrollTop == 0 && r.translateY == 0
  {
    if !container || p.hasWrapper then p
    else p.(hasWrapper := true, scrollTop := 0, translateY := 0, height := FallbackHeight)
  }

  /** The lock button. Turning the lock on registers the frames. A missing
      frame makes the `contentDocument` probe throw, and the fallback then
      gives up before installing anything; a probe that throws with both
      frames there installs (another) wheel listener; otherwise each side
      with a container is wrapped. Turning the lock off only flips the
      flag: the call meant to undo the set-up throws, so wrappers and wheel
      listeners stay. */
  function ToggleLock(s: Loader, setup: Setup): (r: Loader)
    ensures r.lockEnabled == !s.lockEnabled
    ensures r.isScrolling == s.isScrolling && r.guardTimers == s.guardTimers
    ensures s.wheelInstalled ==> r.wheelInstalled
    ensures s.lockEnabled ==> r == s.(lockEnabled := false)
    ensures !s.lockEnabled ==> r.env1.hasFrame == setup.frame1 && r.env2.hasFrame == setup.frame2
    ensures !s.lockEnabled ==>
              (r.wheelInstalled <==> s.wheelInstalled || (setup.frame1 && setup.frame2 && setup.probeThrows))
    ensures !s.lockEnabled && setup.frame1 && setup.frame2 && !setup.probeThrows ==>
              (r.env1.hasWrapper <==> s.env1.hasWrapper || setup.container1)
              && (r.env2.hasWrapper <==> s.env2.hasWrapper || setup.container2)
    ensures !s.lockEnabled && !(setup.frame1 && setup.frame2 && !setup.probeThrows) ==>
              r.env1.hasWrapper == s.env1.hasWrapper && r.env2.hasWrapper == s.env2.hasWrapper
  {
    if s.lockEnabled then s.(lockEnabled := false)
    else
      var s1 := s.(lockEnabled := true,
                   env1 := s.env1.(hasFrame := setup.frame1),
                   env2 := s.env2.(hasFrame := setup.frame2));
      if !(setup.frame1 && setup.frame2) then s1
      else if setup.probeThrows then s1.(wheelInstalled := true)
      else s1.(env1 := WrapPane(s1.env1, setup.container1),
               env2 := WrapPane(s1.env2, setup.container2))
  }

  /** Unlocking does not stop the wrappers: after the lock is turned on
      and off again, a wrapper scroll is handled exactly as while locked. */
  lemma UnlockKeepsWrapperSync(s: Loader, setup: Setup, src: Slot, now: int)
    requires !s.lockEnabled
    ensures var on := ToggleLock(s, setup);
            var off := ToggleLock(on, setup);
            HandleWrapperScroll(off, src, now) == HandleWrapperScroll(on, src, now).(lockEnabled := false)
  {
    var on := ToggleLock(s, setup);
    HandlerIgnoresLock(on, src, now, false);
  }

  /** Unlocking does stop the wheel fallback: its handler checks the lock. */
  lemma UnlockStopsWheel(s: Loader, setup: Setup, amount: int, now: int)
    requires s.lockEnabled
    ensures var off := ToggleLock(s, setup);
            HandleWheel(off, amount, now) == off
  {
  }

  // ---------------------------------------------------------------------
  // The guard over a run
  // ---------------------------------------------------------------------

  /** Everything that can happen to the page. */
  datatype Event =
    | WrapperScroll(src: Slot, now: int)
    | Load(side: Slot, access: DocAccess, loadTime: int)
    | Message(data: Option<Msg>)
    | Wheel(amount: int, wheelTime: int)
    | LockButton(setup: Setup)
    | Tick(time: int)

  function Step(s: Loader, e: Event): Loader
  {
    match e
    case WrapperScroll(src, now) => HandleWrapperScroll(s, src, now)
    case Load(side, access, t) => FrameLoad(s, side, access, t)
    case Message(data) => HeightMessage(s, data)
    case Wheel(amount, t) => HandleWheel(s, amount, t)
    case LockButton(setup) => ToggleLock(s, setup)
    case Tick(t) => TimerFired(s, t)
  }

  /** The guard is up exactly while one timer is pending. */
  predicate GuardInvariant(s: Loader)
  {
    && |s.guardTimers| <= 1
    && (s.isScrolling <==> |s.guardTimers| == 1)
  }

  /** Every event keeps the guard invariant, so the guard raised by a
      handled event is lowered by its own timer and by nothing else. */
  lemma StepKeepsGuardInvariant(s: Loader, e: Event)
    requires GuardInvariant(s)
    ensures GuardInvariant(Step(s, e))
  {
    match e
    case Tick(t) =>
      if |s.guardTimers| == 1 {
        if s.guardTimers[0] <= t {
          assert Filter(s.guardTimers, Pending(t)) == [];
        } else {
          FilterAll(s.guardTimers, Pending(t));
        }
      } else {
        assert Filter(s.guardTimers, Pending(t)) == [];
      }
    case _ =>
  }

  /** Under the invariant, the guard raised at `now` by a handled wrapper
      scroll is still up at any tick before `now + 15` and down at any tick
      from then on. */
  lemma GuardLastsFifteen(s: Loader, src: Slot, now: int, t: int)
    requires GuardInvariant(s) && !s.isScrolling && Present(PaneAt(s, src))
    ensures TimerFired(HandleWrapperScroll(s, src, now), t).isScrolling <==> t < now + WrapperGuard
  {
    var r := HandleWrapperScroll(s, src, now);
    assert r.guardTimers == [now + WrapperGuard];
  }
}
