/** The in-frame scroll script (comparison/js/frame-scroll.js): it reports
    its own scrolling, throttled to one report per 50 ms, while it is
    locked and not replaying a remote scroll, and it replays the
    `syncScroll` payloads it receives. */
module FrameScroll {
  import opened Common
  import opened Messages

  /** `SCROLL_THROTTLE`: the minimum gap between two reports, and the
      length of the replay guard. */
  const Throttle: int := 50

  datatype FrameState = FrameState(
    name: string,
    isLocked: bool,
    isScrolling: bool,
    lastScrollTime: int,
    pos: Position,
    guardTimers: seq<int>)

  /** The script's state when it starts: unlocked, idle, never reported. */
  function Initial(name: string, pos: Position): (s: FrameState)
    ensures !s.isLocked && !s.isScrolling && s.lastScrollTime == 0 && s.guardTimers == []
  {
    FrameState(name, false, false, 0, pos, [])
  }

  /** The payload of a report: `scrollTop` is the vertical and
      `scrollLeft` the horizontal position; the id is the window's name. */
  function Report(s: FrameState): (m: Msg)
    ensures m.msgType == Some("scroll") && m.frameId == Some(s.name)
    ensures m.scrollTop == Some(s.pos.y) && m.scrollLeft == Some(s.pos.x)
    ensures m.scrollX.None? && m.scrollY.None? && m.deltaX.None? && m.deltaY.None?
  {
    Tagged("scroll", s.name).(scrollTop := Some(s.pos.y), scrollLeft := Some(s.pos.x))
  }

  /** `notifyScroll` at time `now`: nothing while unlocked or replaying,
      nothing within 50 ms of the last report; otherwise the report goes
      out and its time is remembered. */
  function NotifyScroll(s: FrameState, now: int): (r: (FrameState, Option<Msg>))
    ensures r.1.Some? <==> s.isLocked && !s.isScrolling && now - s.lastScrollTime >= Throttle
    ensures r.1.None? ==> r.0 == s
    ensures r.1.Some? ==> r.0 == s.(lastScrollTime := now) && r.1.value == Report(s)
  {
    if !s.isLocked || s.isScrolling then (s, None)
    else if now - s.lastScrollTime < Throttle then (s, None)
    else (s.(lastScrollTime := now), Some(Report(s)))
  }

  /** The `message` listener: `scrollLockState` copies `isLocked` (a
      missing key reads as `undefined`, which is falsy); `syncScroll`,
      when locked, raises the guard, scrolls to the given position (a
      missing coordinate is left as it is) and arms the 50 ms timer; any
      other payload is ignored. */
  function HandleMessage(s: FrameState, data: Option<Msg>, now: int): (r: FrameState)
    ensures r.name == s.name && r.lastScrollTime == s.lastScrollTime
    ensures data.Some? && data.value.msgType == Some("scrollLockState") ==>
              r == s.(isLocked := data.value.isLocked == Some(true))
    ensures data.Some? && data.value.msgType == Some("syncScroll") && !s.isLocked ==> r == s
    ensures data.Some? && data.value.msgType == Some("syncScroll") && s.isLocked ==>
              && r.isScrolling && r.isLocked
              && r.guardTimers == s.guardTimers + [now + Throttle]
              && (data.value.scrollTop.Some? ==> r.pos.y == data.value.scrollTop.value)
              && (data.value.scrollLeft.Some? ==> r.pos.x == data.value.scrollLeft.value)
              && (data.value.scrollTop.None? ==> r.pos.y == s.pos.y)
              && (data.value.scrollLeft.None? ==> r.pos.x == s.pos.x)
    ensures data.None? ==> r == s
    ensures data.Some? && data.value.msgType != Some("scrollLockState") && data.value.msgType != Some("syncScroll") ==>
              r == s
  {
    if data.None? then s
    else
      var m := data.value;
      if m.msgType == Some("scrollLockState") then s.(isLocked := m.isLocked == Some(true))
      else if m.msgType == Some("syncScroll") then
        if !s.isLocked then s
        else
          var y := if m.scrollTop.Some? then m.scrollTop.value else s.pos.y;
          var x := if m.scrollLeft.Some? then m.scrollLeft.value else s.pos.x;
          s.(isScrolling := true, pos := Position(x, y), guardTimers := s.guardTimers + [now + Throttle])
      else s
  }

  function Pending(now: int): int -> bool
  {
    (t: int) => t > now
  }

  /** The clock reaches `now`: due guard timers fire and lower the guard. */
  function TimerFired(s: FrameState, now: int): (r: FrameState)
    ensures r.name == s.name && r.isLocked == s.isLocked && r.lastScrollTime == s.lastScrollTime && r.pos == s.pos
    ensures forall i :: 0 <= i < |r.guardTimers| ==> r.guardTimers[i] > now
    ensures r.guardTimers == Filter(s.guardTimers, Pending(now))
    ensures forall t :: t in r.guardTimers <==> t in s.guardTimers && t > now
    ensures r.isScrolling <==> s.isScrolling && forall i :: 0 <= i < |s.guardTimers| ==> s.guardTimers[i] > now
  {
    forall t ensures t in Filter(s.guardTimers, Pending(now)) <==> t in s.guardTimers && t > now {
      FilterMembership(s.guardTimers, Pending(now), t);
    }
    var anyDue := exists i :: 0 <= i < |s.guardTimers| && s.guardTimers[i] <= now;
    s.(isScrolling := s.isScrolling && !anyDue, guardTimers := Filter(s.guardTimers, Pending(now)))
  }

  /** A replayed scroll does not echo: right after a `syncScroll`, and until
      its timer fires, the script's own scroll events report nothing. */
  lemma ReplayDoesNotEcho(s: FrameState, m: Msg, now: int, later: int)
    requires s.isLocked && m.msgType == Some("syncScroll")
    ensures NotifyScroll(HandleMessage(s, Some(m), now), later).1.None?
  {
  }

  // ---------------------------------------------------------------------
  // Traces
  // ---------------------------------------------------------------------

  /** What happens to the script: its own scroll, a message, or the clock
      reaching a time. */
  datatype Event = ScrollEvent(now: int) | MessageEvent(data: Option<Msg>, at: int) | TimerEvent(time: int)

  /** One event; the second component is the time of the report sent, if
      any. */
  function Step(s: FrameState, e: Event): (r: (FrameState, Option<int>))
    ensures r.1.None? ==> r.0.lastScrollTime == s.lastScrollTime
    ensures r.1.Some? ==> r.0.lastScrollTime == r.1.value && r.1.value - s.lastScrollTime >= Throttle
  {
    match e
    case ScrollEvent(now) =>
      var (s2, m) := NotifyScroll(s, now);
      (s2, if m.Some? then Some(now) else None)
    case MessageEvent(data, at) => (HandleMessage(s, data, at), None)
    case TimerEvent(time) => (TimerFired(s, time), None)
  }

  /** A run of events and the times of the reports it sends. Reports are
      at least 50 ms apart, the first at least 50 ms after the initial
      `lastScrollTime`, and `lastScrollTime` is always the time of the
      latest report. */
  function Run(s: FrameState, evs: seq<Event>): (r: (FrameState, seq<int>))
    ensures |r.1| == 0 ==> r.0.lastScrollTime == s.lastScrollTime
    ensures |r.1| > 0 ==> r.0.lastScrollTime == r.1[|r.1| - 1]
    ensures |r.1| > 0 ==> r.1[0] - s.lastScrollTime >= Throttle
    ensures forall i :: 0 < i < |r.1| ==> r.1[i] - r.1[i - 1] >= Throttle
  {
    if |evs| == 0 then (s, [])
    else
      var (s1, times) := Run(s, evs[..|evs| - 1]);
      var (s2, t) := Step(s1, evs[|evs| - 1]);
      (s2, if t.Some? then times + [t.value] else times)
  }

  /** Whatever the events, no report is sent while the script stays
      unlocked: a run that never raises the lock is silent. */
  lemma {:induction false} UnlockedRunIsSilent(s: FrameState, evs: seq<Event>)
    requires !s.isLocked
    requires forall i :: 0 <= i < |evs| ==> !LocksFrame(evs[i])
    ensures Run(s, evs).1 == [] && !Run(s, evs).0.isLocked
  {
    if |evs| > 0 {
      UnlockedRunIsSilent(s, evs[..|evs| - 1]);
    }
  }

  /** An event that can set the lock: a `scrollLockState` payload with
      `isLocked: true`. */
  predicate LocksFrame(e: Event)
  {
    e.MessageEvent? && e.data.Some? && e.data.value.msgType == Some("scrollLockState")
    && e.data.value.isLocked == Some(true)
  }
}
