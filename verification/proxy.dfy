/** The proxy document variant (comparison/js/proxy.js): the same
    scroll and wheel reports as the wrapper, a `loaded` report delayed by
    100 ms, an `error` report, and a receiver that first checks that the
    payload is an object. */
module Proxy {
  import opened Common
  import opened Messages
  import Wrapper

  const LoadedDelay: int := 100

  /** A running proxy: its id, its scroll position, and the deadlines of
      the pending `loaded` timers. */
  datatype ProxyState = ProxyState(frameId: string, pos: Position, loadedTimers: seq<int>)

  /** `handleScroll`. */
  function OnScroll(s: ProxyState): (m: Msg)
    ensures m.msgType == Some("scroll") && m.frameId == Some(s.frameId)
    ensures m.scrollX == Some(s.pos.x) && m.scrollY == Some(s.pos.y)
    ensures m.deltaX.None? && m.deltaY.None?
  {
    Tagged("scroll", s.frameId).(scrollX := Some(s.pos.x), scrollY := Some(s.pos.y))
  }

  /** `handleWheel`. */
  function OnWheel(s: ProxyState, dx: int, dy: int): (m: Msg)
    ensures m.msgType == Some("scroll") && m.frameId == Some(s.frameId)
    ensures m.deltaX == Some(dx) && m.deltaY == Some(dy)
    ensures m.scrollX.None? && m.scrollY.None?
  {
    Tagged("scroll", s.frameId).(deltaX := Some(dx), deltaY := Some(dy))
  }

  /** The proxy reports scrolls and wheels with exactly the payloads the
      wrapper sends, so one receiver rule serves both. */
  lemma ReportsMatchWrapper(s: ProxyState, touchStartY: int, dx: int, dy: int)
    ensures OnScroll(s) == Wrapper.OnScroll(Wrapper.WrapperState(s.frameId, touchStartY, s.pos))
    ensures OnWheel(s, dx, dy) == Wrapper.OnWheel(Wrapper.WrapperState(s.frameId, touchStartY, s.pos), dx, dy)
  {
  }

  /** `iframe.onerror`. */
  function OnError(s: ProxyState): (m: Msg)
    ensures m.msgType == Some("error") && m.frameId == Some(s.frameId)
    ensures Classify(m) == NoScroll
  {
    Tagged("error", s.frameId)
  }

  /** `iframe.onload`: a timer that will report `loaded` 100 ms later. */
  function OnLoad(s: ProxyState, now: int): (r: ProxyState)
    ensures r.frameId == s.frameId && r.pos == s.pos
    ensures r.loadedTimers == s.loadedTimers + [now + LoadedDelay]
  {
    s.(loadedTimers := s.loadedTimers + [now + LoadedDelay])
  }

  function Due(now: int): int -> bool
  {
    (t: int) => t <= now
  }

  function Pending(now: int): int -> bool
  {
    (t: int) => t > now
  }

  /** The clock reaches `now`: every due timer fires and posts one
      `loaded` payload; the others stay pending. */
  function Tick(s: ProxyState, now: int): (r: (ProxyState, seq<Msg>))
    ensures r.0.frameId == s.frameId && r.0.pos == s.pos
    ensures forall i :: 0 <= i < |r.0.loadedTimers| ==> r.0.loadedTimers[i] > now
    ensures r.0.loadedTimers == Filter(s.loadedTimers, Pending(now))
    ensures IsSublist(r.0.loadedTimers, s.loadedTimers)
    ensures forall t :: t in r.0.loadedTimers <==> t in s.loadedTimers && t > now
    ensures |r.1| == |Filter(s.loadedTimers, Due(now))|
    ensures |r.1| + |r.0.loadedTimers| == |s.loadedTimers|
    ensures forall i :: 0 <= i < |r.1| ==> r.1[i] == Tagged("loaded", s.frameId)
  {
    FilterSublist(s.loadedTimers, Pending(now));
    forall t ensures t in Filter(s.loadedTimers, Pending(now)) <==> t in s.loadedTimers && t > now {
      FilterMembership(s.loadedTimers, Pending(now), t);
    }
    FilterPartitionLength(s.loadedTimers, Due(now), Pending(now));
    var fired := Filter(s.loadedTimers, Due(now));
    (s.(loadedTimers := Filter(s.loadedTimers, Pending(now))), seq(|fired|, _ => Tagged("loaded", s.frameId)))
  }

  /** Every load is reported exactly once: a tick posts one `loaded`
      payload per due timer and keeps the others pending; at or after the
      last deadline it leaves none pending, and before every deadline it
      reports nothing. */
  lemma {:induction false} EachLoadReportedOnce(s: ProxyState, now: int)
    ensures |Tick(s, now).1| + |Tick(s, now).0.loadedTimers| == |s.loadedTimers|
    ensures (forall i :: 0 <= i < |s.loadedTimers| ==> s.loadedTimers[i] <= now) ==>
              |Tick(s, now).1| == |s.loadedTimers| && Tick(s, now).0.loadedTimers == []
    ensures (forall i :: 0 <= i < |s.loadedTimers| ==> s.loadedTimers[i] > now) ==>
              Tick(s, now).1 == [] && Tick(s, now).0 == s
  {
    if forall i :: 0 <= i < |s.loadedTimers| ==> s.loadedTimers[i] <= now {
      FilterAll(s.loadedTimers, Due(now));
      FilterNone(s.loadedTimers, Pending(now));
    }
    if forall i :: 0 <= i < |s.loadedTimers| ==> s.loadedTimers[i] > now {
      FilterNone(s.loadedTimers, Due(now));
      FilterAll(s.loadedTimers, Pending(now));
    }
  }

  /** A load is not reported before 100 ms have passed. */
  lemma LoadNotReportedEarly(s: ProxyState, now: int, later: int)
    requires s.loadedTimers == [] && later < now + LoadedDelay
    ensures Tick(OnLoad(s, now), later).1 == []
  {
    EachLoadReportedOnce(OnLoad(s, now), later);
  }

  /** A `message` event: anything but an object is dropped by the guard;
      objects follow the common scroll rule. */
  function OnMessage(s: ProxyState, data: Option<Msg>): (r: ProxyState)
    ensures r.frameId == s.frameId && r.loadedTimers == s.loadedTimers
    ensures data.None? ==> r == s
    ensures data.Some? && data.value.msgType == Some("scroll") ==> r.pos == Apply(s.pos, Classify(data.value))
    ensures data.Some? && data.value.msgType != Some("scroll") ==> r == s
  {
    s.(pos := Receive(s.pos, data))
  }
}
