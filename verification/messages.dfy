/** The `postMessage` payloads of the comparison page and the scroll rule
    both frame receivers apply (comparison/js/wrapper.js and
    comparison/js/proxy.js). A payload is a plain object whose keys may be
    missing; a missing key is `None`. */
module Messages {
  import opened Common

  /** Every key any script of the comparison page reads or writes. */
  datatype Msg = Msg(
    msgType: Option<string>,
    frameId: Option<string>,
    scrollX: Option<int>,
    scrollY: Option<int>,
    deltaX: Option<int>,
    deltaY: Option<int>,
    scrollTop: Option<int>,
    scrollLeft: Option<int>,
    contentHeight: Option<int>,
    active: Option<bool>,
    isLocked: Option<bool>)

  /** `{type: t}` and nothing else. */
  function Typed(t: string): (m: Msg)
    ensures m.msgType == Some(t)
  {
    Msg(Some(t), None, None, None, None, None, None, None, None, None, None)
  }

  /** `{type, frameId}`, the shape of `loaded` and `error`. */
  function Tagged(t: string, frameId: string): (m: Msg)
    ensures m.msgType == Some(t) && m.frameId == Some(frameId)
  {
    Typed(t).(frameId := Some(frameId))
  }

  /** The two panes of the comparison page, `env1` and `env2`. */
  datatype Slot = Env1 | Env2

  /** The id a pane goes by in payloads and element ids. */
  function SlotId(s: Slot): (id: string)
    ensures id == "env1" || id == "env2"
  {
    match s
    case Env1 => "env1"
    case Env2 => "env2"
  }

  /** The pane an id names, if any. */
  function SlotOf(id: string): (r: Option<Slot>)
    ensures r.Some? ==> SlotId(r.value) == id
    ensures r.None? <==> id != "env1" && id != "env2"
  {
    if id == "env1" then Some(Env1) else if id == "env2" then Some(Env2) else None
  }

  /** `sourceEnvId === 'env1' ? 'env2' : 'env1'`. */
  function OtherSlot(s: Slot): (r: Slot)
    ensures r != s
  {
    match s
    case Env1 => Env2
    case Env2 => Env1
  }

  /** A window's scroll position. */
  datatype Position = Position(x: int, y: int)

  /** What a received `scroll` payload asks for. */
  datatype ScrollCommand = ScrollTo(x: int, y: int) | ScrollBy(dx: int, dy: int) | NoScroll

  /** The rule of both receivers: both absolute coordinates present means
      `scrollTo`; otherwise both deltas present means `scrollBy`;
      otherwise nothing. */
  function Classify(m: Msg): (c: ScrollCommand)
    ensures c.ScrollTo? <==> m.scrollX.Some? && m.scrollY.Some?
    ensures c.ScrollTo? ==> c == ScrollTo(m.scrollX.value, m.scrollY.value)
    ensures c.ScrollBy? <==> !(m.scrollX.Some? && m.scrollY.Some?) && m.deltaX.Some? && m.deltaY.Some?
    ensures c.ScrollBy? ==> c == ScrollBy(m.deltaX.value, m.deltaY.value)
  {
    if m.scrollX.Some? && m.scrollY.Some? then ScrollTo(m.scrollX.value, m.scrollY.value)
    else if m.deltaX.Some? && m.deltaY.Some? then ScrollBy(m.deltaX.value, m.deltaY.value)
    else NoScroll
  }

  /** `window.scrollTo` / `window.scrollBy` on an unbounded page. */
  function Apply(p: Position, c: ScrollCommand): (r: Position)
    ensures c.ScrollTo? ==> r == Position(c.x, c.y)
    ensures c.ScrollBy? ==> r.x - p.x == c.dx && r.y - p.y == c.dy
    ensures c.NoScroll? ==> r == p
  {
    match c
    case ScrollTo(x, y) => Position(x, y)
    case ScrollBy(dx, dy) => Position(p.x + dx, p.y + dy)
    case NoScroll => p
  }

  /** The receiving side of a frame: non-`scroll` payloads and payloads
      that are not objects change nothing. */
  function Receive(p: Position, data: Option<Msg>): (r: Position)
    ensures data.None? || data.value.msgType != Some("scroll") ==> r == p
    ensures data.Some? && data.value.msgType == Some("scroll") ==> r == Apply(p, Classify(data.value))
  {
    if data.Some? && data.value.msgType == Some("scroll") then Apply(p, Classify(data.value)) else p
  }

  /** An absolute payload applied twice lands where it landed once: the
      position is set, not moved. */
  lemma ReceiveAbsoluteIdempotent(p: Position, m: Msg)
    requires m.msgType == Some("scroll") && m.scrollX.Some? && m.scrollY.Some?
    ensures Receive(Receive(p, Some(m)), Some(m)) == Receive(p, Some(m)) == Position(m.scrollX.value, m.scrollY.value)
  {
  }

  /** A payload that carries both pairs is absolute: the deltas and the
      prior position play no part. */
  lemma AbsoluteWins(p: Position, q: Position, m: Msg)
    requires m.msgType == Some("scroll") && m.scrollX.Some? && m.scrollY.Some?
    ensures Receive(p, Some(m)) == Receive(q, Some(m))
    ensures Receive(p, Some(m)) == Receive(p, Some(m.(deltaX := None, deltaY := None)))
  {
  }

  /** Relative payloads compose by adding their deltas. */
  lemma DeltasCompose(p: Position, m1: Msg, m2: Msg)
    requires m1.msgType == Some("scroll") && m2.msgType == Some("scroll")
    requires Classify(m1).ScrollBy? && Classify(m2).ScrollBy?
    ensures Receive(Receive(p, Some(m1)), Some(m2))
            == Position(p.x + m1.deltaX.value + m2.deltaX.value, p.y + m1.deltaY.value + m2.deltaY.value)
  {
  }

  /** A payload with neither pair complete is ignored, whatever it holds. */
  lemma IncompleteIgnored(p: Position, m: Msg)
    requires !(m.scrollX.Some? && m.scrollY.Some?) && !(m.deltaX.Some? && m.deltaY.Some?)
    ensures Receive(p, Some(m)) == p
  {
  }
}
