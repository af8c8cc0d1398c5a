/** The wrapper document around each compared site
    (comparison/js/wrapper.js): it reports scroll, wheel, touch and load
    events to the comparison page and applies the scroll payloads it
    receives. */
module Wrapper {
  import opened Common
  import opened Messages

  /** The two attributes of the wrapper's `<script>` element. */
  datatype Config = Config(frameId: string, url: string)

  /** `init` up to the installation of the listeners: it stops when the
      script element, either attribute (missing or empty) or the inner
      iframe is missing; nothing is installed then. */
  function Init(scriptFound: bool, frameId: string, url: string, iframeFound: bool): (r: Option<Config>)
    ensures r.Some? <==> scriptFound && frameId != "" && url != "" && iframeFound
    ensures r.Some? ==> r.value.frameId == frameId && r.value.url == url
  {
    if !scriptFound then None
    else if frameId == "" || url == "" then None
    else if !iframeFound then None
    else Some(Config(frameId, url))
  }

  /** A running wrapper: its id, the last touch ordinate, and its own
      scroll position. */
  datatype WrapperState = WrapperState(frameId: string, touchStartY: int, pos: Position)

  /** The state right after a successful `init`; the touch ordinate starts
      at 0. */
  function Start(c: Config, pos: Position): (w: WrapperState)
    ensures w.frameId == c.frameId && w.touchStartY == 0 && w.pos == pos
  {
    WrapperState(c.frameId, 0, pos)
  }

  /** A `scroll` event: an absolute payload with the current position. */
  function OnScroll(w: WrapperState): (m: Msg)
    ensures m.msgType == Some("scroll") && m.frameId == Some(w.frameId)
    ensures Classify(m) == ScrollTo(w.pos.x, w.pos.y)
  {
    Tagged("scroll", w.frameId).(scrollX := Some(w.pos.x), scrollY := Some(w.pos.y))
  }

  /** A `wheel` event: a relative payload with the wheel deltas. */
  function OnWheel(w: WrapperState, dx: int, dy: int): (m: Msg)
    ensures m.msgType == Some("scroll") && m.frameId == Some(w.frameId)
    ensures Classify(m) == ScrollBy(dx, dy)
  {
    Tagged("scroll", w.frameId).(deltaX := Some(dx), deltaY := Some(dy))
  }

  /** `touchstart`: remember the finger's ordinate. */
  function OnTouchStart(w: WrapperState, y: int): (r: WrapperState)
    ensures r.touchStartY == y && r.frameId == w.frameId && r.pos == w.pos
  {
    w.(touchStartY := y)
  }

  /** `touchmove` as written: the payload carries only `deltaY`, the
      distance travelled since the last touch event, and the ordinate
      moves on. */
  function OnTouchMove(w: WrapperState, y: int): (r: (WrapperState, Msg))
    ensures r.0.touchStartY == y && r.0.frameId == w.frameId && r.0.pos == w.pos
    ensures r.1.msgType == Some("scroll") && r.1.frameId == Some(w.frameId)
    ensures r.1.deltaY == Some(w.touchStartY - y)
    ensures r.1.deltaX.None? && r.1.scrollX.None? && r.1.scrollY.None?
  {
    (w.(touchStartY := y), Tagged("scroll", w.frameId).(deltaY := Some(w.touchStartY - y)))
  }

  /** The iframe's `load`: a `loaded` payload with the id. */
  function OnLoad(w: WrapperState): (m: Msg)
    ensures m.msgType == Some("loaded") && m.frameId == Some(w.frameId)
    ensures Classify(m) == NoScroll
  {
    Tagged("loaded", w.frameId)
  }

  /** A `message` event: only `scroll` payloads move the wrapper (a payload
      that is not an object makes the handler throw before it does
      anything). */
  function OnMessage(w: WrapperState, data: Option<Msg>): (r: WrapperState)
    ensures r.frameId == w.frameId && r.touchStartY == w.touchStartY
    ensures data.None? || data.value.msgType != Some("scroll") ==> r == w
    ensures data.Some? && data.value.msgType == Some("scroll") ==> r.pos == Apply(w.pos, Classify(data.value))
  {
    w.(pos := Receive(w.pos, data))
  }

  // ---------------------------------------------------------------------
  // A touch gesture
  // ---------------------------------------------------------------------

  /** The payloads of a gesture: `touchmove` at each ordinate of `ys`, in
      order. */
  function Gesture(w: WrapperState, ys: seq<int>): (r: (WrapperState, seq<Msg>))
    ensures |r.1| == |ys|
    ensures r.0.frameId == w.frameId && r.0.pos == w.pos
    ensures r.0.touchStartY == if |ys| == 0 then w.touchStartY else ys[|ys| - 1]
    ensures forall i :: 0 <= i < |r.1| ==>
              r.1[i].msgType == Some("scroll") && r.1[i].deltaY.Some?
              && r.1[i].deltaX.None? && r.1[i].scrollX.None? && r.1[i].scrollY.None?
  {
    if |ys| == 0 then (w, [])
    else
      var before := Gesture(w, ys[..|ys| - 1]);
      var step := OnTouchMove(before.0, ys[|ys| - 1]);
      (step.0, before.1 + [step.1])
  }

  /** The sum of the `deltaY` fields of a list of payloads. */
  function SumDeltaY(ms: seq<Msg>): int
  {
    if |ms| == 0 then 0
    else SumDeltaY(ms[..|ms| - 1]) + (if ms[|ms| - 1].deltaY.Some? then ms[|ms| - 1].deltaY.value else 0)
  }

  /** Over a gesture, the reported deltas add up to the distance from the
      first to the last ordinate: nothing is lost or counted twice. */
  lemma {:induction false} GestureSum(w: WrapperState, ys: seq<int>)
    ensures SumDeltaY(Gesture(w, ys).1) == w.touchStartY - Gesture(w, ys).0.touchStartY
  {
    if |ys| > 0 {
      var before := Gesture(w, ys[..|ys| - 1]);
      GestureSum(w, ys[..|ys| - 1]);
      var ms := Gesture(w, ys).1;
      assert ms[..|ms| - 1] == before.1;
    }
  }

  /** A receiver applying a list of payloads in order. */
  function ReceiveAll(p: Position, ms: seq<Msg>): Position
  {
    if |ms| == 0 then p else Receive(ReceiveAll(p, ms[..|ms| - 1]), Some(ms[|ms| - 1]))
  }

  /** Payloads without `deltaX` and without absolute coordinates move no
      receiver. */
  lemma {:induction false} DeltaYOnlyIgnored(p: Position, ms: seq<Msg>)
    requires forall i :: 0 <= i < |ms| ==> ms[i].deltaX.None? && ms[i].scrollX.None?
    ensures ReceiveAll(p, ms) == p
  {
    if |ms| > 0 {
      DeltaYOnlyIgnored(p, ms[..|ms| - 1]);
    }
  }

  /** As written, a whole touch gesture, relayed to the other frame, does
      not scroll it at all. */
  lemma TouchGestureIgnored(w: WrapperState, ys: seq<int>, p: Position)
    ensures ReceiveAll(p, Gesture(w, ys).1) == p
  {
    DeltaYOnlyIgnored(p, Gesture(w, ys).1);
  }

  /** `touchmove` with the horizontal delta the receivers require: zero. */
  function OnTouchMoveFixed(w: WrapperState, y: int): (r: (WrapperState, Msg))
    ensures r.0 == OnTouchMove(w, y).0
    ensures r.1 == OnTouchMove(w, y).1.(deltaX := Some(0))
    ensures Classify(r.1) == ScrollBy(0, w.touchStartY - y)
  {
    var (w2, m) := OnTouchMove(w, y);
    (w2, m.(deltaX := Some(0)))
  }

  function GestureFixed(w: WrapperState, ys: seq<int>): (r: (WrapperState, seq<Msg>))
    ensures r.0 == Gesture(w, ys).0
  {
    if |ys| == 0 then (w, [])
    else
      var before := GestureFixed(w, ys[..|ys| - 1]);
      var step := OnTouchMoveFixed(before.0, ys[|ys| - 1]);
      (step.0, before.1 + [step.1])
  }

  /** With the horizontal delta supplied, a relayed gesture scrolls the
      other frame vertically by exactly the distance the finger moved. */
  lemma {:induction false} TouchGestureFixedScrolls(w: WrapperState, ys: seq<int>, p: Position)
    ensures ReceiveAll(p, GestureFixed(w, ys).1)
            == Position(p.x, p.y + w.touchStartY - GestureFixed(w, ys).0.touchStartY)
  {
    if |ys| > 0 {
      var before := GestureFixed(w, ys[..|ys| - 1]);
      TouchGestureFixedScrolls(w, ys[..|ys| - 1], p);
      var ms := GestureFixed(w, ys).1;
      assert ms[..|ms| - 1] == before.1;
    }
  }
}
