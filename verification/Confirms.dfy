/**
 Publisher confirms, on values: `Reliable<Throttle>`, a window of unconfirmed messages with a
 queue behind it. The tag counter, the last tag sent, the open tags, the queue and the handlers are
 separate views of the same messages.

 The channel is usable and takes every frame.
 */
module Confirms {
  import opened Bytes
  import opened Options
  import Content

  type positive = x: int | x > 0 witness 1

  /** A message to publish, and what its handler does in turn when it is acked or nacked. */
  datatype Message = Message(body: seq<byte>, onAck: seq<Act>, onNack: seq<Act>)

  datatype Act = Posts(message: Message) | Shuts | Flushes(max: nat) | Throttles(throttle: nat)

  datatype Tagged = Tagged(tag: nat, frame: Content.Frame)

  datatype Verdict = Acked | Nacked | Lost

  datatype Resolution = Resolution(tag: nat, verdict: Verdict)

  /**
   The frames handed to the channel, the messages that got a tag, the verdicts handlers were
   given, and how often the channel was told to close.
   */
  datatype History = History(wire: seq<Tagged>, published: seq<Message>, resolved: seq<Resolution>, closes: nat)

  datatype Window = Window(
    maxPayload: positive, current: nat, last: nat, throttle: nat, queue: seq<Tagged>, open: set<nat>,
    handlers: map<nat, Message>, closing: bool, history: History)

  function Fresh(maxPayload: positive, throttle: nat): Window {
    Window(maxPayload, 1, 0, throttle, [], {}, map[], false, History([], [], [], 0))
  }

  function TagAll(tag: nat, frames: seq<Content.Frame>): (r: seq<Tagged>)
    ensures |r| == |frames|
  {
    seq(|frames|, i requires 0 <= i < |frames| => Tagged(tag, frames[i]))
  }

  function FramesOf(maxPayload: positive, tag: nat, m: Message): (r: seq<Tagged>)
    ensures |r| >= 2
  {
    TagAll(tag, Content.Published(m.body, maxPayload))
  }

  /* ----- publishing ----- */

  /** `Throttle::send`: behind a queue, or when the window is full and this is a new message, a frame waits. */
  function Send(w: Window, tag: nat, frame: Content.Frame): Window {
    if w.queue != [] || (|w.open| >= w.throttle && w.last != tag) then
      w.(queue := w.queue + [Tagged(tag, frame)])
    else
      w.(last := tag, open := w.open + {tag}, history := w.history.(wire := w.history.wire + [Tagged(tag, frame)]))
  }

  function SendAll(w: Window, tag: nat, frames: seq<Content.Frame>): (r: Window)
    ensures r == w.(last := r.last, open := r.open, queue := r.queue, history := w.history.(wire := r.history.wire))
    decreases |frames|
  {
    if frames == [] then w else SendAll(Send(w, tag, frames[0]), tag, frames[1..])
  }

  /**
   `Reliable::publish`. A closing publisher refuses the message, and still stores its handler, under
   the tag zero that stands for failure.
   */
  function Publish(w: Window, m: Message): Window {
    if w.closing then w.(handlers := w.handlers[0 := m])
    else
      var d := SendAll(w, w.current, Content.Published(m.body, w.maxPayload));
      d.(current := w.current + 1, handlers := w.handlers[w.current := m],
      history := d.history.(published := w.history.published + [m]))
  }

  /** `Tagger::close`: at once if nothing is unacknowledged, otherwise later. */
  function Close(w: Window): Window {
    if w.closing then w
    else
      var d := w.(closing := true);
      if |d.handlers| == 0 then d.(history := d.history.(closes := d.history.closes + 1)) else d
  }

  function Perform(w: Window, act: Act): Window {
    match act
    case Posts(m) => Publish(w, m)
    case Shuts => Close(w)
    case Flushes(max) => Flush(w, max)
    case Throttles(n) => w.(throttle := n)
  }

  /** A callback. Its messages get new tags, or replace what was refused before. */
  function PerformAll(w: Window, acts: seq<Act>): (r: Window)
    ensures r.current >= w.current
    ensures forall k :: 0 < k < w.current ==> (k in r.handlers <==> k in w.handlers)
    ensures 0 in r.handlers ==>
              (0 in w.handlers && r.handlers[0] == w.handlers[0]) || Height(r.handlers[0]) <= Heights(acts)
    decreases |acts|
  {
    if acts == [] then w else PerformAll(Perform(w, acts[0]), acts[1..])
  }

  /** How deep the messages go that handlers publish from handlers. */
  function Height(m: Message): (h: nat)
    ensures h > 0
  {
    1 + Heights(m.onAck) + Heights(m.onNack)
  }

  function HeightOf(act: Act): nat {
    match act
    case Posts(m) => Height(m)
    case _ => 0
  }

  function Heights(acts: seq<Act>): nat {
    if acts == [] then 0 else HeightOf(acts[0]) + Heights(acts[1..])
  }

  /* ----- flushing ----- */

  /** The loop of `flush`, and how many messages it began. A maximum of zero is none. */
  function FlushLoop(w: Window, max: nat, published: nat): (r: (Window, nat))
    ensures r.0 == w.(last := r.0.last, open := r.0.open, queue := r.0.queue,
                   history := w.history.(wire := r.0.history.wire))
    decreases |w.queue|
  {
    if w.queue == [] then (w, published)
    else
      var front := w.queue[0];
      if front.tag != w.last && max > 0 && published >= max then (w, published)
      else
        var d := w.(queue := w.queue[1..], last := front.tag,
          open := if front.tag != w.last then w.open + {front.tag} else w.open,
          history := w.history.(wire := w.history.wire + [front]));
        FlushLoop(d, max, if front.tag != w.last then published + 1 else published)
  }

  function Flush(w: Window, max: nat): Window {
    FlushLoop(w, max, 0).0
  }

  /* ----- confirms ----- */

  function Script(m: Message, verdict: Verdict): seq<Act> {
    if verdict == Acked then m.onAck else if verdict == Nacked then m.onNack else []
  }

  /** The handler of a tag leaves the map, and then learns its verdict. */
  function Resolve(w: Window, tag: nat, verdict: Verdict): Window {
    w.(handlers := w.handlers - {tag},
    history := w.history.(resolved := w.history.resolved + [Resolution(tag, verdict)]))
  }

  /** Removing a handler and running its callback. */
  function Report(w: Window, tag: nat, verdict: Verdict): Window
    requires tag in w.handlers
  {
    PerformAll(Resolve(w, tag, verdict), Script(w.handlers[tag], verdict))
  }

  /** The handler in front of the ordered map, unless that is beyond the tag. */
  function First(handlers: map<nat, Message>, from: nat, tag: nat): (r: Option<nat>)
    ensures r.Some? ==> from <= r.value <= tag && r.value in handlers
    ensures forall k :: from <= k <= tag && (r.Some? ==> k < r.value) ==> k !in handlers
    decreases tag - from
  {
    if from > tag then None else if from in handlers then Some(from) else First(handlers, from + 1, tag)
  }

  function Covered(handlers: map<nat, Message>, tag: nat): set<nat> {
    set k | k in handlers.Keys && 0 < k <= tag
  }

  /** A callback may publish, but every new tag is beyond; what it may leave under tag zero is less deep. */
  lemma {:induction false} SweepShrinks(w: Window, tag: nat, verdict: Verdict, k: nat)
    requires tag < w.current && First(w.handlers, 0, tag) == Some(k)
    ensures var d := Report(w, k, verdict);
            && tag < d.current
            && (k > 0 ==> |Covered(d.handlers, tag)| < |Covered(w.handlers, tag)|)
            && (k == 0 ==> |Covered(d.handlers, tag)| == |Covered(w.handlers, tag)|
                           && (if 0 in d.handlers then Height(d.handlers[0]) else 0) < Height(w.handlers[0]))
  {
    hide Publish, First;
    var d, r := Report(w, k, verdict), Resolve(w, k, verdict);
    assert forall i :: 0 < i <= tag ==> (i in d.handlers <==> i in r.handlers);
    if k > 0 {
      assert Covered(d.handlers, tag) == Covered(w.handlers, tag) - {k};
      assert k in Covered(w.handlers, tag);
    } else {
      assert Covered(d.handlers, tag) == Covered(w.handlers, tag);
    }
  }

  /** The loop over the handlers up to a tag. */
  function Sweep(w: Window, tag: nat, verdict: Verdict): Window
    requires tag < w.current
    decreases |Covered(w.handlers, tag)|, if 0 in w.handlers then Height(w.handlers[0]) else 0
  {
    var first := First(w.handlers, 0, tag);
    if first.None? then w
    else
      SweepShrinks(w, tag, verdict, first.value);
      Sweep(Report(w, first.value, verdict), tag, verdict)
  }

  function ReliableConfirm(w: Window, tag: nat, multiple: bool, verdict: Verdict): Window
    requires tag < w.current
  {
    if multiple then Sweep(w, tag, verdict)
    else if tag in w.handlers then Report(w, tag, verdict)
    else w
  }

  /** `Throttle::onAck`: the window shrinks and the room is filled from the queue. */
  function ThrottleConfirm(w: Window, tag: nat, multiple: bool): Window {
    var d := w.(open := if multiple then set t | t in w.open && t > tag else w.open - {tag});
    if |d.open| < d.throttle then Flush(d, d.throttle - |d.open|) else d
  }

  /** `Tagger::onAck`: the last confirm of a closing publisher closes the channel. */
  function TaggerConfirm(w: Window): Window {
    if w.closing && |w.handlers| == 0 then w.(history := w.history.(closes := w.history.closes + 1)) else w
  }

  /** `onAck` and `onNack`, for a tag that has been given out. */
  function Confirm(w: Window, tag: nat, multiple: bool, verdict: Verdict): Window
    requires tag < w.current
  {
    TaggerConfirm(ThrottleConfirm(ReliableConfirm(w, tag, multiple, verdict), tag, multiple))
  }

  /** Every handler in the order of the map is told that its message is lost. */
  function LoseFrom(handlers: map<nat, Message>, from: nat, end: nat): (r: seq<Resolution>)
    decreases end - from
  {
    if from >= end then []
    else (if from in handlers then [Resolution(from, Lost)] else []) + LoseFrom(handlers, from + 1, end)
  }

  /** `reportError`: the channel is gone, and tracking starts over. */
  function Fail(w: Window): Window {
    w.(current := 1, last := 0, queue := [], open := {}, handlers := map[],
    history := w.history.(resolved := w.history.resolved + LoseFrom(w.handlers, 0, w.current)))
  }

  /* ----- runs ----- */

  datatype Event =
    | Publishing(message: Message)
    | Confirming(tag: nat, multiple: bool, ack: bool)
    | Flushing(max: nat)
    | Throttling(throttle: nat)
    | Closing

  /** The broker confirms tags that are on the wire, perhaps some of them again. */
  function Step(w: Window, e: Event): Window {
    match e
    case Publishing(m) => Publish(w, m)
    case Confirming(tag, multiple, ack) =>
      if 0 < tag <= w.last && tag < w.current then Confirm(w, tag, multiple, if ack then Acked else Nacked) else w
    case Flushing(max) => Flush(w, max)
    case Throttling(n) => w.(throttle := n)
    case Closing => Close(w)
  }

  function Run(w: Window, events: seq<Event>): Window
    decreases |events|
  {
    if events == [] then w else Run(Step(w, events[0]), events[1..])
  }
}
