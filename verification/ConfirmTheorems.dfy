/**
 The views of the confirm window agree in every run, messages reach the channel whole and in tag
 order within the window, and every handler learns one verdict.
 */
module ConfirmTheorems {
  import opened Confirms
  import Content

  /* ----- the frames of a range of messages ----- */

  /** The frames of the messages with the tags `a + 1` to `b`, message after message. */
  function Between(maxPayload: positive, ms: seq<Message>, a: nat, b: nat): seq<Tagged>
    requires a <= b <= |ms|
    decreases b
  {
    if a == b then [] else Between(maxPayload, ms, a, b - 1) + FramesOf(maxPayload, b, ms[b - 1])
  }

  lemma {:induction false} BetweenGrows(maxPayload: positive, ms: seq<Message>, m: Message, a: nat, b: nat)
    requires a <= b <= |ms|
    ensures Between(maxPayload, ms + [m], a, b) == Between(maxPayload, ms, a, b)
    decreases b
  {
    hide FramesOf;
    if a < b {
      BetweenGrows(maxPayload, ms, m, a, b - 1);
    }
  }

  lemma {:induction false} BetweenLast(maxPayload: positive, ms: seq<Message>, m: Message, a: nat)
    requires a <= |ms|
    ensures Between(maxPayload, ms + [m], a, |ms| + 1)
            == Between(maxPayload, ms, a, |ms|) + FramesOf(maxPayload, |ms| + 1, m)
  {
    hide FramesOf;
    BetweenGrows(maxPayload, ms, m, a, |ms|);
  }

  lemma {:induction false} BetweenFront(maxPayload: positive, ms: seq<Message>, a: nat, b: nat)
    requires a < b <= |ms|
    ensures Between(maxPayload, ms, a, b) == FramesOf(maxPayload, a + 1, ms[a]) + Between(maxPayload, ms, a + 1, b)
    decreases b
  {
    hide FramesOf;
    if a + 1 < b {
      BetweenFront(maxPayload, ms, a, b - 1);
    } else {
      assert Between(maxPayload, ms, a, a) == [] && Between(maxPayload, ms, b, b) == [];
      assert [] + FramesOf(maxPayload, a + 1, ms[a]) == FramesOf(maxPayload, a + 1, ms[a]) + [];
    }
  }

  /* ----- sending and flushing, a message at a time ----- */

  lemma {:induction false} TagAllFront(tag: nat, frames: seq<Content.Frame>)
    requires frames != []
    ensures TagAll(tag, frames) == [Tagged(tag, frames[0])] + TagAll(tag, frames[1..])
  {
  }

  lemma {:induction false} SendRest(w: Window, tag: nat, frames: seq<Content.Frame>)
    requires w.queue == [] && w.last == tag && tag in w.open
    ensures SendAll(w, tag, frames) == w.(history := w.history.(wire := w.history.wire + TagAll(tag, frames)))
    decreases |frames|
  {
    hide TagAll;
    if frames == [] {
      TagNone(tag);
      assert w.history.wire + [] == w.history.wire;
    } else {
      TagAllFront(tag, frames);
      var d := Send(w, tag, frames[0]);
      assert w.open + {tag} == w.open;
      SendRest(d, tag, frames[1..]);
      assert d.history.wire + TagAll(tag, frames[1..]) == w.history.wire + TagAll(tag, frames);
    }
  }

  lemma {:induction false} TagNone(tag: nat)
    ensures TagAll(tag, []) == []
  {
  }

  lemma {:induction false} SendQueued(w: Window, tag: nat, frames: seq<Content.Frame>)
    requires w.queue != []
    ensures SendAll(w, tag, frames) == w.(queue := w.queue + TagAll(tag, frames))
    decreases |frames|
  {
    hide TagAll;
    if frames == [] {
      TagNone(tag);
      assert w.queue + [] == w.queue;
    } else {
      TagAllFront(tag, frames);
      var d := Send(w, tag, frames[0]);
      SendQueued(d, tag, frames[1..]);
      assert d.queue + TagAll(tag, frames[1..]) == w.queue + TagAll(tag, frames);
    }
  }

  predicate Passes(w: Window) {
    w.queue == [] && |w.open| < w.throttle
  }

  /** A message is sent whole or queued whole. */
  lemma {:induction false} SendWhole(w: Window, m: Message)
    requires w.last < w.current
    ensures var frames := FramesOf(w.maxPayload, w.current, m);
            SendAll(w, w.current, Content.Published(m.body, w.maxPayload))
            == if Passes(w) then
                 w.(last := w.current, open := w.open + {w.current},
                 history := w.history.(wire := w.history.wire + frames))
               else w.(queue := w.queue + frames)
  {
    hide TagAll, Content.Published;
    var frames := Content.Published(m.body, w.maxPayload);
    TagAllFront(w.current, frames);
    var d := Send(w, w.current, frames[0]);
    if Passes(w) {
      SendRest(d, w.current, frames[1..]);
      assert d.history.wire + TagAll(w.current, frames[1..]) == w.history.wire + TagAll(w.current, frames);
    } else {
      SendQueued(d, w.current, frames[1..]);
      assert d.queue + TagAll(w.current, frames[1..]) == w.queue + TagAll(w.current, frames);
    }
  }

  ghost predicate AllTagged(frames: seq<Tagged>, tag: nat) {
    forall i :: 0 <= i < |frames| ==> frames[i].tag == tag
  }

  /** What is left of the last message leaves the queue whatever the maximum. */
  lemma {:induction false} FlushRest(w: Window, max: nat, published: nat, rest: seq<Tagged>, tail: seq<Tagged>)
    requires w.queue == rest + tail && AllTagged(rest, w.last)
    ensures FlushLoop(w, max, published)
            == FlushLoop(w.(queue := tail, history := w.history.(wire := w.history.wire + rest)), max, published)
    decreases |rest|
  {
    if rest == [] {
      assert w.queue == tail && w.history.wire + rest == w.history.wire;
    } else {
      var d := w.(queue := w.queue[1..], history := w.history.(wire := w.history.wire + [w.queue[0]]));
      assert w.queue[1..] == rest[1..] + tail && w.queue[0] == rest[0];
      FlushRest(d, max, published, rest[1..], tail);
      assert d.history.wire + rest[1..] == w.history.wire + rest;
    }
  }

  lemma {:induction false} FlushMessage(
    w: Window, max: nat, published: nat, frames: seq<Tagged>, tail: seq<Tagged>, tag: nat)
    requires w.queue == frames + tail && frames != [] && AllTagged(frames, tag) && tag != w.last
    requires !(max > 0 && published >= max)
    ensures FlushLoop(w, max, published)
            == FlushLoop(w.(queue := tail, last := tag, open := w.open + {tag},
                         history := w.history.(wire := w.history.wire + frames)), max, published + 1)
  {
    var d := w.(queue := w.queue[1..], last := tag, open := w.open + {tag},
                history := w.history.(wire := w.history.wire + [w.queue[0]]));
    assert w.queue[0] == frames[0] && w.queue[1..] == frames[1..] + tail;
    assert FlushLoop(w, max, published) == FlushLoop(d, max, published + 1);
    FlushRest(d, max, published + 1, frames[1..], tail);
    assert d.history.wire + frames[1..] == w.history.wire + frames;
  }

  /* ----- the invariant ----- */

  /** How many verdicts the handler of a tag was given. */
  function Times(resolved: seq<Resolution>, tag: nat): nat {
    if resolved == [] then 0
    else Times(resolved[..|resolved| - 1], tag) + if resolved[|resolved| - 1].tag == tag then 1 else 0
  }

  lemma {:induction false} TimesSnoc(resolved: seq<Resolution>, last: Resolution, tag: nat)
    ensures Times(resolved + [last], tag) == Times(resolved, tag) + if last.tag == tag then 1 else 0
  {
    assert (resolved + [last])[..|resolved|] == resolved;
  }

  ghost predicate Numbered(w: Window) {
    && w.last < w.current && |w.history.published| == w.current - 1
    && forall t :: t in w.open ==> 0 < t <= w.last
  }

  /** The handlers are those of the open tags, the queued ones, and a refused message; `gone` are being confirmed. */
  ghost predicate Handled(w: Window, gone: set<nat>) {
    && gone <= w.open
    && (forall t :: 0 < t ==> (t in w.handlers <==> (t in w.open && t !in gone) || w.last < t < w.current))
    && (0 in w.handlers ==> w.closing)
  }

  /** The wire and the queue are all the messages, cut behind the last tag. */
  ghost predicate Ordered(w: Window)
    requires Numbered(w)
  {
    && w.history.wire == Between(w.maxPayload, w.history.published, 0, w.last)
    && w.queue == Between(w.maxPayload, w.history.published, w.last, w.current - 1)
  }

  ghost predicate Once(w: Window) {
    forall t: nat {:trigger Times(w.history.resolved, t)} :: 0 < t ==>
      Times(w.history.resolved, t) == if t < w.current && t !in w.handlers then 1 else 0
  }

  /** The channel is closed only when everything has been sent and confirmed. */
  ghost predicate ClosesLast(w: Window, gone: set<nat>) {
    w.history.closes > 0 ==> w.closing && w.open == gone && w.last == w.current - 1
  }

  ghost predicate Agrees(w: Window, gone: set<nat>) {
    Numbered(w) && Handled(w, gone) && Ordered(w) && Once(w) && ClosesLast(w, gone)
  }

  /** With room in the window nothing waits. */
  ghost predicate Paced(w: Window) {
    |w.open| <= w.throttle && (w.queue != [] ==> |w.open| == w.throttle)
  }

  /** A publisher told to close has closed the channel once no handler is left. */
  ghost predicate Prompt(w: Window) {
    w.closing && |w.handlers| == 0 ==> w.history.closes > 0
  }

  /* ----- publishing keeps it ----- */

  /** Neither the callbacks of the message move the window, nor those of the messages they publish. */
  ghost predicate CalmMessage(m: Message) {
    CalmActs(m.onAck) && CalmActs(m.onNack)
  }

  ghost predicate CalmAct(act: Act) {
    match act
    case Posts(m) => CalmMessage(m)
    case Shuts => true
    case _ => false
  }

  ghost predicate CalmActs(acts: seq<Act>) {
    acts == [] || (CalmAct(acts[0]) && CalmActs(acts[1..]))
  }

  ghost predicate CalmHandlers(handlers: map<nat, Message>) {
    forall k :: k in handlers ==> CalmMessage(handlers[k])
  }

  /** A paced window that stays paced whatever its handlers do. */
  ghost predicate Steady(w: Window) {
    Paced(w) && CalmHandlers(w.handlers)
  }

  /** What confirming has to know of the window it started from; `calm` tells that nothing moved the window itself. */
  ghost predicate Follows(w: Window, d: Window, calm: bool) {
    && w.last <= d.last
    && (w.history.closes <= 1 ==> d.history.closes <= 1)
    && (forall t :: 0 < t <= w.last ==> (t in d.open <==> t in w.open))
    && (calm && Steady(w) ==> Steady(d))
  }

  lemma {:induction false} FollowsOn(a: Window, b: Window, c: Window, first: bool, second: bool)
    requires Follows(a, b, first) && Follows(b, c, second)
    ensures Follows(a, c, first && second)
  {
    hide Steady;
  }

  /** A message that gets a tag. */
  lemma {:induction false} AdmitKeeps(w: Window, m: Message, gone: set<nat>)
    requires Agrees(w, gone) && !w.closing
    ensures Agrees(Publish(w, m), gone)
    ensures Paced(w) ==> Paced(Publish(w, m))
  {
    hide Between, FramesOf, SendAll, Times;
    SendWhole(w, m);
    var d := Publish(w, m);
    var ms, n := w.history.published, w.current - 1;
    BetweenGrows(w.maxPayload, ms, m, 0, w.last);
    BetweenLast(w.maxPayload, ms, m, w.last);
    if Passes(w) {
      QueueEmptyIff(w);
      BetweenLast(w.maxPayload, ms, m, 0);
      BetweenNone(w.maxPayload, d.history.published, w.current);
    }
    OnceAfterAdmit(w, d, m);
  }

  lemma {:induction false} BetweenNone(maxPayload: positive, ms: seq<Message>, a: nat)
    requires a <= |ms|
    ensures Between(maxPayload, ms, a, a) == []
  {
  }

  /** The queue is empty exactly when the last tag given out is the last one sent. */
  lemma {:induction false} QueueEmptyIff(w: Window)
    requires Numbered(w) && Ordered(w)
    ensures w.queue == [] <==> w.last == w.current - 1
  {
    hide FramesOf;
  }

  lemma {:induction false} OnceAfterAdmit(w: Window, d: Window, m: Message)
    requires Once(w) && Numbered(w) && d.current == w.current + 1
    requires d.handlers == w.handlers[w.current := m] && d.history.resolved == w.history.resolved
    ensures Once(d)
  {
    hide Times;
  }

  /** A message that is refused: only the handler of tag zero changes. */
  lemma {:induction false} RefuseKeeps(w: Window, m: Message, gone: set<nat>)
    requires Agrees(w, gone) && w.closing
    ensures Agrees(Publish(w, m), gone)
    ensures Paced(w) ==> Paced(Publish(w, m))
  {
    hide Between, Times;
    var d := Publish(w, m);
    assert forall t :: 0 < t ==> (t in d.handlers <==> t in w.handlers);
  }

  /** A close within a callback, with the tags of `gone` still in the window. */
  lemma {:induction false} ShutKeeps(w: Window, gone: set<nat>)
    requires Agrees(w, gone)
    ensures var d := Close(w);
            && Agrees(d, gone) && (Paced(w) ==> Paced(d))
            && d == w.(closing := true, history := w.history.(closes := d.history.closes))
            && (w.closing ==> d == w) && (!w.closing ==> w.history.closes == 0 && d.history.closes <= 1)
  {
    hide Between, Times;
    if !w.closing && |w.handlers| == 0 {
      NothingHandled(w, gone);
    }
  }

  /** Without a handler every open tag is being confirmed, and none is queued. */
  lemma {:induction false} NothingHandled(w: Window, gone: set<nat>)
    requires Numbered(w) && Handled(w, gone) && |w.handlers| == 0
    ensures w.open == gone && w.last == w.current - 1
  {
    if w.last < w.current - 1 {
      HandledSome(w, gone, w.last + 1);
    }
    forall t | t in w.open ensures t in gone {
      if t !in gone { HandledSome(w, gone, t); }
    }
  }

  lemma {:induction false} HandledSome(w: Window, gone: set<nat>, t: nat)
    requires Numbered(w) && Handled(w, gone) && ((t in w.open && t !in gone) || w.last < t < w.current)
    ensures |w.handlers| > 0
  {
    assert t in w.handlers;
  }

  lemma {:induction false} ActKeeps(w: Window, act: Act, gone: set<nat>)
    requires Agrees(w, gone)
    ensures var d := Perform(w, act);
            Agrees(d, gone) && Follows(w, d, CalmAct(act))
  {
    hide Agrees, Paced, Publish, Close, CalmMessage, FlushLoop;
    match act
    case Posts(m) =>
      PublishFrame(w, m, gone);
      PublishedHandlers(w, m);
      if w.closing { RefuseKeeps(w, m, gone); } else { AdmitKeeps(w, m, gone); }
    case Shuts => ShutKeeps(w, gone);
    case Flushes(max) => FlushLoopKeeps(w, max, 0, gone);
    case Throttles(n) => ThrottlingKeeps(w, n, gone);
  }

  lemma {:induction false} PerformAllKeeps(w: Window, acts: seq<Act>, gone: set<nat>)
    requires Agrees(w, gone)
    ensures var d := PerformAll(w, acts); Agrees(d, gone) && Follows(w, d, CalmActs(acts))
    decreases |acts|
  {
    hide Agrees, Follows, Perform, CalmAct;
    if acts != [] {
      ActKeeps(w, acts[0], gone);
      PerformAllKeeps(Perform(w, acts[0]), acts[1..], gone);
      FollowsOn(w, Perform(w, acts[0]), PerformAll(w, acts), CalmAct(acts[0]), CalmActs(acts[1..]));
    } else {
      FollowsItself(w);
    }
  }

  lemma {:induction false} FollowsItself(w: Window)
    ensures Follows(w, w, true)
  {
    hide Steady;
  }

  lemma {:induction false} PublishFrame(w: Window, m: Message, gone: set<nat>)
    requires Agrees(w, gone)
    ensures var d := Publish(w, m);
            && d.throttle == w.throttle && w.last <= d.last && d.history.closes == w.history.closes
            && (forall t :: 0 < t <= w.last ==> (t in d.open <==> t in w.open))
  {
    hide Ordered, Once, FramesOf, SendAll;
    if !w.closing { SendWhole(w, m); }
  }

  /* ----- flushing keeps it ----- */

  lemma {:induction false} FramesTagged(maxPayload: positive, tag: nat, m: Message)
    ensures AllTagged(FramesOf(maxPayload, tag, m), tag)
  {
    hide Content.Published;
  }

  /** The window after the next queued message has been sent. */
  function Advance(w: Window): Window
    requires |w.history.published| > w.last
    requires |w.queue| >= |FramesOf(w.maxPayload, w.last + 1, w.history.published[w.last])|
  {
    var frames := FramesOf(w.maxPayload, w.last + 1, w.history.published[w.last]);
    w.(queue := w.queue[|frames|..], last := w.last + 1, open := w.open + {w.last + 1},
    history := w.history.(wire := w.history.wire + frames))
  }

  lemma {:induction false} AdvanceKeeps(w: Window, gone: set<nat>)
    requires Agrees(w, gone) && w.queue != []
    ensures w.last < |w.history.published|
    ensures |w.queue| >= |FramesOf(w.maxPayload, w.last + 1, w.history.published[w.last])|
    ensures Agrees(Advance(w), gone) && |Advance(w).open| == |w.open| + 1 && |Advance(w).queue| < |w.queue|
    ensures Advance(w).last == w.last + 1 && Advance(w).open == w.open + {w.last + 1}
    ensures forall max: nat, published: nat :: !(max > 0 && published >= max) ==>
              FlushLoop(w, max, published) == FlushLoop(Advance(w), max, published + 1)
  {
    hide Between, FramesOf, Times, FlushLoop;
    QueueEmptyIff(w);
    var ms, n := w.history.published, w.current - 1;
    var frames := FramesOf(w.maxPayload, w.last + 1, ms[w.last]);
    BetweenFront(w.maxPayload, ms, w.last, n);
    var tail := Between(w.maxPayload, ms, w.last + 1, n);
    assert w.queue == frames + tail;
    assert w.queue[|frames|..] == tail;
    BetweenStep(w.maxPayload, ms, 0, w.last + 1);
    assert Between(w.maxPayload, ms, 0, w.last + 1) == w.history.wire + frames;
    FramesTagged(w.maxPayload, w.last + 1, ms[w.last]);
    forall max: nat, published: nat | !(max > 0 && published >= max)
      ensures FlushLoop(w, max, published) == FlushLoop(Advance(w), max, published + 1)
    {
      FlushMessage(w, max, published, frames, tail, w.last + 1);
    }
  }

  lemma {:induction false} BetweenStep(maxPayload: positive, ms: seq<Message>, a: nat, b: nat)
    requires a < b <= |ms|
    ensures Between(maxPayload, ms, a, b) == Between(maxPayload, ms, a, b - 1) + FramesOf(maxPayload, b, ms[b - 1])
  {
  }

  /** A flush begins as many messages as allowed, or empties the queue. */
  lemma {:induction false} FlushLoopKeeps(w: Window, max: nat, published: nat, gone: set<nat>)
    requires Agrees(w, gone) && (max > 0 ==> published <= max)
    ensures var r := FlushLoop(w, max, published);
            && Agrees(r.0, gone) && w.last <= r.0.last
            && |r.0.open| == |w.open| + (r.1 - published) && published <= r.1
            && (max > 0 ==> r.1 <= max)
            && (r.0.queue == [] || (max > 0 && r.1 == max))
            && (forall t :: 0 < t <= w.last ==> (t in r.0.open <==> t in w.open))
            && r.0.last == w.last + (r.1 - published)
    decreases |w.queue|
  {
    hide Agrees, Advance;
    if w.queue != [] {
      if max > 0 && published >= max {
        FlushStops(w, max, published, gone);
      } else {
        AdvanceKeeps(w, gone);
        FlushLoopKeeps(Advance(w), max, published + 1, gone);
      }
    }
  }

  lemma {:induction false} FlushStops(w: Window, max: nat, published: nat, gone: set<nat>)
    requires Agrees(w, gone) && w.queue != [] && max > 0 && published >= max
    ensures FlushLoop(w, max, published) == (w, published)
  {
    hide FramesOf, Times, FlushLoop;
    QueueEmptyIff(w);
    BetweenFront(w.maxPayload, w.history.published, w.last, w.current - 1);
    FramesTagged(w.maxPayload, w.last + 1, w.history.published[w.last]);
    assert w.queue[0].tag == w.last + 1;
    FlushStopsAt(w, max, published);
  }

  lemma {:induction false} FlushStopsAt(w: Window, max: nat, published: nat)
    requires w.queue != [] && max > 0 && published >= max && w.queue[0].tag != w.last
    ensures FlushLoop(w, max, published) == (w, published)
  {
  }

  lemma {:induction false} FlushKeeps(w: Window, max: nat)
    requires Agrees(w, {})
    ensures Agrees(Flush(w, max), {})
  {
    hide Agrees;
    FlushLoopKeeps(w, max, 0, {});
  }

  /* ----- confirming keeps it ----- */

  lemma {:induction false} ResolveKeeps(w: Window, tag: nat, verdict: Verdict, gone: set<nat>)
    requires Agrees(w, gone) && tag in w.handlers && tag <= w.last
    ensures Agrees(Resolve(w, tag, verdict), if tag == 0 then gone else gone + {tag})
    ensures Paced(w) ==> Paced(Resolve(w, tag, verdict))
  {
    hide Between, Times;
    var d := Resolve(w, tag, verdict);
    assert forall t :: t in d.handlers <==> t in w.handlers && t != tag;
    OnceAfterResolve(w, d, tag, verdict);
  }

  lemma {:induction false} OnceAfterResolve(w: Window, d: Window, tag: nat, verdict: Verdict)
    requires Once(w) && d == Resolve(w, tag, verdict) && tag in w.handlers && tag < w.current
    ensures Once(d)
  {
    hide Times;
    forall t: nat | 0 < t
      ensures Times(d.history.resolved, t) == if t < d.current && t !in d.handlers then 1 else 0
    {
      TimesSnoc(w.history.resolved, Resolution(tag, verdict), t);
    }
  }

  function UpTo(open: set<nat>, tag: nat): set<nat> {
    set t | t in open && t <= tag
  }

  lemma {:induction false} ReportKeeps(w: Window, tag: nat, verdict: Verdict, gone: set<nat>)
    requires Agrees(w, gone) && tag in w.handlers && tag <= w.last
    ensures var d := Report(w, tag, verdict);
            Agrees(d, if tag == 0 then gone else gone + {tag}) && Follows(w, d, true)
  {
    hide Agrees, Paced, PerformAll, CalmActs;
    ResolveKeeps(w, tag, verdict, gone);
    ResolveSteady(w, tag, verdict);
    var now := if tag == 0 then gone else gone + {tag};
    PerformAllKeeps(Resolve(w, tag, verdict), Script(w.handlers[tag], verdict), now);
  }

  lemma {:induction false} ResolveSteady(w: Window, tag: nat, verdict: Verdict)
    requires tag in w.handlers
    ensures Steady(w) ==> Steady(Resolve(w, tag, verdict)) && CalmActs(Script(w.handlers[tag], verdict))
  {
    hide CalmActs;
    if Steady(w) {
      assert CalmMessage(w.handlers[tag]);
      NoActs();
    }
  }

  lemma {:induction false} NoActs()
    ensures CalmActs([])
  {
  }

  lemma {:induction false} SweepKeeps(w: Window, tag: nat, verdict: Verdict, gone: set<nat>)
    requires Agrees(w, gone) && tag <= w.last && tag < w.current && (forall t :: t in gone ==> t <= tag)
    ensures var d := Sweep(w, tag, verdict);
            Agrees(d, UpTo(d.open, tag)) && Follows(w, d, true)
    decreases |Covered(w.handlers, tag)|, if 0 in w.handlers then Height(w.handlers[0]) else 0
  {
    hide Agrees, Follows, Report, Height;
    var first := First(w.handlers, 0, tag);
    if first.None? {
      AllGone(w, tag, gone);
    } else {
      var d := Report(w, first.value, verdict);
      SweepShrinks(w, tag, verdict, first.value);
      ReportKeeps(w, first.value, verdict, gone);
      var now := if first.value == 0 then gone else gone + {first.value};
      FollowsLast(w, d);
      SweepKeeps(d, tag, verdict, now);
      FollowsOn(w, d, Sweep(d, tag, verdict), true, true);
    }
  }

  lemma {:induction false} FollowsLast(w: Window, d: Window)
    requires Follows(w, d, true)
    ensures w.last <= d.last
  {
  }

  lemma {:induction false} AllGone(w: Window, tag: nat, gone: set<nat>)
    requires Agrees(w, gone) && tag <= w.last && (forall t :: t in gone ==> t <= tag)
    requires First(w.handlers, 0, tag).None?
    ensures Agrees(w, UpTo(w.open, tag)) && Follows(w, w, true)
  {
    hide Ordered, Once, Between, Times;
    assert gone == UpTo(w.open, tag);
  }

  /** The tags being confirmed leave the window. */
  lemma {:induction false} LeaveWindow(w: Window, gone: set<nat>)
    requires Agrees(w, gone)
    ensures Agrees(w.(open := w.open - gone), {})
  {
    hide Between, Times;
  }

  lemma {:induction false} RefillKeeps(w: Window)
    requires Agrees(w, {})
    ensures var d := if |w.open| < w.throttle then Flush(w, w.throttle - |w.open|) else w;
            && Agrees(d, {}) && d.throttle == w.throttle && d.handlers == w.handlers
            && d.history.closes == w.history.closes
            && (|w.open| <= w.throttle ==> Paced(d))
  {
    hide Agrees, FlushLoop;
    if |w.open| < w.throttle {
      FlushLoopKeeps(w, w.throttle - |w.open|, 0, {});
    }
  }

  /** What stays in the window is what is not being confirmed. */
  lemma {:induction false} Staying(open: set<nat>, tag: nat)
    ensures (set t | t in open && t > tag) == open - UpTo(open, tag)
  {
  }

  lemma {:induction false} SmallerWithout(open: set<nat>, gone: set<nat>)
    ensures |open - gone| <= |open|
  {
    assert open == (open - gone) + (open * gone);
  }

  lemma {:induction false} ThrottleConfirmKeeps(w: Window, tag: nat, multiple: bool, gone: set<nat>)
    requires Agrees(w, gone)
    requires if multiple then gone == UpTo(w.open, tag) else w.open - gone == w.open - {tag}
    ensures var d := ThrottleConfirm(w, tag, multiple);
            && Agrees(d, {}) && d.history.closes == w.history.closes && d.handlers == w.handlers
            && (Paced(w) ==> Paced(d))
  {
    hide Agrees, Flush, UpTo;
    var d := w.(open := w.open - gone);
    Staying(w.open, tag);
    LeaveWindow(w, gone);
    RefillKeeps(d);
    SmallerWithout(w.open, gone);
  }

  lemma {:induction false} NotClosedYet(w: Window, tag: nat)
    requires Agrees(w, {}) && tag in w.open
    ensures w.history.closes == 0 && 0 < tag <= w.last < w.current && tag in w.handlers
  {
    hide Between, Times;
  }

  lemma {:induction false} TaggerKeeps(w: Window)
    requires Agrees(w, {})
    ensures Agrees(TaggerConfirm(w), {}) && (Paced(w) ==> Paced(TaggerConfirm(w)))
    ensures TaggerConfirm(w).handlers == w.handlers
  {
    hide Between, Times;
    if w.closing && |w.handlers| == 0 {
      NothingHandled(w, {});
    }
  }

  /** A tag on the wire has a handler exactly as long as it is open. */
  lemma {:induction false} OnTheWire(w: Window, tag: nat)
    requires Agrees(w, {}) && 0 < tag <= w.last
    ensures tag < w.current && (tag in w.handlers <==> tag in w.open)
  {
    hide Between, Times;
  }

  lemma {:induction false} ConfirmKeeps(w: Window, tag: nat, multiple: bool, verdict: Verdict)
    requires Agrees(w, {}) && 0 < tag <= w.last
    ensures tag < w.current
    ensures var d := Confirm(w, tag, multiple, verdict); Agrees(d, {}) && (Steady(w) ==> Steady(d))
  {
    hide Agrees, Steady, Sweep, Report, ThrottleConfirm, TaggerConfirm;
    OnTheWire(w, tag);
    var d := ReliableConfirm(w, tag, multiple, verdict);
    if multiple {
      SweepKeeps(w, tag, verdict, {});
      ThrottleConfirmKeeps(d, tag, multiple, UpTo(d.open, tag));
    } else if tag in w.handlers {
      ReportKeeps(w, tag, verdict, {});
      assert {} + {tag} == {tag};
      ThrottleConfirmKeeps(d, tag, multiple, {tag});
    } else {
      assert w.open - {} == w.open - {tag};
      ThrottleConfirmKeeps(d, tag, multiple, {});
    }
    TaggerKeeps(ThrottleConfirm(d, tag, multiple));
    SteadyStays(d, ThrottleConfirm(d, tag, multiple));
    SteadyStays(ThrottleConfirm(d, tag, multiple), Confirm(w, tag, multiple, verdict));
  }

  lemma {:induction false} SteadyStays(w: Window, d: Window)
    requires d.handlers == w.handlers && (Paced(w) ==> Paced(d))
    ensures Steady(w) ==> Steady(d)
  {
  }

  /* ----- whole runs ----- */

  lemma {:induction false} StepKeeps(w: Window, e: Event)
    requires Agrees(w, {})
    ensures Agrees(Step(w, e), {})
    ensures Steady(w) && CalmEvent(e) ==> Steady(Step(w, e))
    ensures Prompt(w) ==> Prompt(Step(w, e))
  {
    hide Agrees, Paced, Prompt, Publish, Confirm, Flush, Close, CalmMessage;
    StepIsPrompt(w, e);
    match e
    case Publishing(m) =>
      PublishedHandlers(w, m);
      if w.closing { RefuseKeeps(w, m, {}); } else { AdmitKeeps(w, m, {}); }
    case Confirming(tag, multiple, ack) =>
      if 0 < tag <= w.last { ConfirmKeeps(w, tag, multiple, if ack then Acked else Nacked); }
    case Flushing(max) => FlushKeeps(w, max);
    case Throttling(n) => ThrottlingKeeps(w, n, {});
    case Closing => ShutKeeps(w, {});
  }

  lemma {:induction false} StepIsPrompt(w: Window, e: Event)
    ensures Prompt(w) ==> Prompt(Step(w, e))
  {
    hide ReliableConfirm, SendAll, FlushLoop, ThrottleConfirm;
    if e.Publishing? { assert 0 in w.handlers[0 := e.message] && w.current in w.handlers[w.current := e.message]; }
  }

  lemma {:induction false} ThrottlingKeeps(w: Window, n: nat, gone: set<nat>)
    requires Agrees(w, gone)
    ensures Agrees(w.(throttle := n), gone)
  {
    hide Between, Times;
  }

  /** Neither the event moves the window itself, nor a callback of its message. */
  ghost predicate CalmEvent(e: Event) {
    !e.Flushing? && !e.Throttling? && (e.Publishing? ==> CalmMessage(e.message))
  }

  ghost predicate Calm(events: seq<Event>) {
    forall i :: 0 <= i < |events| ==> CalmEvent(events[i])
  }

  lemma {:induction false} RunKeeps(w: Window, events: seq<Event>)
    requires Agrees(w, {})
    ensures Agrees(Run(w, events), {})
    ensures Steady(w) && Calm(events) ==> Steady(Run(w, events))
    ensures Prompt(w) ==> Prompt(Run(w, events))
    decreases |events|
  {
    hide Agrees, Steady, Prompt, Step, CalmEvent;
    if events != [] {
      StepKeeps(w, events[0]);
      RunKeeps(Step(w, events[0]), events[1..]);
    }
  }

  lemma {:induction false} FreshAgrees(maxPayload: positive, throttle: nat)
    ensures Agrees(Fresh(maxPayload, throttle), {}) && Steady(Fresh(maxPayload, throttle))
  {
  }

  function Unacknowledged(w: Window): int {
    |w.open| + (w.current - w.last - 1)
  }

  /** The tags strictly between two. */
  function Range(a: nat, b: nat): (s: set<nat>)
    ensures forall t :: t in s <==> a < t < b
    ensures |s| == if a < b then b - a - 1 else 0
    decreases b
  {
    if a + 1 < b then Range(a, b - 1) + {b - 1} else {}
  }

  function Queued(w: Window): set<nat> {
    Range(w.last, w.current)
  }

  lemma {:induction false} HandlerKeys(w: Window)
    requires Agrees(w, {})
    ensures w.handlers.Keys - {0} == w.open + Queued(w) && w.open !! Queued(w) && w.last < w.current
  {
    hide Between, Times, Ordered, Once, ClosesLast;
    forall t: nat ensures t in w.handlers.Keys - {0} <==> t in w.open + Queued(w) {
      assert t in w.handlers <==> t in w.handlers.Keys;
    }
  }

  lemma {:induction false} CountsAgreeIff(w: Window)
    requires Agrees(w, {})
    ensures w.handlers.Keys - {0} == w.open + Queued(w)
    ensures |w.handlers| == Unacknowledged(w) + if 0 in w.handlers then 1 else 0
  {
    hide Agrees;
    HandlerKeys(w);
    var keys := w.handlers.Keys - {0};
    assert |w.handlers| == |w.handlers.Keys|;
    if 0 in w.handlers { assert w.handlers.Keys == keys + {0}; } else { assert w.handlers.Keys == keys; }
  }

  /**
   In every run the handlers are those of the open tags and of the queued ones, so `Reliable` and
   `Throttle` count the same unacknowledged messages unless a refused message left a handler behind;
   and the unsigned subtraction of `Throttle` does not wrap.
   */
  lemma {:induction false} ViewsAgreeIff(maxPayload: positive, throttle: nat, events: seq<Event>)
    ensures var w := Run(Fresh(maxPayload, throttle), events);
            && w.handlers.Keys - {0} == w.open + Queued(w)
            && w.last < w.current
            && (|w.handlers| == Unacknowledged(w) <==> 0 !in w.handlers)
            && (0 in w.handlers ==> w.closing && |w.handlers| == Unacknowledged(w) + 1)
  {
    hide Run, Between, Times, Ordered, Once, ClosesLast;
    FreshAgrees(maxPayload, throttle);
    RunKeeps(Fresh(maxPayload, throttle), events);
    CountsAgreeIff(Run(Fresh(maxPayload, throttle), events));
  }

  /** In every run messages reach the channel in tag order, each whole, and the queue holds the rest. */
  lemma {:induction false} TagOrder(maxPayload: positive, throttle: nat, events: seq<Event>)
    ensures var w := Run(Fresh(maxPayload, throttle), events);
            && w.last <= |w.history.published|
            && w.history.wire == Between(w.maxPayload, w.history.published, 0, w.last)
            && w.queue == Between(w.maxPayload, w.history.published, w.last, |w.history.published|)
  {
    hide Run, Between, Times;
    FreshAgrees(maxPayload, throttle);
    RunKeeps(Fresh(maxPayload, throttle), events);
  }

  /**
   With a fixed throttle and no burst, by events or callbacks, the window is never exceeded, and nothing
   waits while there is room.
   */
  lemma {:induction false} WindowHolds(maxPayload: positive, throttle: nat, events: seq<Event>)
    requires Calm(events)
    ensures var w := Run(Fresh(maxPayload, throttle), events);
            |w.open| <= w.throttle && (w.queue != [] ==> |w.open| == w.throttle)
  {
    hide Run, Agrees, Calm;
    FreshAgrees(maxPayload, throttle);
    RunKeeps(Fresh(maxPayload, throttle), events);
  }

  /** In every run the handler of a published message has learnt one verdict, or none and it is still there. */
  lemma {:induction false} OneVerdict(maxPayload: positive, throttle: nat, events: seq<Event>, tag: nat)
    requires tag > 0
    ensures var w := Run(Fresh(maxPayload, throttle), events);
            Times(w.history.resolved, tag) == if tag <= |w.history.published| && tag !in w.handlers then 1 else 0
  {
    hide Run, Between, Times;
    FreshAgrees(maxPayload, throttle);
    RunKeeps(Fresh(maxPayload, throttle), events);
  }

  /**
   In every run the channel is closed only with everything sent and confirmed, and a closing publisher
   without handlers has closed it.
   */
  lemma {:induction false} ClosesWhenDone(maxPayload: positive, throttle: nat, events: seq<Event>)
    ensures var w := Run(Fresh(maxPayload, throttle), events);
            && (w.history.closes > 0 ==> w.closing && w.open == {} && w.queue == [] && Queued(w) == {})
            && (w.closing && |w.handlers| == 0 ==> w.history.closes > 0)
  {
    hide Run, Between, Times, Once;
    FreshAgrees(maxPayload, throttle);
    RunKeeps(Fresh(maxPayload, throttle), events);
    QueueEmptyIff(Run(Fresh(maxPayload, throttle), events));
  }

  /* ----- what a confirm does ----- */

  /** The later verdicts are all the same, for tags up to the given one. */
  ghost predicate Verdicts(before: seq<Resolution>, after: seq<Resolution>, tag: nat, verdict: Verdict) {
    && before <= after
    && forall i :: |before| <= i < |after| ==> after[i].verdict == verdict && after[i].tag <= tag
  }

  lemma {:induction false} VerdictsOn(a: seq<Resolution>, r: Resolution, b: seq<Resolution>, tag: nat)
    requires Verdicts(a + [r], b, tag, r.verdict) && r.tag <= tag
    ensures Verdicts(a, b, tag, r.verdict)
  {
    assert b[|a|] == (a + [r])[|a|] == r;
    assert a <= a + [r] <= b;
  }

  lemma {:induction false} ReportSettles(w: Window, k: nat, verdict: Verdict)
    requires k in w.handlers
    ensures var d := Report(w, k, verdict);
            && d.history.resolved == w.history.resolved + [Resolution(k, verdict)]
            && d.current >= w.current
            && (forall t :: 0 < t < w.current ==> (t in d.handlers <==> t in w.handlers && t != k))
  {
    hide PerformAll;
    PerformAllResolves(Resolve(w, k, verdict), Script(w.handlers[k], verdict));
  }

  lemma {:induction false} SweepSettles(w: Window, tag: nat, verdict: Verdict)
    requires tag < w.current
    ensures var d := Sweep(w, tag, verdict);
            && Verdicts(w.history.resolved, d.history.resolved, tag, verdict)
            && (forall t: nat :: t <= tag ==> t !in d.handlers)
            && (forall t :: tag < t < w.current ==> (t in d.handlers <==> t in w.handlers))
    decreases |Covered(w.handlers, tag)|, if 0 in w.handlers then Height(w.handlers[0]) else 0
  {
    hide Height, Report, Verdicts, Covered;
    var first := First(w.handlers, 0, tag);
    if first.Some? {
      SweepShrinks(w, tag, verdict, first.value);
      ReportSettles(w, first.value, verdict);
      SweepSettles(Report(w, first.value, verdict), tag, verdict);
      VerdictsOn(w.history.resolved, Resolution(first.value, verdict), Sweep(w, tag, verdict).history.resolved, tag);
    } else {
      NoVerdicts(w.history.resolved, tag, verdict);
    }
  }

  lemma {:induction false} NoVerdicts(resolved: seq<Resolution>, tag: nat, verdict: Verdict)
    ensures Verdicts(resolved, resolved, tag, verdict)
  {
  }

  /**
   A confirm of a tag on the wire gives the verdict of the broker, and no other, to the handler of the
   tag, or of every tag up to it; the handlers of all other messages stay as they are, whatever the
   callbacks publish. A handler that has had its verdict gets no second one.
   */
  lemma {:induction false} ConfirmSettles(w: Window, tag: nat, multiple: bool, verdict: Verdict)
    requires Agrees(w, {}) && 0 < tag <= w.last
    ensures tag < w.current
    ensures var d := Confirm(w, tag, multiple, verdict);
            && Verdicts(w.history.resolved, d.history.resolved, tag, verdict)
            && (forall t :: 0 < t < w.current ==>
                              (t in d.handlers <==> t in w.handlers && !(if multiple then t <= tag else t == tag)))
  {
    hide Agrees, Sweep, Report, Verdicts, FlushLoop;
    OnTheWire(w, tag);
    if multiple {
      SweepSettles(w, tag, verdict);
    } else if tag in w.handlers {
      ReportSettles(w, tag, verdict);
      NoVerdicts(w.history.resolved + [Resolution(tag, verdict)], tag, verdict);
      VerdictsOn(w.history.resolved, Resolution(tag, verdict), w.history.resolved + [Resolution(tag, verdict)], tag);
    } else {
      NoVerdicts(w.history.resolved, tag, verdict);
    }
    ConfirmKeepsHandlers(w, tag, multiple, verdict);
  }

  lemma {:induction false} ConfirmKeepsHandlers(w: Window, tag: nat, multiple: bool, verdict: Verdict)
    requires tag < w.current
    ensures var d, r := Confirm(w, tag, multiple, verdict), ReliableConfirm(w, tag, multiple, verdict);
            d.handlers == r.handlers && d.history.resolved == r.history.resolved
  {
    hide FlushLoop, ReliableConfirm;
  }

  /* ----- publishing after close ----- */

  /** Publishing keeps the two counts equal exactly when the publisher is not closing. */
  lemma {:induction false} PublishAgreesIff(w: Window, m: Message)
    requires Agrees(w, {}) && 0 !in w.handlers
    ensures |w.handlers| == Unacknowledged(w)
    ensures var d := Publish(w, m); |d.handlers| == Unacknowledged(d) <==> !w.closing
  {
    hide Agrees, Publish;
    CountsAgreeIff(w);
    if w.closing { RefuseKeeps(w, m, {}); } else { AdmitKeeps(w, m, {}); }
    CountsAgreeIff(Publish(w, m));
    PublishedHandlers(w, m);
  }

  lemma {:induction false} PublishedHandlers(w: Window, m: Message)
    ensures Publish(w, m).handlers == w.handlers[if w.closing then 0 else w.current := m]
    ensures Publish(w, m).current == if w.closing then w.current else w.current + 1
  {
    hide SendAll;
  }

  lemma {:induction false} PerformAllResolves(w: Window, acts: seq<Act>)
    ensures PerformAll(w, acts).history.resolved == w.history.resolved
    decreases |acts|
  {
    hide SendAll;
    if acts != [] { PerformAllResolves(Perform(w, acts[0]), acts[1..]); }
  }

  /* ----- an error of the channel ----- */

  lemma {:induction false} LostOnce(
    resolved: seq<Resolution>, handlers: map<nat, Message>, from: nat, end: nat, tag: nat)
    ensures Times(resolved + LoseFrom(handlers, from, end), tag)
            == Times(resolved, tag) + if from <= tag < end && tag in handlers then 1 else 0
    decreases end - from
  {
    hide Times;
    var lost := LoseFrom(handlers, from, end);
    if from >= end {
      assert resolved + lost == resolved;
    } else if from in handlers {
      TimesSnoc(resolved, Resolution(from, Lost), tag);
      LostOnce(resolved + [Resolution(from, Lost)], handlers, from + 1, end, tag);
      assert resolved + lost == (resolved + [Resolution(from, Lost)]) + LoseFrom(handlers, from + 1, end);
    } else {
      LostOnce(resolved, handlers, from + 1, end, tag);
      assert resolved + lost == resolved + LoseFrom(handlers, from + 1, end);
    }
  }

  /** When the channel fails, every published message has had one verdict, and nothing is tracked any more. */
  lemma {:induction false} FailResolvesAll(maxPayload: positive, throttle: nat, events: seq<Event>, tag: nat)
    requires tag > 0
    ensures var w := Run(Fresh(maxPayload, throttle), events);
            var d := Fail(w);
            && Times(d.history.resolved, tag) == (if tag <= |w.history.published| then 1 else 0)
            && d.handlers == map[] && d.open == {} && d.queue == [] && Unacknowledged(d) == 0
  {
    hide Run, Between, Times;
    FreshAgrees(maxPayload, throttle);
    RunKeeps(Fresh(maxPayload, throttle), events);
    var w := Run(Fresh(maxPayload, throttle), events);
    LostOnce(w.history.resolved, w.handlers, 0, w.current, tag);
    OneVerdict(maxPayload, throttle, events, tag);
  }
}
