/**
 What was asked of a publisher and what its handlers were told, kept in a journal: the messages in the order in
 which they were published, by the application and by callbacks, and the verdicts in the order in which they
 were given. A journal knows no window, no queue and no map of handlers. Every run does what its journal says.
 */
module ConfirmJournal {
  import opened Bytes
  import opened Options
  import Content
  import opened Confirms
  import opened ConfirmTheorems

  /** `left` is a message that came after the close and has had no verdict. */
  datatype Journal = Journal(
    published: seq<Message>, closing: bool, told: seq<Resolution>, left: Option<Message>, throttle: nat)

  function Blank(throttle: nat): Journal {
    Journal([], false, [], None, throttle)
  }

  function Note(j: Journal, act: Act): Journal {
    match act
    case Posts(m) => if j.closing then j.(left := Some(m)) else j.(published := j.published + [m])
    case Shuts => j.(closing := true)
    case Flushes(_) => j
    case Throttles(n) => j.(throttle := n)
  }

  function NoteAll(j: Journal, acts: seq<Act>): Journal
    decreases |acts|
  {
    if acts == [] then j else NoteAll(Note(j, acts[0]), acts[1..])
  }

  /** What a message does when it is acked or nacked; nothing when it is lost. */
  function Reaction(m: Message, verdict: Verdict): seq<Act> {
    match verdict
    case Acked => m.onAck
    case Nacked => m.onNack
    case Lost => []
  }

  predicate IsTold(j: Journal, tag: nat) {
    exists i :: 0 <= i < |j.told| && j.told[i].tag == tag
  }

  /** One verdict: for the message of a tag, or for the one that was left over. */
  function Tell(j: Journal, tag: nat, verdict: Verdict): Journal {
    var told := j.told + [Resolution(tag, verdict)];
    if tag == 0 then
      if j.left.Some? then NoteAll(j.(told := told, left := None), Reaction(j.left.value, verdict)) else j
    else if tag <= |j.published| then NoteAll(j.(told := told), Reaction(j.published[tag - 1], verdict))
    else j
  }

  lemma {:induction false} NoteAllLeaves(j: Journal, acts: seq<Act>)
    ensures var d := NoteAll(j, acts);
            d.left == j.left || (d.left.Some? && Height(d.left.value) <= Heights(acts))
    decreases |acts|
  {
    if acts != [] { NoteAllLeaves(Note(j, acts[0]), acts[1..]); }
  }

  lemma {:induction false} TellShrinks(j: Journal, verdict: Verdict)
    requires j.left.Some?
    ensures var d := Tell(j, 0, verdict); d.left.Some? ==> Height(d.left.value) < Height(j.left.value)
  {
    NoteAllLeaves(j.(told := j.told + [Resolution(0, verdict)], left := None), Reaction(j.left.value, verdict));
  }

  /** The same verdict for all messages from a tag to another, in order, and at once for what callbacks leave over. */
  function TellUpTo(j: Journal, t: nat, tag: nat, verdict: Verdict): Journal
    decreases tag + 1 - t, if j.left.Some? then Height(j.left.value) else 0
  {
    if j.left.Some? then
      TellShrinks(j, verdict);
      TellUpTo(Tell(j, 0, verdict), t, tag, verdict)
    else if t > tag then j
    else TellUpTo(if IsTold(j, t) then j else Tell(j, t, verdict), t + 1, tag, verdict)
  }

  function Enter(j: Journal, sent: nat, e: Event): Journal {
    match e
    case Publishing(m) => Note(j, Posts(m))
    case Confirming(tag, multiple, ack) =>
      var verdict := if ack then Acked else Nacked;
      if !(0 < tag <= sent) then j
      else if multiple then TellUpTo(j, 1, tag, verdict)
      else if IsTold(j, tag) then j
      else Tell(j, tag, verdict)
    case Flushing(_) => j
    case Throttling(n) => Note(j, Throttles(n))
    case Closing => Note(j, Shuts)
  }

  /** A journal of a run; of the run itself it knows how far the messages have been sent. */
  function Kept(w: Window, j: Journal, events: seq<Event>): Journal
    decreases |events|
  {
    if events == [] then j else Kept(Step(w, events[0]), Enter(j, w.last, events[0]), events[1..])
  }

  /* ----- a publisher and its journal ----- */

  /** The handlers are those of the messages that were told nothing, each under its tag. */
  ghost predicate Matches(w: Window, j: Journal) {
    && w.history.published == j.published && w.current == |j.published| + 1
    && w.closing == j.closing && w.history.resolved == j.told && w.throttle == j.throttle
    && (0 in w.handlers <==> j.left.Some?) && (0 in w.handlers ==> w.handlers[0] == j.left.value)
    && (forall t :: 0 < t ==> (t in w.handlers <==> t <= |j.published| && !IsTold(j, t)))
    && (forall t :: 0 < t && t in w.handlers && t <= |j.published| ==> w.handlers[t] == j.published[t - 1])
    && (forall i :: 0 <= i < |j.told| ==> j.told[i].tag <= |j.published|)
  }

  lemma {:induction false} PublishMatches(w: Window, j: Journal, m: Message)
    requires Matches(w, j)
    ensures Matches(Publish(w, m), Note(j, Posts(m)))
  {
    hide SendAll;
  }

  lemma {:induction false} ActMatches(w: Window, j: Journal, act: Act)
    requires Matches(w, j)
    ensures Matches(Perform(w, act), Note(j, act))
  {
    hide Publish, FlushLoop;
    match act
    case Posts(m) => PublishMatches(w, j, m);
    case _ => SameTold(w, j, Note(j, act));
  }

  lemma {:induction false} SameTold(w: Window, j: Journal, d: Journal)
    requires j.told == d.told
    ensures forall t :: IsTold(j, t) == IsTold(d, t)
  {
  }

  lemma {:induction false} PerformMatches(w: Window, j: Journal, acts: seq<Act>)
    requires Matches(w, j)
    ensures Matches(PerformAll(w, acts), NoteAll(j, acts))
    decreases |acts|
  {
    hide Matches, Perform, Note;
    if acts != [] {
      ActMatches(w, j, acts[0]);
      PerformMatches(Perform(w, acts[0]), Note(j, acts[0]), acts[1..]);
    }
  }

  lemma {:induction false} ToldStep(j: Journal, d: Journal, r: Resolution)
    requires d.told == j.told + [r]
    ensures forall t :: IsTold(d, t) <==> IsTold(j, t) || t == r.tag
  {
    forall t ensures IsTold(d, t) <==> IsTold(j, t) || t == r.tag {
      if IsTold(j, t) {
        var i :| 0 <= i < |j.told| && j.told[i].tag == t;
        assert d.told[i].tag == t;
      }
      if t == r.tag { assert d.told[|j.told|].tag == t; }
    }
  }

  /** The handler of a tag is the callback of its message, and runs as the verdict says. */
  lemma {:induction false} ReportMatches(w: Window, j: Journal, tag: nat, verdict: Verdict)
    requires Matches(w, j) && tag in w.handlers
    ensures Matches(Report(w, tag, verdict), Tell(j, tag, verdict))
  {
    hide PerformAll, NoteAll, IsTold;
    var r := Resolution(tag, verdict);
    var d := j.(told := j.told + [r], left := if tag == 0 then None else j.left);
    ToldStep(j, d, r);
    assert Matches(Resolve(w, tag, verdict), d);
    PerformMatches(Resolve(w, tag, verdict), d, Script(w.handlers[tag], verdict));
  }

  lemma {:induction false} SweepMatches(w: Window, j: Journal, t: nat, tag: nat, verdict: Verdict)
    requires Matches(w, j) && 0 < t <= tag + 1 <= w.current && (forall i :: 0 < i < t ==> i !in w.handlers)
    ensures Matches(Sweep(w, tag, verdict), TellUpTo(j, t, tag, verdict))
    decreases tag + 1 - t, if 0 in w.handlers then Height(w.handlers[0]) else 0
  {
    hide Matches, Report, Height, Covered, Tell;
    LeftIsZero(w, j);
    if 0 in w.handlers {
      FirstFound(w.handlers, 0, tag);
      SweepShrinks(w, tag, verdict, 0);
      ReportMatches(w, j, 0, verdict);
      ReportSettles(w, 0, verdict);
      SweepMatches(Report(w, 0, verdict), Tell(j, 0, verdict), t, tag, verdict);
    } else if t > tag {
      FirstFound(w.handlers, tag + 1, tag);
    } else {
      HandledIff(w, j, t);
      if t in w.handlers {
        FirstFound(w.handlers, t, tag);
        SweepShrinks(w, tag, verdict, t);
        ReportMatches(w, j, t, verdict);
        ReportSettles(w, t, verdict);
        SweepMatches(Report(w, t, verdict), Tell(j, t, verdict), t + 1, tag, verdict);
      } else {
        SweepMatches(w, j, t + 1, tag, verdict);
      }
    }
  }

  lemma {:induction false} LeftIsZero(w: Window, j: Journal)
    requires Matches(w, j)
    ensures 0 in w.handlers <==> j.left.Some?
  {
  }

  lemma {:induction false} HandledIff(w: Window, j: Journal, t: nat)
    requires Matches(w, j) && 0 < t < w.current
    ensures t in w.handlers <==> !IsTold(j, t)
  {
  }

  lemma {:induction false} FirstFound(handlers: map<nat, Message>, t: nat, tag: nat)
    requires forall i: nat :: i < t ==> i !in handlers
    ensures t <= tag && t in handlers ==> First(handlers, 0, tag) == Some(t)
    ensures t > tag ==> First(handlers, 0, tag) == None
  {
    hide First;
  }

  lemma {:induction false} ConfirmMatches(w: Window, j: Journal, tag: nat, multiple: bool, verdict: Verdict)
    requires Matches(w, j) && 0 < tag < w.current
    ensures Matches(Confirm(w, tag, multiple, verdict),
                    if multiple then TellUpTo(j, 1, tag, verdict)
                    else if IsTold(j, tag) then j else Tell(j, tag, verdict))
  {
    hide Matches, Sweep, Report, TellUpTo, Tell, ReliableConfirm;
    var r := ReliableConfirm(w, tag, multiple, verdict);
    ReliableMatches(w, j, tag, multiple, verdict);
    ConfirmKeepsRecord(r, tag, multiple);
    SameRecord(r, Confirm(w, tag, multiple, verdict),
               if multiple then TellUpTo(j, 1, tag, verdict)
               else if IsTold(j, tag) then j else Tell(j, tag, verdict));
  }

  lemma {:induction false} ReliableMatches(w: Window, j: Journal, tag: nat, multiple: bool, verdict: Verdict)
    requires Matches(w, j) && 0 < tag < w.current
    ensures Matches(ReliableConfirm(w, tag, multiple, verdict),
                    if multiple then TellUpTo(j, 1, tag, verdict)
                    else if IsTold(j, tag) then j else Tell(j, tag, verdict))
  {
    hide Matches, Sweep, Report, TellUpTo, Tell;
    HandledIff(w, j, tag);
    if multiple { SweepMatches(w, j, 1, tag, verdict); }
    else if tag in w.handlers { ReportMatches(w, j, tag, verdict); }
  }

  /** The parts of a window that a journal speaks of. */
  ghost predicate SameAs(w: Window, d: Window) {
    && d.history.published == w.history.published && d.history.resolved == w.history.resolved
    && d.current == w.current && d.closing == w.closing && d.throttle == w.throttle && d.handlers == w.handlers
  }

  lemma {:induction false} SameRecord(w: Window, d: Window, j: Journal)
    requires Matches(w, j) && SameAs(w, d)
    ensures Matches(d, j)
  {
    hide IsTold;
  }

  lemma {:induction false} ConfirmKeepsRecord(r: Window, tag: nat, multiple: bool)
    ensures SameAs(r, TaggerConfirm(ThrottleConfirm(r, tag, multiple)))
  {
    hide FlushLoop;
  }

  lemma {:induction false} StepMatches(w: Window, j: Journal, e: Event)
    requires Matches(w, j) && Agrees(w, {})
    ensures Matches(Step(w, e), Enter(j, w.last, e))
  {
    hide Agrees, Matches, Publish, Confirm, FlushLoop, TellUpTo, Tell, Close;
    match e
    case Publishing(m) => PublishMatches(w, j, m);
    case Confirming(tag, multiple, ack) =>
      if 0 < tag <= w.last {
        OnTheWire(w, tag);
        ConfirmMatches(w, j, tag, multiple, if ack then Acked else Nacked);
      }
    case Flushing(max) => SameRecord(w, Step(w, e), j);
    case Throttling(n) => ActMatches(w, j, Throttles(n));
    case Closing => ActMatches(w, j, Shuts);
  }

  lemma {:induction false} RunMatches(w: Window, j: Journal, events: seq<Event>)
    requires Matches(w, j) && Agrees(w, {})
    ensures Matches(Run(w, events), Kept(w, j, events))
    decreases |events|
  {
    hide Agrees, Matches, Step, Enter;
    if events != [] {
      StepMatches(w, j, events[0]);
      StepKeeps(w, events[0]);
      RunMatches(Step(w, events[0]), Enter(j, w.last, events[0]), events[1..]);
    }
  }

  /**
   In every run the publisher did what was asked of it, callbacks included: the messages that got a tag are
   those that came before the close, in order; handlers are told in the order of their tags, each the verdict
   of the broker, and then do what their message says for that verdict; those still stored are the handlers
   of the messages that were told nothing.
   */
  lemma {:induction false} RunFollowsJournal(maxPayload: positive, throttle: nat, events: seq<Event>)
    ensures var w := Run(Fresh(maxPayload, throttle), events);
            var j := Kept(Fresh(maxPayload, throttle), Blank(throttle), events);
            && w.history.published == j.published && w.history.resolved == j.told
            && w.closing == j.closing && w.throttle == j.throttle
            && (0 in w.handlers <==> j.left.Some?) && (0 in w.handlers ==> w.handlers[0] == j.left.value)
            && (forall t :: 0 < t ==> (t in w.handlers <==> t <= |j.published| && !IsTold(j, t)))
            && (forall t :: 0 < t && t in w.handlers && t <= |j.published| ==> w.handlers[t] == j.published[t - 1])
  {
    hide Run, Kept, Agrees, IsTold;
    FreshAgrees(maxPayload, throttle);
    BlankMatches(maxPayload, throttle);
    RunMatches(Fresh(maxPayload, throttle), Blank(throttle), events);
  }

  lemma {:induction false} BlankMatches(maxPayload: positive, throttle: nat)
    ensures Matches(Fresh(maxPayload, throttle), Blank(throttle))
  {
  }

  /* ----- how far messages are sent ----- */

  /** A flush begins as many messages as it may, or all. */
  lemma {:induction false} FlushBegins(w: Window, max: nat)
    requires Agrees(w, {})
    ensures w.last < w.current
    ensures Step(w, Flushing(max)).last
            == if max == 0 || w.last + max >= w.current - 1 then w.current - 1 else w.last + max
  {
    hide Agrees, FlushLoop;
    FlushLoopKeeps(w, max, 0, {});
    LastOfQueue(w);
    LastOfQueue(Flush(w, max));
  }

  lemma {:induction false} LastOfQueue(w: Window)
    requires Agrees(w, {})
    ensures w.last < w.current && (w.queue == [] <==> w.last == w.current - 1)
  {
    hide Between, Times;
    QueueEmptyIff(w);
  }

  /** A confirm takes its tags out of the window and begins as many messages as there is room for. */
  lemma {:induction false} ConfirmRefills(w: Window, tag: nat, multiple: bool)
    requires var open := if multiple then set t | t in w.open && t > tag else w.open - {tag};
             Agrees(w.(open := open), {})
    ensures w.last < w.current
    ensures var open := if multiple then set t | t in w.open && t > tag else w.open - {tag};
            var room := if |open| < w.throttle then w.throttle - |open| else 0;
            ThrottleConfirm(w, tag, multiple).last
            == if w.last + room >= w.current - 1 then w.current - 1 else w.last + room
  {
    hide Agrees, FlushLoop;
    var open := if multiple then set t | t in w.open && t > tag else w.open - {tag};
    var d := w.(open := open);
    LastOfQueue(d);
    if |open| < w.throttle {
      FlushLoopKeeps(d, w.throttle - |open|, 0, {});
      LastOfQueue(Flush(d, w.throttle - |open|));
    }
  }

  /* ----- an error of the channel ----- */

  /** The tags that have a handler, in their order. */
  function Tags(handlers: map<nat, Message>, from: nat, end: nat): (r: seq<nat>)
    decreases end - from
  {
    if from >= end then [] else (if from in handlers then [from] else []) + Tags(handlers, from + 1, end)
  }

  lemma {:induction false} LostInOrder(handlers: map<nat, Message>, from: nat, end: nat)
    ensures |LoseFrom(handlers, from, end)| == |Tags(handlers, from, end)|
    ensures forall i :: 0 <= i < |LoseFrom(handlers, from, end)| ==>
                          LoseFrom(handlers, from, end)[i] == Resolution(Tags(handlers, from, end)[i], Lost)
    decreases end - from
  {
    if from < end { LostInOrder(handlers, from + 1, end); }
  }

  /** When the channel fails, every handler is told that its message is lost, in the order of the tags. */
  lemma {:induction false} FailTells(w: Window)
    ensures var before, after := w.history.resolved, Fail(w).history.resolved;
            var tags := Tags(w.handlers, 0, w.current);
            && before <= after && |after| == |before| + |tags|
            && (forall i :: 0 <= i < |tags| ==> after[|before| + i] == Resolution(tags[i], Lost))
  {
    hide LoseFrom, Tags;
    LostInOrder(w.handlers, 0, w.current);
  }

  /* ----- what a message is on the wire ----- */

  function Payloads(frames: seq<Tagged>): seq<seq<byte>> {
    if frames == [] then []
    else (if frames[0].frame.Body? then [frames[0].frame.payload] else []) + Payloads(frames[1..])
  }

  lemma {:induction false} NoPayload(frames: seq<Tagged>)
    requires frames != [] && !frames[0].frame.Body?
    ensures Payloads(frames) == Payloads(frames[1..])
  {
  }

  lemma {:induction false} PayloadsOfBodies(tag: nat, chunks: seq<seq<byte>>)
    ensures Payloads(TagAll(tag, Content.Bodies(chunks))) == chunks
    decreases |chunks|
  {
    if chunks != [] {
      PayloadsOfBodies(tag, chunks[1..]);
      assert TagAll(tag, Content.Bodies(chunks))[1..] == TagAll(tag, Content.Bodies(chunks[1..]));
    }
  }

  /** The frames of a message carry its tag, announce its size, and bring its body. */
  lemma {:induction false} FramesCarryMessage(maxPayload: positive, tag: nat, m: Message)
    ensures var fs := FramesOf(maxPayload, tag, m);
            && (forall i :: 0 <= i < |fs| ==> fs[i].tag == tag)
            && fs[0].frame == Content.Publish && fs[1].frame == Content.Header(|m.body|)
            && (forall i :: 2 <= i < |fs| ==> fs[i].frame.Body?)
            && Flatten(Payloads(fs)) == m.body
  {
    hide Content.Chunks, Content.Bodies, Flatten;
    var chunks := Content.Chunks(m.body, maxPayload);
    Content.ChunksAreTheBody(m.body, maxPayload);
    PayloadsOfBodies(tag, chunks);
    var fs, bodies := FramesOf(maxPayload, tag, m), TagAll(tag, Content.Bodies(chunks));
    BodiesAreBodies(chunks);
    assert fs == [Tagged(tag, Content.Publish), Tagged(tag, Content.Header(|m.body|))] + bodies;
    assert fs[1..][1..] == bodies;
    NoPayload(fs);
    NoPayload(fs[1..]);
  }

  lemma {:induction false} BodiesAreBodies(chunks: seq<seq<byte>>)
    ensures forall i :: 0 <= i < |chunks| ==> Content.Bodies(chunks)[i].Body?
  {
    forall i | 0 <= i < |chunks| ensures Content.Bodies(chunks)[i].Body? {
      assert Content.Bodies(chunks)[i] == Content.Body(chunks[i]);
    }
  }

  /** A callback does what the application would do. */
  lemma {:induction false} CallbacksActAsUsers(w: Window, m: Message, n: nat)
    ensures PerformAll(w, [Posts(m)]) == Step(w, Publishing(m))
    ensures PerformAll(w, [Shuts]) == Step(w, Closing)
    ensures PerformAll(w, [Flushes(n)]) == Step(w, Flushing(n))
    ensures PerformAll(w, [Throttles(n)]) == Step(w, Throttling(n))
  {
    hide Publish, Close, FlushLoop;
    OneAct(w, Posts(m));
    OneAct(w, Shuts);
    OneAct(w, Flushes(n));
    OneAct(w, Throttles(n));
  }

  lemma {:induction false} OneAct(w: Window, act: Act)
    ensures PerformAll(w, [act]) == Perform(w, act)
  {
    hide Perform;
    assert [act][1..] == [];
    assert PerformAll(Perform(w, act), []) == Perform(w, act);
  }
}
