/**
 What an application asked of a channel, kept in a ledger: the operations in the order in which they were
 asked for, by the application and by its callbacks, and how the requests among them ended. A ledger knows
 no queue, no chain and no frame. Every run of a channel does what its ledger says.
 */
module Ledger {
  import opened Pipeline
  import opened PipelineTheorems

  /**
   `ready` tells whether the opening was answered, `leaving` that a close was asked for or that the
   channel is gone, `closed` that it is gone; `taken` are the operations asked for in time.
   */
  datatype Book = Book(
    ready: bool, leaving: bool, closed: bool, asked: seq<Operation>, taken: seq<Operation>, outcomes: seq<Outcome>)

  const BLANK: Book := Book(false, false, false, [], [], [])

  function Ask(b: Book, op: Operation): Book {
    b.(asked := b.asked + [op], taken := if b.leaving then b.taken else b.taken + [op],
    leaving := b.leaving || op.Close?)
  }

  function AskAll(b: Book, ops: seq<Operation>): Book
    decreases |ops|
  {
    if ops == [] then b else AskAll(Ask(b, ops[0]), ops[1..])
  }

  /** The operations that are answered. */
  function Requests(ops: seq<Operation>): seq<Operation> {
    if ops == [] then []
    else
      var before, last := Requests(ops[..|ops| - 1]), ops[|ops| - 1];
      if last.Send? then before else before + [last]
  }

  function Callback(op: Operation): seq<Operation> {
    if op.Send? then [] else op.onSuccess
  }

  function Failed(requests: seq<Operation>): (r: seq<Outcome>)
    ensures |r| == |requests|
  {
    seq(|requests|, i requires 0 <= i < |requests| => Failure(requests[i].id))
  }

  /** The channel is gone: every request without an outcome has failed. */
  function Abandon(b: Book): Book {
    var requests := Requests(b.asked);
    b.(closed := true, leaving := true,
    outcomes := b.outcomes + if |b.outcomes| <= |requests| then Failed(requests[|b.outcomes|..]) else [])
  }

  /** A reply answers the opening, and then the first request that has no outcome. */
  function Answer(b: Book, onReady: seq<Operation>): Book {
    var requests := Requests(b.taken);
    if b.closed then b
    else if !b.ready then AskAll(b.(ready := true), onReady)
    else if |b.outcomes| < |requests| then
      var request := requests[|b.outcomes|];
      var d := b.(closed := request.Close?, leaving := b.leaving || request.Close?,
                  outcomes := b.outcomes + [Success(request.id)]);
      var e := AskAll(d, Callback(request));
      if request.Close? then Abandon(e) else e
    else b
  }

  function Enter(b: Book, onReady: seq<Operation>, e: Event): Book {
    match e
    case Issue(op) => Ask(b, op)
    case Reply => Answer(b, onReady)
    case BrokerCloses => if b.closed then b else Abandon(b)
  }

  function Kept(b: Book, onReady: seq<Operation>, events: seq<Event>): Book
    decreases |events|
  {
    if events == [] then b else Kept(Enter(b, onReady, events[0]), onReady, events[1..])
  }

  /* ----- a channel and its ledger ----- */

  /** The frame of an operation. */
  function FrameOf(op: Operation): Frame {
    match op
    case Send(id) => Plain(id)
    case Call(id, _) => Method(id)
    case Close(id, _) => CloseMethod(id)
  }

  function FramesOf(ops: seq<Operation>): (r: seq<Frame>)
    ensures |r| == |ops|
  {
    seq(|ops|, i requires 0 <= i < |ops| => FrameOf(ops[i]))
  }

  function IdsOf(ops: seq<Operation>): (r: seq<nat>)
    ensures |r| == |ops|
  {
    seq(|ops|, i requires 0 <= i < |ops| => ops[i].id)
  }

  /** The Deferreds of requests. */
  function Deferreds(ops: seq<Operation>): (r: seq<Request>)
    ensures |r| == |ops|
  {
    seq(|ops|, i requires 0 <= i < |ops| => Request(ops[i].id, Callback(ops[i])))
  }

  /** The frames that are answered. */
  function Synchronous(frames: seq<Frame>): seq<Frame> {
    if frames == [] then []
    else
      var before, last := Synchronous(frames[..|frames| - 1]), frames[|frames| - 1];
      if last.Synchronous() then before + [last] else before
  }

  /** What was asked for is what the channel did: frames, Deferreds and outcomes. */
  ghost predicate Matches(c: Channel, b: Book) {
    && c.history.accepted == [Open] + FramesOf(b.taken)
    && c.history.pushed == IdsOf(Requests(b.asked))
    && c.history.completed == b.outcomes
    && |b.outcomes| <= |Requests(b.asked)|
    && c.chain == Deferreds(Requests(b.asked)[|b.outcomes|..])
    && (c.Usable() <==> !b.leaving) && (c.phase == Closed <==> b.closed)
  }

  ghost predicate InStep(c: Channel, b: Book) {
    && b.taken <= b.asked && (b.leaving || b.taken == b.asked)
    && (!b.ready ==> b.outcomes == [])
    && |AnsweredFrames(c.history.traffic)| == |b.outcomes| + if b.ready then 1 else 0
  }

  lemma {:induction false} RequestsStep(ops: seq<Operation>, op: Operation)
    ensures Requests(ops + [op]) == if op.Send? then Requests(ops) else Requests(ops) + [op]
  {
    assert (ops + [op])[..|ops|] == ops;
  }

  lemma {:induction false} RequestsLead(ops: seq<Operation>, more: seq<Operation>)
    requires ops <= more
    ensures Requests(ops) <= Requests(more)
    decreases |more|
  {
    hide Requests;
    if ops != more {
      var n := |more| - 1;
      RequestsLead(ops, more[..n]);
      assert more == more[..n] + [more[n]];
      RequestsStep(more[..n], more[n]);
    }
  }

  lemma {:induction false} FramesStep(ops: seq<Operation>, op: Operation)
    ensures FramesOf(ops + [op]) == FramesOf(ops) + [FrameOf(op)]
  {
  }

  lemma {:induction false} IdsOfStep(ops: seq<Operation>, op: Operation)
    ensures IdsOf(ops + [op]) == IdsOf(ops) + [op.id]
  {
  }

  lemma {:induction false} DeferredsStep(ops: seq<Operation>, op: Operation, n: nat)
    requires n <= |ops|
    ensures Deferreds((ops + [op])[n..]) == Deferreds(ops[n..]) + [Request(op.id, Callback(op))]
  {
  }

  lemma {:induction false} SynchronousStep(frames: seq<Frame>, f: Frame)
    ensures Synchronous(frames + [f]) == if f.Synchronous() then Synchronous(frames) + [f] else Synchronous(frames)
  {
    assert (frames + [f])[..|frames|] == frames;
  }

  lemma {:induction false} SynchronousAppend(a: seq<Frame>, b: seq<Frame>)
    ensures Synchronous(a + b) == Synchronous(a) + Synchronous(b)
    decreases |b|
  {
    hide Synchronous;
    if b == [] {
      NoFrames();
      assert a + b == a;
    } else {
      var n := |b| - 1;
      SynchronousAppend(a, b[..n]);
      assert a + b == (a + b[..n]) + [b[n]] && b == b[..n] + [b[n]];
      SynchronousStep(a + b[..n], b[n]);
      SynchronousStep(b[..n], b[n]);
    }
  }

  lemma {:induction false} NoFrames()
    ensures Synchronous([]) == []
  {
  }

  /** The frames that are answered are those of the requests. */
  lemma {:induction false} SynchronousRequests(ops: seq<Operation>)
    ensures Synchronous(FramesOf(ops)) == FramesOf(Requests(ops))
    decreases |ops|
  {
    hide Synchronous, Requests, FramesOf;
    if ops == [] {
      NoOperations();
    } else {
      var n := |ops| - 1;
      assert ops == ops[..n] + [ops[n]];
      SynchronousRequests(ops[..n]);
      FramesStep(ops[..n], ops[n]);
      SynchronousStep(FramesOf(ops[..n]), FrameOf(ops[n]));
      RequestsStep(ops[..n], ops[n]);
      if !ops[n].Send? { FramesStep(Requests(ops[..n]), ops[n]); }
    }
  }

  lemma {:induction false} NoOperations()
    ensures FramesOf([]) == [] && Requests([]) == [] && Synchronous([]) == []
  {
  }

  /** In lock step the frames sent for an answer are the answered ones and the one that is not. */
  lemma {:induction false} AnsweredInOrder(traffic: seq<Traffic>)
    requires LockStep(traffic)
    ensures Synchronous(SentFrames(traffic)) == AnsweredFrames(traffic) + Unanswered(traffic)
    decreases |traffic|
  {
    hide LockStep, SentFrames, AnsweredFrames, Unanswered, Synchronous;
    if traffic == [] {
      NoTraffic();
    } else {
      var before, last := traffic[..|traffic| - 1], traffic[|traffic| - 1];
      assert traffic == before + [last];
      TrafficStep(before, last);
      AnsweredInOrder(before);
      if last.Sent? { SynchronousStep(SentFrames(before), last.frame); }
    }
  }

  lemma {:induction false} NoTraffic()
    ensures SentFrames([]) == [] && AnsweredFrames([]) == [] && Unanswered([]) == [] && Synchronous([]) == []
  {
  }

  /* ----- asking ----- */

  /** An operation on a usable channel is one frame; a request is one Deferred on any channel. */
  lemma {:induction false} PerformDoes(c: Channel, op: Operation)
    ensures var d := Perform(c, op);
            && d.history.accepted == (if c.Usable() then c.history.accepted + [FrameOf(op)] else c.history.accepted)
            && d.history.pushed == (if op.Send? then c.history.pushed else c.history.pushed + [op.id])
            && d.history.completed == c.history.completed
            && d.chain == (if op.Send? then c.chain else c.chain + [Request(op.id, Callback(op))])
            && d.phase == (if op.Close? && c.Usable() then Closing else c.phase)
            && AnsweredFrames(d.history.traffic) == AnsweredFrames(c.history.traffic)
  {
    hide AnsweredFrames, SendFrame;
    SendDoes(c, FrameOf(op));
  }

  lemma {:induction false} SendDoes(c: Channel, f: Frame)
    ensures var d := SendFrame(c, f).0;
            && d == c.(synchronous := d.synchronous, queue := d.queue, history := d.history)
            && d.history == c.history.(traffic := d.history.traffic, accepted := d.history.accepted)
            && d.history.accepted == (if c.Usable() then c.history.accepted + [f] else c.history.accepted)
            && AnsweredFrames(d.history.traffic) == AnsweredFrames(c.history.traffic)
  {
    hide AnsweredFrames;
    TrafficStep(c.history.traffic, Sent(f));
  }

  lemma {:induction false} AskMatches(c: Channel, b: Book, op: Operation)
    requires Matches(c, b)
    ensures Matches(Perform(c, op), Ask(b, op))
    ensures InStep(c, b) ==> InStep(Perform(c, op), Ask(b, op))
  {
    hide Requests, FramesOf, IdsOf, Deferreds, AnsweredFrames, Perform, Callback;
    PerformDoes(c, op);
    RequestsStep(b.asked, op);
    FramesStep(b.taken, op);
    IdsOfStep(Requests(b.asked), op);
    DeferredsStep(Requests(b.asked), op, |b.outcomes|);
    assert ([Open] + FramesOf(b.taken)) + [FrameOf(op)] == [Open] + (FramesOf(b.taken) + [FrameOf(op)]);
  }

  lemma {:induction false} AskAllMatches(c: Channel, b: Book, ops: seq<Operation>)
    requires Matches(c, b)
    ensures Matches(PerformAll(c, ops), AskAll(b, ops))
    ensures InStep(c, b) ==> InStep(PerformAll(c, ops), AskAll(b, ops))
    decreases |ops|
  {
    hide Matches, InStep, Perform, Ask;
    if ops != [] {
      AskMatches(c, b, ops[0]);
      AskAllMatches(Perform(c, ops[0]), Ask(b, ops[0]), ops[1..]);
    }
  }

  lemma {:induction false} FlushAnswers(c: Channel)
    ensures AnsweredFrames(FlushLoop(c).history.traffic) == AnsweredFrames(c.history.traffic)
    decreases |c.queue|
  {
    hide AnsweredFrames;
    if !c.synchronous && c.queue != [] {
      TrafficStep(c.history.traffic, Sent(c.queue[0]));
      FlushAnswers(Transmit(c.(queue := c.queue[1..]), c.queue[0]));
    }
  }

  lemma {:induction false} FlushMatches(c: Channel, b: Book)
    requires Matches(c, b) && InStep(c, b)
    ensures Matches(FlushLoop(c), b) && InStep(FlushLoop(c), b)
  {
    hide AnsweredFrames, FlushLoop, Requests, FramesOf, IdsOf, Deferreds;
    FlushKeepsChain(c);
    FlushAnswers(c);
  }

  /* ----- replies ----- */

  /** What is answered next: the opening, or the first request without an outcome; nothing is, once all have one. */
  lemma {:induction false} NextAnswer(c: Channel, b: Book)
    requires Matches(c, b) && InStep(c, b) && Active(c) && !b.closed
    ensures var open, requests := Unanswered(c.history.traffic), Requests(b.taken);
            && (!b.ready ==> open == [Open])
            && (b.ready && |b.outcomes| < |requests| ==> open == [FrameOf(requests[|b.outcomes|])])
            && (b.ready && |b.outcomes| >= |requests| ==> open == [])
  {
    hide LockStep, SentFrames, AnsweredFrames, Unanswered, Synchronous, Requests, FramesOf, IdsOf, Deferreds, Owners,
      Ids;
    var t := c.history.traffic;
    AnsweredInOrder(t);
    AtMostOneUnanswered(t);
    SynchronousAppend(SentFrames(t), c.queue);
    SynchronousAppend([Open], FramesOf(b.taken));
    SynchronousRequests(b.taken);
    assert [] + [Open] == [Open];
    NoFrames();
    SynchronousStep([], Open);
    var all := [Open] + FramesOf(Requests(b.taken));
    assert AnsweredFrames(t) + Unanswered(t) + Synchronous(c.queue) == all;
    NextInLine(AnsweredFrames(t), Unanswered(t), Synchronous(c.queue), all);
    if Unanswered(t) == [] { NoFrames(); }
    FrameAt(Requests(b.taken));
  }

  lemma {:induction false} FrameAt(ops: seq<Operation>)
    ensures forall i :: 0 <= i < |ops| ==> FramesOf(ops)[i] == FrameOf(ops[i])
  {
  }

  lemma {:induction false} NextInLine(done: seq<Frame>, open: seq<Frame>, waiting: seq<Frame>, all: seq<Frame>)
    requires done + open + waiting == all && |open| <= 1 && (open == [] ==> waiting == [])
    ensures open == if |done| < |all| then [all[|done|]] else []
  {
  }

  lemma {:induction false} AnswerOpening(c: Channel, b: Book, onReady: seq<Operation>)
    requires Matches(c, b) && InStep(c, b) && !b.closed && !b.ready && Unanswered(c.history.traffic) == [Open]
    ensures var d := Step(c, onReady, Reply);
            Matches(d, Answer(b, onReady)) && InStep(d, Answer(b, onReady))
  {
    hide AnsweredFrames, Unanswered, Requests, FramesOf, IdsOf, Deferreds, PerformAll, FlushLoop, AskAll;
    TrafficStep(c.history.traffic, Answered(Open));
    var d := c.(history := c.history.(traffic := c.history.traffic + [Answered(Open)]), synchronous := false,
                phase := if c.phase == Connected then Ready else c.phase);
    FlushMatches(d, b.(ready := true));
    AskAllMatches(FlushLoop(d), b.(ready := true), onReady);
  }

  /** The book after the outcome of its next request. */
  function Succeeded(b: Book): Book
    requires |b.outcomes| < |Requests(b.taken)|
  {
    var request := Requests(b.taken)[|b.outcomes|];
    b.(closed := request.Close?, leaving := b.leaving || request.Close?,
    outcomes := b.outcomes + [Success(request.id)])
  }

  /** The Deferred of the answered request heads the chain, with its own callback. */
  lemma {:induction false} HeadMatches(c: Channel, b: Book)
    requires Matches(c, b) && InStep(c, b) && |b.outcomes| < |Requests(b.taken)|
    ensures var request := Requests(b.taken)[|b.outcomes|];
            && c.chain != [] && c.chain[0] == Request(request.id, Callback(request))
            && |b.outcomes| < |Requests(b.asked)|
            && c.chain[1..] == Deferreds(Requests(b.asked)[|b.outcomes| + 1..])
  {
    hide Requests, FramesOf, IdsOf, AnsweredFrames, Callback;
    RequestsLead(b.taken, b.asked);
  }

  /** The channel after the answer to a request, before its callback. */
  function Replied(c: Channel, f: Frame, closing: bool): Channel {
    c.(phase := if closing then Closed else c.phase,
    history := c.history.(traffic := c.history.traffic + [Answered(f)]))
  }

  lemma {:induction false} PoppedMatches(c: Channel, b: Book, f: Frame)
    requires Matches(c, b) && InStep(c, b) && !b.closed && b.ready && |b.outcomes| < |Requests(b.taken)|
    requires c.chain != []
    ensures var d := Popped(Replied(c, f, Requests(b.taken)[|b.outcomes|].Close?));
            Matches(d, Succeeded(b)) && InStep(d, Succeeded(b))
  {
    hide AnsweredFrames, Requests, FramesOf, IdsOf, Deferreds, Callback;
    HeadMatches(c, b);
    TrafficStep(c.history.traffic, Answered(f));
  }

  lemma {:induction false} AnswerRequest(c: Channel, b: Book, f: Frame)
    requires Matches(c, b) && InStep(c, b) && !b.closed && b.ready && |b.outcomes| < |Requests(b.taken)|
    ensures var request := Requests(b.taken)[|b.outcomes|];
            var d := ReportSuccess(Replied(c, f, request.Close?));
            Matches(d, AskAll(Succeeded(b), Callback(request))) && InStep(d, AskAll(Succeeded(b), Callback(request)))
  {
    hide Matches, InStep, Requests, Deferreds, PerformAll, FlushLoop, AskAll, Callback, ReportSuccess, Popped,
      Succeeded;
    var request := Requests(b.taken)[|b.outcomes|];
    var d := Replied(c, f, request.Close?);
    HeadMatches(c, b);
    PoppedMatches(c, b, f);
    ReportSuccessPopsFirst(d);
    FlushMatches(Popped(d), Succeeded(b));
    AskAllMatches(FlushLoop(Popped(d)), Succeeded(b), Callback(request));
  }

  lemma {:induction false} AbandonMatches(c: Channel, b: Book)
    requires Matches(c, b)
    ensures Matches(ReportError(c), Abandon(b))
  {
    hide Requests, FramesOf, IdsOf, Callback, FailAll;
    FailAllFails(c.(phase := Closed, synchronous := false, queue := []));
    var left := Requests(b.asked)[|b.outcomes|..];
    assert Failures(Deferreds(left)) == Failed(left);
    assert Deferreds([]) == [];
  }

  lemma {:induction false} AnswerMatches(c: Channel, b: Book, onReady: seq<Operation>)
    requires Follows(c, b) && Active(c) && !b.closed
    ensures Follows(Step(c, onReady, Reply), Answer(b, onReady))
  {
    hide Active, Matches, InStep, AnsweredFrames, Unanswered, Requests, ReportSuccess, ReportError, ReportReady, AskAll;
    NotYetClosed(c, b);
    NextAnswer(c, b);
    if !b.ready {
      AnswerOpening(c, b, onReady);
    } else if |b.outcomes| < |Requests(b.taken)| {
      var request := Requests(b.taken)[|b.outcomes|];
      RequestIsAnswered(b.taken);
      AnswerRequest(c, b, FrameOf(request));
      if request.Close? {
        var d := Replied(c, FrameOf(request), true);
        AbandonMatches(ReportSuccess(d), AskAll(Succeeded(b), Callback(request)));
      }
    }
  }

  /** The whole agreement; a channel that is gone is not answered any more. */
  ghost predicate Follows(c: Channel, b: Book) {
    Matches(c, b) && (!b.closed ==> InStep(c, b))
  }

  lemma {:induction false} NotYetClosed(c: Channel, b: Book)
    requires Matches(c, b)
    ensures c.phase == Closed <==> b.closed
  {
  }

  lemma {:induction false} RequestIsAnswered(ops: seq<Operation>)
    ensures forall i :: 0 <= i < |Requests(ops)| ==> !Requests(ops)[i].Send?
  {
    if ops != [] { RequestIsAnswered(ops[..|ops| - 1]); }
  }

  /* ----- whole runs ----- */

  lemma {:induction false} AskIsOpen(b: Book, op: Operation)
    ensures Ask(b, op).closed == b.closed
  {
  }

  lemma {:induction false} StepMatches(c: Channel, b: Book, onReady: seq<Operation>, e: Event)
    requires Follows(c, b) && Consistent(c)
    ensures Follows(Step(c, onReady, e), Enter(b, onReady, e))
  {
    hide Active, Halted, Matches, InStep, Perform, ReportSuccess, ReportError, ReportReady, Unanswered, Ask, Answer,
      Abandon;
    NotYetClosed(c, b);
    match e
    case Issue(op) =>
      AskMatches(c, b, op);
      AskIsOpen(b, op);
    case BrokerCloses =>
      if !b.closed {
        AbandonMatches(c, b);
        AbandonCloses(b);
      }
    case Reply => if b.closed { NoAnswer(b, onReady); } else { AnswerMatches(c, b, onReady); }
  }

  lemma {:induction false} AbandonCloses(b: Book)
    ensures Abandon(b).closed
  {
  }

  lemma {:induction false} NoAnswer(b: Book, onReady: seq<Operation>)
    requires b.closed
    ensures Answer(b, onReady) == b
  {
  }

  lemma {:induction false} RunMatches(c: Channel, b: Book, onReady: seq<Operation>, events: seq<Event>)
    requires Follows(c, b) && Consistent(c)
    ensures Follows(Run(c, onReady, events), Kept(b, onReady, events))
    decreases |events|
  {
    hide Follows, Consistent, Step, Enter;
    if events != [] {
      StepMatches(c, b, onReady, events[0]);
      StepKeeps(c, onReady, events[0]);
      RunMatches(Step(c, onReady, events[0]), Enter(b, onReady, events[0]), onReady, events[1..]);
    }
  }

  lemma {:induction false} AttachedMatches()
    ensures Follows(Attached(), BLANK)
  {
    hide Consistent;
    TrafficStep([], Sent(Open));
    assert [] + [Open] == [Open] && [] + [Sent(Open)] == [Sent(Open)] && [Open] + FramesOf([]) == [Open];
    assert AnsweredFrames([]) == [];
    assert IdsOf(Requests([])) == [] && Deferreds(Requests([])) == [];
  }

  /**
   In every run the channel did what was asked of it, callbacks included: the frames it accepted are
   those of the operations that came up to the first close, the Deferreds it made are those of all
   requests, each has the outcome of the ledger, and the chain holds those without one, with their callbacks.
   */
  lemma {:induction false} RunFollowsLedger(onReady: seq<Operation>, events: seq<Event>)
    ensures var c, b := After(onReady, events), Kept(BLANK, onReady, events);
            && c.history.accepted == [Open] + FramesOf(b.taken)
            && c.history.pushed == IdsOf(Requests(b.asked))
            && c.history.completed == b.outcomes
            && |b.outcomes| <= |Requests(b.asked)|
            && c.chain == Deferreds(Requests(b.asked)[|b.outcomes|..])
            && (c.Usable() <==> !b.leaving) && (c.phase == Closed <==> b.closed)
  {
    hide Run, Consistent, InStep, Attached, Kept;
    AttachedIsConsistent();
    AttachedMatches();
    RunMatches(Attached(), BLANK, onReady, events);
  }

  /** The operations asked for in time are all of them, up to the first close or the end of the channel. */
  ghost predicate UpToClose(b: Book) {
    && b.taken <= b.asked && (!b.leaving ==> b.taken == b.asked)
    && (forall i :: 0 <= i < |b.taken| && b.taken[i].Close? ==> i == |b.taken| - 1 && b.leaving)
  }

  lemma {:induction false} AskUpToClose(b: Book, op: Operation)
    requires UpToClose(b)
    ensures var d := Ask(b, op);
            UpToClose(d) && d.asked == b.asked + [op] && (b.leaving ==> d.leaving && d.taken == b.taken)
  {
  }

  lemma {:induction false} AskAllUpToClose(b: Book, ops: seq<Operation>)
    requires UpToClose(b)
    ensures var d := AskAll(b, ops); UpToClose(d) && d.asked == b.asked + ops && (b.leaving ==> d.taken == b.taken)
    decreases |ops|
  {
    hide UpToClose, Ask;
    if ops == [] {
      assert b.asked + ops == b.asked;
    } else {
      AskUpToClose(b, ops[0]);
      AskAllUpToClose(Ask(b, ops[0]), ops[1..]);
      assert (b.asked + [ops[0]]) + ops[1..] == b.asked + ops;
    }
  }

  lemma {:induction false} EnterUpToClose(b: Book, onReady: seq<Operation>, e: Event)
    requires UpToClose(b)
    ensures var d := Enter(b, onReady, e); UpToClose(d) && b.asked <= d.asked && (b.leaving ==> d.taken == b.taken)
    ensures e.Issue? ==> Enter(b, onReady, e).asked == b.asked + [e.op]
  {
    hide AskAll, Requests, Callback;
    if e.Reply? && !b.closed {
      if !b.ready {
        AskAllUpToClose(b.(ready := true), onReady);
      } else if |b.outcomes| < |Requests(b.taken)| {
        AskAllUpToClose(Succeeded(b), Callback(Requests(b.taken)[|b.outcomes|]));
      }
    }
  }

  /** In every ledger, what was asked for in time is what was asked for, up to the first close. */
  lemma {:induction false} TakenUpToClose(b: Book, onReady: seq<Operation>, events: seq<Event>)
    requires UpToClose(b)
    ensures var d := Kept(b, onReady, events); UpToClose(d) && b.asked <= d.asked
    decreases |events|
  {
    hide UpToClose, Enter;
    if events != [] {
      EnterUpToClose(b, onReady, events[0]);
      TakenUpToClose(Enter(b, onReady, events[0]), onReady, events[1..]);
    }
  }
}
