/**
 The pipeline over whole runs: replies are paired with their own requests, frames leave in call
 order and in lock step with the broker, and every request completes exactly once.
 */
module PipelineTheorems {
  import opened Pipeline

  /* ----- reading a history ----- */

  function SentFrames(traffic: seq<Traffic>): seq<Frame> {
    if traffic == [] then []
    else
      var before, last := SentFrames(traffic[..|traffic| - 1]), traffic[|traffic| - 1];
      if last.Sent? then before + [last.frame] else before
  }

  function AnsweredFrames(traffic: seq<Traffic>): seq<Frame> {
    if traffic == [] then []
    else
      var before, last := AnsweredFrames(traffic[..|traffic| - 1]), traffic[|traffic| - 1];
      if last.Answered? then before + [last.frame] else before
  }

  /** Every frame is sent when nothing is unanswered, and every reply answers the only unanswered frame. */
  predicate LockStep(traffic: seq<Traffic>) {
    traffic == [] ||
    (var before, last := traffic[..|traffic| - 1], traffic[|traffic| - 1];
     LockStep(before) && Unanswered(before) == if last.Sent? then [] else [last.frame])
  }

  /** The Deferreds that go with frames. */
  function Owners(frames: seq<Frame>): seq<nat> {
    if frames == [] then []
    else
      var before, last := Owners(frames[..|frames| - 1]), frames[|frames| - 1];
      if last.Method? || last.CloseMethod? then before + [last.id] else before
  }

  function Ids(chain: seq<Request>): (r: seq<nat>)
    ensures |r| == |chain|
  {
    seq(|chain|, i requires 0 <= i < |chain| => chain[i].id)
  }

  function OutcomeIds(outcomes: seq<Outcome>): (r: seq<nat>)
    ensures |r| == |outcomes|
  {
    seq(|outcomes|, i requires 0 <= i < |outcomes| => outcomes[i].id)
  }

  function Successes(outcomes: seq<Outcome>): seq<nat> {
    if outcomes == [] then []
    else
      var before, last := Successes(outcomes[..|outcomes| - 1]), outcomes[|outcomes| - 1];
      if last.Success? then before + [last.id] else before
  }

  ghost predicate NoneCloses(frames: seq<Frame>) {
    forall i :: 0 <= i < |frames| ==> !frames[i].CloseMethod?
  }

  lemma {:induction false} TrafficStep(traffic: seq<Traffic>, last: Traffic)
    ensures var t, open := traffic + [last], Unanswered(traffic);
            && Unanswered(t) == (if last.Sent? then if last.frame.Synchronous() then open + [last.frame] else open
                                 else if open == [] then [] else open[1..])
            && SentFrames(t) == (if last.Sent? then SentFrames(traffic) + [last.frame] else SentFrames(traffic))
            && AnsweredFrames(t)
               == (if last.Sent? then AnsweredFrames(traffic) else AnsweredFrames(traffic) + [last.frame])
            && LockStep(t) == (LockStep(traffic) && open == if last.Sent? then [] else [last.frame])
  {
    assert (traffic + [last])[..|traffic|] == traffic;
  }

  lemma {:induction false} OwnersStep(frames: seq<Frame>, last: Frame)
    ensures Owners(frames + [last])
            == if last.Method? || last.CloseMethod? then Owners(frames) + [last.id] else Owners(frames)
    ensures Owners([last]) == if last.Method? || last.CloseMethod? then [last.id] else []
  {
    assert (frames + [last])[..|frames|] == frames;
    assert [last][..0] == [] && Owners([]) == [];
  }

  lemma {:induction false} EmptyOwners()
    ensures Owners([]) == []
  {
  }

  lemma {:induction false} OwnersAppend(a: seq<Frame>, b: seq<Frame>)
    ensures Owners(a + b) == Owners(a) + Owners(b)
  {
    hide Owners;
    if b == [] {
      assert a + b == a;
      EmptyOwners();
    } else {
      var n := |b| - 1;
      OwnersAppend(a, b[..n]);
      assert a + b == (a + b[..n]) + [b[n]] && b == b[..n] + [b[n]];
      OwnersStep(a + b[..n], b[n]);
      OwnersStep(b[..n], b[n]);
    }
  }

  lemma {:induction false} OutcomeStep(outcomes: seq<Outcome>, last: Outcome)
    ensures OutcomeIds(outcomes + [last]) == OutcomeIds(outcomes) + [last.id]
    ensures Successes(outcomes + [last])
            == if last.Success? then Successes(outcomes) + [last.id] else Successes(outcomes)
  {
    assert (outcomes + [last])[..|outcomes|] == outcomes;
  }

  lemma {:induction false} IdsStep(chain: seq<Request>, last: Request)
    ensures Ids(chain + [last]) == Ids(chain) + [last.id]
  {
  }

  lemma {:induction false} IdsDrop(chain: seq<Request>)
    requires chain != []
    ensures Ids(chain) == [chain[0].id] + Ids(chain[1..])
  {
  }

  /* ----- the invariant ----- */

  ghost predicate Recorded(c: Channel) {
    var h := c.history;
    && LockStep(h.traffic)
    && Successes(h.completed) == Owners(AnsweredFrames(h.traffic))
    && OutcomeIds(h.completed) + Ids(c.chain) == h.pushed
  }

  /** A close is the last frame accepted. */
  ghost predicate ClosesLast(c: Channel) {
    && (c.Usable() ==> NoneCloses(c.history.accepted))
    && (c.history.accepted != [] ==> NoneCloses(c.history.accepted[..|c.history.accepted| - 1]))
  }

  /** Pairing: the chain holds the Deferred of the unanswered frame, those of the queue, and those without a frame. */
  ghost predicate Paired(c: Channel) {
    var open := Unanswered(c.history.traffic);
    && c.synchronous == (open != [])
    && Ids(c.chain) == Owners(open) + Owners(c.queue) + c.history.frameless
    && (c.Usable() ==> c.history.frameless == [])
  }

  ghost predicate InOrder(c: Channel) {
    SentFrames(c.history.traffic) + c.queue == c.history.accepted
  }

  ghost predicate Flushing(c: Channel) {
    Recorded(c) && ClosesLast(c) && Paired(c) && InOrder(c)
  }

  ghost predicate Active(c: Channel) {
    Flushing(c) && (c.queue != [] ==> c.synchronous)
  }

  /** A closed channel: what was queued is never sent, and what is still asked for pends forever. */
  ghost predicate Halted(c: Channel) {
    && Recorded(c) && ClosesLast(c) && c.phase == Closed && !c.synchronous && c.queue == []
    && SentFrames(c.history.traffic) <= c.history.accepted
    && Ids(c.chain) == c.history.frameless
  }

  ghost predicate Consistent(c: Channel) {
    if c.phase == Closed then Halted(c) else Active(c)
  }

  /* ----- sending and flushing keep it ----- */

  lemma {:induction false} FlushOneRecord(c: Channel)
    requires Recorded(c) && ClosesLast(c) && InOrder(c) && Unanswered(c.history.traffic) == [] && c.queue != []
    ensures var d := Transmit(c.(queue := c.queue[1..]), c.queue[0]); Recorded(d) && ClosesLast(d) && InOrder(d)
  {
    hide SentFrames, AnsweredFrames, LockStep, Owners, Successes, OutcomeIds, Ids, Unanswered, NoneCloses;
    var f, rest := c.queue[0], c.queue[1..];
    TrafficStep(c.history.traffic, Sent(f));
    assert c.queue == [f] + rest;
    assert SentFrames(c.history.traffic) + c.queue == (SentFrames(c.history.traffic) + [f]) + rest;
  }

  lemma {:induction false} OwnersFront(frames: seq<Frame>)
    requires frames != []
    ensures Owners(frames) == Owners([frames[0]]) + Owners(frames[1..])
    ensures Owners([frames[0]]) == if frames[0].Synchronous() then Owners([frames[0]]) else []
  {
    hide Owners;
    assert frames == [frames[0]] + frames[1..];
    OwnersAppend([frames[0]], frames[1..]);
    assert [] + [frames[0]] == [frames[0]];
    OwnersStep([], frames[0]);
  }

  /** The frame in front of the queue is the only one unanswered after it was sent, if it asks for an answer. */
  lemma {:induction false} OwnersMove(traffic: seq<Traffic>, queue: seq<Frame>)
    requires Unanswered(traffic) == [] && queue != []
    ensures var open := Unanswered(traffic + [Sent(queue[0])]);
            && queue[0].Synchronous() == (open != [])
            && Owners(open) + Owners(queue[1..]) == Owners(Unanswered(traffic)) + Owners(queue)
  {
    hide Owners, Unanswered;
    TrafficStep(traffic, Sent(queue[0]));
    assert [] + [queue[0]] == [queue[0]];
    OwnersFront(queue);
    EmptyOwners();
  }

  lemma {:induction false} FlushOnePairing(c: Channel)
    requires Paired(c) && !c.synchronous && c.queue != []
    ensures Paired(Transmit(c.(queue := c.queue[1..]), c.queue[0]))
  {
    hide Owners, Ids, Unanswered;
    OwnersMove(c.history.traffic, c.queue);
  }

  lemma {:induction false} FlushOne(c: Channel)
    requires Flushing(c) && !c.synchronous && c.queue != []
    ensures Flushing(Transmit(c.(queue := c.queue[1..]), c.queue[0]))
  {
    hide Recorded, ClosesLast, InOrder, Ids, Owners, Unanswered;
    FlushOneRecord(c);
    FlushOnePairing(c);
  }

  lemma {:induction false} FlushKeeps(c: Channel)
    requires Flushing(c)
    ensures var d := FlushLoop(c);
            && Active(d) && d.phase == c.phase && d.chain == c.chain
            && d.history == c.history.(traffic := d.history.traffic)
    decreases |c.queue|
  {
    hide Recorded, ClosesLast, Paired, InOrder;
    if !c.synchronous && c.queue != [] {
      FlushOne(c);
      FlushKeeps(Transmit(c.(queue := c.queue[1..]), c.queue[0]));
    }
  }

  /** What an accepted frame leaves behind: its owner is the last one waited for. */
  ghost predicate Accepts(c: Channel, f: Frame, d: Channel) {
    && Recorded(d) && InOrder(d) && d.phase == c.phase && d.chain == c.chain
    && (d.queue != [] ==> d.synchronous)
    && d.synchronous == (Unanswered(d.history.traffic) != [])
    && Owners(Unanswered(d.history.traffic)) + Owners(d.queue) == Ids(c.chain) + Owners([f])
    && d.history == c.history.(traffic := d.history.traffic, accepted := c.history.accepted + [f])
  }

  lemma {:induction false} SendLater(c: Channel, f: Frame)
    requires c.Usable() && Active(c) && c.synchronous
    ensures Accepts(c, f, SendFrame(c, f).0)
  {
    hide SentFrames, AnsweredFrames, LockStep, Owners, Successes, OutcomeIds, Ids, Unanswered, ClosesLast;
    OwnersAppend(c.queue, [f]);
    var waiting := Owners(Unanswered(c.history.traffic));
    assert waiting + (Owners(c.queue) + Owners([f])) == (waiting + Owners(c.queue) + []) + Owners([f]);
    var sent := SentFrames(c.history.traffic);
    assert sent + (c.queue + [f]) == (sent + c.queue) + [f];
  }

  lemma {:induction false} SendNow(c: Channel, f: Frame)
    requires c.Usable() && Active(c) && !c.synchronous
    ensures Accepts(c, f, SendFrame(c, f).0)
  {
    hide SentFrames, AnsweredFrames, LockStep, Owners, Successes, OutcomeIds, Ids, Unanswered, ClosesLast;
    TrafficStep(c.history.traffic, Sent(f));
    EmptyOwners();
    OwnersMove(c.history.traffic, [f]);
    assert [f][1..] == [];
    var sent := SentFrames(c.history.traffic);
    assert (sent + []) + [f] == (sent + [f]) + [];
  }

  /** Accepting a frame: it is sent at once if nothing is awaited, and queued otherwise. */
  lemma {:induction false} SendKeeps(c: Channel, f: Frame)
    requires c.Usable() && Active(c)
    ensures Accepts(c, f, SendFrame(c, f).0)
  {
    hide Active, Accepts, SendFrame;
    if c.synchronous { SendLater(c, f); } else { SendNow(c, f); }
  }

  lemma {:induction false} ClosesLastAfter(c: Channel, f: Frame, phase: Phase)
    requires ClosesLast(c) && c.Usable() && (f.CloseMethod? ==> phase == Closing)
    ensures ClosesLast(c.(phase := phase, history := c.history.(accepted := c.history.accepted + [f])))
  {
    var a := c.history.accepted;
    assert (a + [f])[..|a|] == a;
  }

  lemma {:induction false} ClosesLastDepends(c: Channel, d: Channel)
    requires ClosesLast(c) && d.history.accepted == c.history.accepted && (d.Usable() ==> c.Usable())
    ensures ClosesLast(d)
  {
  }

  lemma {:induction false} PushKeepsRecord(c: Channel, r: Request, lacksFrame: bool)
    requires Recorded(c)
    ensures Recorded(Push(c, r, lacksFrame))
    ensures Ids(Push(c, r, lacksFrame).chain) == Ids(c.chain) + [r.id]
  {
    hide AnsweredFrames, LockStep, Owners, Successes, OutcomeIds, Ids;
    IdsStep(c.chain, r);
    var done := OutcomeIds(c.history.completed);
    assert done + (Ids(c.chain) + [r.id]) == (done + Ids(c.chain)) + [r.id];
  }

  lemma {:induction false} RecordedDepends(c: Channel, d: Channel)
    requires Recorded(c) && c.history == d.history && c.chain == d.chain
    ensures Recorded(d)
  {
  }

  lemma {:induction false} PerformUsable(c: Channel, op: Operation)
    requires Active(c) && c.Usable()
    ensures Active(Perform(c, op))
    ensures Perform(c, op).phase == if op.Close? then Closing else c.phase
  {
    hide Owners, Ids, Recorded, SentFrames, Unanswered, SendFrame, ClosesLast;
    var f := match op case Send(id) => Plain(id) case Call(id, _) => Method(id) case Close(id, _) => CloseMethod(id);
    SendKeeps(c, f);
    var d, e := SendFrame(c, f).0, Perform(c, op);
    OwnersStep([], f);
    ClosesLastAfter(c, f, e.phase);
    ClosesLastDepends(c.(phase := e.phase, history := c.history.(accepted := c.history.accepted + [f])), e);
    if op.Send? {
      assert Ids(c.chain) + [] + [] == Ids(c.chain);
    } else {
      var p := Push(d, Request(op.id, op.onSuccess), false);
      PushKeepsRecord(d, Request(op.id, op.onSuccess), false);
      RecordedDepends(p, e);
      assert Ids(c.chain) + [op.id] + [] == Ids(c.chain) + [op.id];
    }
  }

  lemma {:induction false} PairedPush(c: Channel, r: Request)
    requires Paired(c) && !c.Usable()
    ensures Paired(Push(c, r, true))
  {
    hide Owners, Ids, Unanswered;
    IdsStep(c.chain, r);
    var owners := Owners(Unanswered(c.history.traffic)) + Owners(c.queue);
    assert (owners + c.history.frameless) + [r.id] == owners + (c.history.frameless + [r.id]);
  }

  lemma {:induction false} PerformUnusable(c: Channel, op: Operation)
    requires Active(c) && !c.Usable()
    ensures Active(Perform(c, op)) && Perform(c, op).phase == c.phase
  {
    hide Paired, Recorded, SentFrames, ClosesLast, Perform;
    NotUsable(c, op);
    if !op.Send? {
      var r := Request(op.id, op.onSuccess);
      PushKeepsRecord(c, r, true);
      PairedPush(c, r);
      ClosesLastDepends(c, Push(c, r, true));
    }
  }

  /** An operation keeps the pairing, on an open channel and on one that is closing or closed. */
  lemma {:induction false} PerformKeeps(c: Channel, op: Operation)
    requires Active(c)
    ensures Active(Perform(c, op))
    ensures Perform(c, op).phase == (if op.Close? && c.Usable() then Closing else c.phase)
  {
    hide Active, Perform;
    if c.Usable() { PerformUsable(c, op); } else { PerformUnusable(c, op); }
  }

  lemma {:induction false} NotUsable(c: Channel, op: Operation)
    requires !c.Usable()
    ensures Perform(c, op) == if op.Send? then c else Push(c, Request(op.id, op.onSuccess), true)
  {
  }

  lemma {:induction false} PerformAllKeeps(c: Channel, ops: seq<Operation>)
    requires Active(c)
    ensures var d := PerformAll(c, ops); Active(d) && (c.phase == Closed ==> d.phase == Closed)
    decreases |ops|
  {
    hide Active, Perform;
    if ops != [] {
      PerformKeeps(c, ops[0]);
      PerformAllKeeps(Perform(c, ops[0]), ops[1..]);
    }
  }

  /* ----- completion ----- */

  function Drop(c: Channel): Channel
    requires c.chain != []
  {
    c.(chain := c.chain[1..])
  }

  /**
   A success callback runs while its own Deferred still heads the chain. Whatever it asks for, the
   outcome is as if the head had been removed first.
   */
  lemma {:induction false} CallbackCommutes(c: Channel, ops: seq<Operation>)
    requires c.chain != []
    ensures PerformAll(c, ops).chain != []
    ensures Drop(PerformAll(c, ops)) == PerformAll(Drop(c), ops)
    decreases |ops|
  {
    hide Perform, Drop;
    if ops != [] {
      OperationCommutes(c, ops[0]);
      CallbackCommutes(Perform(c, ops[0]), ops[1..]);
    }
  }

  lemma {:induction false} OperationCommutes(c: Channel, op: Operation)
    requires c.chain != []
    ensures Perform(c, op).chain != []
    ensures Drop(Perform(c, op)) == Perform(Drop(c), op)
  {
    if !op.Send? {
      var r := Request(op.id, op.onSuccess);
      assert (c.chain + [r])[1..] == c.chain[1..] + [r];
    }
  }

  lemma {:induction false} FlushIgnoresChain(c: Channel, chain: seq<Request>, completed: seq<Outcome>)
    ensures FlushLoop(c.(chain := chain, history := c.history.(completed := completed)))
            == (var d := FlushLoop(c); d.(chain := chain, history := d.history.(completed := completed)))
    decreases |c.queue|
  {
    if !c.synchronous && c.queue != [] {
      FlushIgnoresChain(Transmit(c.(queue := c.queue[1..]), c.queue[0]), chain, completed);
    }
  }

  /** The head completed and removed, before anything else happens. */
  function Popped(c: Channel): Channel
    requires c.chain != []
  {
    Drop(Complete(c.(synchronous := false), Success(c.chain[0].id)))
  }

  lemma {:induction false} ReportSuccessPopsFirst(c: Channel)
    requires c.chain != []
    ensures ReportSuccess(c) == PerformAll(FlushLoop(Popped(c)), c.chain[0].onSuccess)
  {
    hide PerformAll, FlushLoop;
    var d := Flush(c);
    FlushKeepsChain(c.(synchronous := false));
    var e := Complete(d, Success(c.chain[0].id));
    CallbackCommutes(e, c.chain[0].onSuccess);
    FlushIgnoresChain(c.(synchronous := false), c.chain[1..], e.history.completed);
  }

  lemma {:induction false} FlushKeepsChain(c: Channel)
    ensures FlushLoop(c).chain == c.chain && FlushLoop(c).phase == c.phase
    ensures FlushLoop(c).history == c.history.(traffic := FlushLoop(c).history.traffic)
    decreases |c.queue|
  {
    if !c.synchronous && c.queue != [] {
      FlushKeepsChain(Transmit(c.(queue := c.queue[1..]), c.queue[0]));
    }
  }

  /** The reply to a method: its own Deferred is the head of the chain. */
  lemma {:induction false} HeadIsAnswered(c: Channel, f: Frame)
    requires Paired(c) && Unanswered(c.history.traffic) == [f] && (f.Method? || f.CloseMethod?)
    ensures c.chain != [] && c.chain[0].id == f.id
    ensures Ids(c.chain[1..]) == Owners(c.queue) + c.history.frameless
  {
    hide Owners, Unanswered;
    OwnersStep([], f);
    assert Ids(c.chain)[0] == f.id;
    var rest := Owners(c.queue) + c.history.frameless;
    assert Ids(c.chain) == [f.id] + rest;
    assert Ids(c.chain)[1..] == rest && Ids(c.chain)[1..] == Ids(c.chain[1..]);
  }

  lemma {:induction false} PoppedRecord(c: Channel, f: Frame)
    requires Recorded(c) && Unanswered(c.history.traffic) == [f] && (f.Method? || f.CloseMethod?)
    requires c.chain != [] && c.chain[0].id == f.id
    ensures Recorded(Popped(c.(history := c.history.(traffic := c.history.traffic + [Answered(f)]))))
  {
    hide SentFrames, AnsweredFrames, LockStep, Owners, Successes, OutcomeIds, Ids, Unanswered;
    TrafficStep(c.history.traffic, Answered(f));
    OwnersStep(AnsweredFrames(c.history.traffic), f);
    OutcomeStep(c.history.completed, Success(f.id));
    IdsDrop(c.chain);
    var done := OutcomeIds(c.history.completed);
    assert (done + [f.id]) + Ids(c.chain[1..]) == done + ([f.id] + Ids(c.chain[1..]));
  }

  lemma {:induction false} ReplyPops(c: Channel, f: Frame)
    requires Active(c) && Unanswered(c.history.traffic) == [f] && (f.Method? || f.CloseMethod?)
    ensures var d := c.(history := c.history.(traffic := c.history.traffic + [Answered(f)]));
            && d.chain != [] && d.chain[0].id == f.id && Flushing(Popped(d))
  {
    hide SentFrames, Recorded, Owners, Ids, Unanswered, ClosesLast;
    HeadIsAnswered(c, f);
    PoppedRecord(c, f);
    TrafficStep(c.history.traffic, Answered(f));
    EmptyOwners();
    var d := c.(history := c.history.(traffic := c.history.traffic + [Answered(f)]));
    ClosesLastDepends(c, Popped(d));
    assert [] + Owners(c.queue) == Owners(c.queue);
  }

  function Failures(chain: seq<Request>): (r: seq<Outcome>)
    ensures |r| == |chain|
  {
    seq(|chain|, i requires 0 <= i < |chain| => Failure(chain[i].id))
  }

  lemma {:induction false} FailAllFails(c: Channel)
    ensures FailAll(c)
            == c.(chain := [], history := c.history.(completed := c.history.completed + Failures(c.chain)))
    decreases |c.chain|
  {
    if c.chain == [] {
      assert c.history.completed + Failures(c.chain) == c.history.completed;
    } else {
      var d := Complete(c, Failure(c.chain[0].id)).(chain := c.chain[1..]);
      FailAllFails(d);
      assert Failures(c.chain) == [Failure(c.chain[0].id)] + Failures(d.chain);
      assert d.history.completed + Failures(d.chain) == c.history.completed + Failures(c.chain);
    }
  }

  lemma {:induction false} FailuresRecorded(completed: seq<Outcome>, chain: seq<Request>)
    ensures OutcomeIds(completed + Failures(chain)) == OutcomeIds(completed) + Ids(chain)
    ensures Successes(completed + Failures(chain)) == Successes(completed)
    decreases |chain|
  {
    hide Successes;
    if chain == [] {
      assert completed + Failures(chain) == completed;
    } else {
      var n := |chain| - 1;
      FailuresRecorded(completed, chain[..n]);
      OutcomeStep(completed + Failures(chain[..n]), Failure(chain[n].id));
      assert completed + Failures(chain) == (completed + Failures(chain[..n])) + [Failure(chain[n].id)];
      assert Ids(chain) == Ids(chain[..n]) + [chain[n].id];
    }
  }

  /** An error empties the pipeline: everything pending fails, in order, and nothing queued is sent. */
  lemma {:induction false} ErrorHalts(c: Channel)
    requires Active(c)
    ensures var d := ReportError(c);
            && Halted(d) && d.chain == []
            && d.history.completed == c.history.completed + Failures(c.chain)
            && d.history == c.history.(completed := d.history.completed, frameless := [])
  {
    hide SentFrames, AnsweredFrames, LockStep, Owners, Successes, Unanswered, NoneCloses, OutcomeIds, Ids, FailAll;
    FailAllFails(c.(phase := Closed, synchronous := false, queue := []));
    FailuresRecorded(c.history.completed, c.chain);
    EmptyIds();
    var d := ReportError(c);
    assert OutcomeIds(d.history.completed) + [] == OutcomeIds(d.history.completed);
  }

  lemma {:induction false} EmptyIds()
    ensures Ids([]) == []
  {
  }

  /** On a closed channel a request joins the chain and nothing else happens. */
  lemma {:induction false} HaltedStep(c: Channel, onReady: seq<Operation>, e: Event)
    requires Halted(c)
    ensures Halted(Step(c, onReady, e))
    ensures Step(c, onReady, e).history.completed == c.history.completed
    ensures Step(c, onReady, e).history.traffic == c.history.traffic
  {
    hide SentFrames, Recorded, Ids, Unanswered, ClosesLast;
    if e.Issue? && !e.op.Send? {
      var r := Request(e.op.id, e.op.onSuccess);
      NotUsable(c, e.op);
      PushKeepsRecord(c, r, true);
      ClosesLastDepends(c, Push(c, r, true));
    }
  }

  /** The answer to the opening frame completes no Deferred. */
  lemma {:induction false} OpenAnswered(c: Channel)
    requires Active(c) && Unanswered(c.history.traffic) == [Open]
    requires c.phase == Connected || c.phase == Closing || c.phase == Ready
    ensures var d := c.(history := c.history.(traffic := c.history.traffic + [Answered(Open)]), synchronous := false);
            Flushing(if c.phase == Connected then d.(phase := Ready) else d)
  {
    hide SentFrames, AnsweredFrames, LockStep, Owners, Successes, OutcomeIds, Ids, Unanswered, NoneCloses;
    TrafficStep(c.history.traffic, Answered(Open));
    OwnersStep([], Open);
    assert [] + [Open] == [Open];
    EmptyOwners();
    OwnersStep(AnsweredFrames(c.history.traffic), Open);
  }

  lemma {:induction false} AtMostOneUnanswered(traffic: seq<Traffic>)
    requires LockStep(traffic)
    ensures |Unanswered(traffic)| <= 1
  {
    if traffic != [] {
      AtMostOneUnanswered(traffic[..|traffic| - 1]);
    }
  }

  lemma {:induction false} ReplyOpenKeeps(c: Channel, onReady: seq<Operation>)
    requires Active(c) && c.phase != Closed && Unanswered(c.history.traffic) == [Open]
    ensures Active(Step(c, onReady, Reply)) && Step(c, onReady, Reply).phase != Closed
  {
    hide Active, Flushing, PerformAll, FlushLoop, Unanswered;
    OpenAnswered(c);
    var d := c.(history := c.history.(traffic := c.history.traffic + [Answered(Open)]), synchronous := false);
    var e := if c.phase == Connected then d.(phase := Ready) else d;
    FlushKeeps(e);
    PerformAllKeeps(FlushLoop(e), onReady);
    StaysOpen(FlushLoop(e), onReady);
  }

  lemma {:induction false} StaysOpen(c: Channel, ops: seq<Operation>)
    requires c.phase != Closed
    ensures PerformAll(c, ops).phase != Closed
    decreases |ops|
  {
    if ops != [] { StaysOpen(Perform(c, ops[0]), ops[1..]); }
  }

  lemma {:induction false} ReplyMethodKeeps(c: Channel, onReady: seq<Operation>, f: Frame)
    requires Active(c) && c.phase != Closed && Unanswered(c.history.traffic) == [f] && f.Method?
    ensures Active(Step(c, onReady, Reply)) && Step(c, onReady, Reply).phase != Closed
  {
    hide Active, Flushing, PerformAll, FlushLoop, Unanswered, ReportSuccess;
    ReplyPops(c, f);
    var d := c.(history := c.history.(traffic := c.history.traffic + [Answered(f)]));
    ReportSuccessPopsFirst(d);
    FlushKeeps(Popped(d));
    PerformAllKeeps(FlushLoop(Popped(d)), d.chain[0].onSuccess);
    StaysOpen(FlushLoop(Popped(d)), d.chain[0].onSuccess);
  }

  lemma {:induction false} ReplyCloseKeeps(c: Channel, onReady: seq<Operation>, f: Frame)
    requires Active(c) && c.phase != Closed && Unanswered(c.history.traffic) == [f] && f.CloseMethod?
    ensures var d := Step(c, onReady, Reply);
            && Halted(d) && d.chain == []
            && (exists failed :: d.history.completed == c.history.completed + [Success(f.id)] + Failures(failed))
  {
    hide Active, Halted, Flushing, PerformAll, FlushLoop, Unanswered, ReportSuccess, ReportError;
    var c' := c.(phase := Closed);
    ActiveWhenClosed(c);
    ReplyPops(c', f);
    var d := c'.(history := c.history.(traffic := c.history.traffic + [Answered(f)]));
    ReportSuccessPopsFirst(d);
    FlushKeeps(Popped(d));
    var e := FlushLoop(Popped(d));
    PerformAllKeeps(e, d.chain[0].onSuccess);
    AskingCompletesNothing(e, d.chain[0].onSuccess);
    ErrorHalts(PerformAll(e, d.chain[0].onSuccess));
  }

  lemma {:induction false} ActiveWhenClosed(c: Channel)
    requires Active(c)
    ensures Active(c.(phase := Closed))
  {
    hide SentFrames, AnsweredFrames, LockStep, Owners, Successes, OutcomeIds, Ids, Unanswered, NoneCloses;
  }

  lemma {:induction false} AskingCompletesNothing(c: Channel, ops: seq<Operation>)
    ensures PerformAll(c, ops).history.completed == c.history.completed
    decreases |ops|
  {
    if ops != [] { AskingCompletesNothing(Perform(c, ops[0]), ops[1..]); }
  }

  /* ----- whole runs ----- */

  lemma {:induction false} StepKeeps(c: Channel, onReady: seq<Operation>, e: Event)
    requires Consistent(c)
    ensures Consistent(Step(c, onReady, e))
    ensures c.phase != Closed && Step(c, onReady, e).phase == Closed ==> Step(c, onReady, e).chain == []
  {
    hide Active, Halted, Unanswered, Perform, ReportReady, ReportSuccess, ReportError, ReportClosed;
    if c.phase == Closed {
      HaltedStep(c, onReady, e);
      HaltedStays(c, onReady, e);
    } else {
      match e
      case Issue(op) => PerformKeeps(c, op);
      case BrokerCloses =>
        ErrorHalts(c);
        HaltedIsClosed(ReportError(c));
      case Reply => ReplyKeeps(c, onReady);
    }
  }

  lemma {:induction false} HaltedIsClosed(c: Channel)
    requires Halted(c)
    ensures c.phase == Closed
  {
  }

  lemma {:induction false} HaltedStays(c: Channel, onReady: seq<Operation>, e: Event)
    requires c.phase == Closed
    ensures Step(c, onReady, e).phase == Closed
  {
  }

  lemma {:induction false} ReplyKeeps(c: Channel, onReady: seq<Operation>)
    requires Active(c) && c.phase != Closed
    ensures Consistent(Step(c, onReady, Reply))
    ensures Step(c, onReady, Reply).phase == Closed ==> Step(c, onReady, Reply).chain == []
  {
    hide Active, Halted, Unanswered;
    ActiveInLockStep(c);
    var open := Unanswered(c.history.traffic);
    AtMostOneUnanswered(c.history.traffic);
    SynchronousUnanswered(c.history.traffic);
    if open != [] {
      match open[0]
      case Open => ReplyOpenKeeps(c, onReady);
      case Method(_) => ReplyMethodKeeps(c, onReady, open[0]);
      case CloseMethod(_) =>
        ReplyCloseKeeps(c, onReady, open[0]);
        HaltedIsClosed(Step(c, onReady, Reply));
    }
  }

  lemma {:induction false} ActiveInLockStep(c: Channel)
    requires Active(c)
    ensures LockStep(c.history.traffic)
  {
  }

  lemma {:induction false} SynchronousUnanswered(traffic: seq<Traffic>)
    ensures forall i :: 0 <= i < |Unanswered(traffic)| ==> Unanswered(traffic)[i].Synchronous()
  {
    if traffic != [] {
      SynchronousUnanswered(traffic[..|traffic| - 1]);
    }
  }

  lemma {:induction false} RunKeeps(c: Channel, onReady: seq<Operation>, events: seq<Event>)
    requires Consistent(c)
    ensures Consistent(Run(c, onReady, events))
    decreases |events|
  {
    hide Consistent, Step;
    if events != [] {
      StepKeeps(c, onReady, events[0]);
      RunKeeps(Step(c, onReady, events[0]), onReady, events[1..]);
    }
  }

  lemma {:induction false} AttachedIsConsistent()
    ensures Consistent(Attached()) && Attached().phase == Connected
  {
    TrafficStep([], Sent(Open));
    EmptyOwners();
    OwnersStep([], Open);
    assert [] + [Open] == [Open] && [] + [Sent(Open)] == [Sent(Open)];
    assert [Open] + [] == [Open];
  }

  function After(onReady: seq<Operation>, events: seq<Event>): Channel {
    Run(Attached(), onReady, events)
  }

  /**
   In every run the k-th reply to a request completes the Deferred of that very request, and on
   an open channel the chain is the Deferred of the one unanswered frame, then those of the queued
   frames, then those pushed while the channel was already closing.
   */
  lemma {:induction false} ReplyPairing(onReady: seq<Operation>, events: seq<Event>)
    ensures var c := After(onReady, events);
            var open := Unanswered(c.history.traffic);
            && Successes(c.history.completed) == Owners(AnsweredFrames(c.history.traffic))
            && |open| <= 1
            && (c.phase != Closed ==> Ids(c.chain) == Owners(open) + Owners(c.queue) + c.history.frameless)
            && (c.Usable() ==> c.history.frameless == [])
  {
    hide Run, LockStep, Unanswered, Owners, Successes, AnsweredFrames, Ids;
    AttachedIsConsistent();
    RunKeeps(Attached(), onReady, events);
    var c := After(onReady, events);
    AtMostOneUnanswered(c.history.traffic);
  }

  lemma {:induction false} EarlierIsNoClose(c: Channel, i: nat)
    requires ClosesLast(c) && i < |c.history.accepted| - 1
    ensures !c.history.accepted[i].CloseMethod?
  {
    assert c.history.accepted[..|c.history.accepted| - 1][i] == c.history.accepted[i];
  }

  /**
   In every run frames are handed over in call order, none is lost or duplicated while the channel
   is open, none is handed over while a synchronous frame is unanswered, and none after a close.
   */
  lemma {:induction false} FifoAndSynchrony(onReady: seq<Operation>, events: seq<Event>)
    ensures var c := After(onReady, events);
            var sent := SentFrames(c.history.traffic);
            && LockStep(c.history.traffic)
            && (c.phase != Closed ==> sent + c.queue == c.history.accepted)
            && (c.phase == Closed ==> sent <= c.history.accepted && c.queue == [])
            && (c.queue != [] ==> c.synchronous)
            && (c.phase != Closed ==> (c.synchronous <==> Unanswered(c.history.traffic) != []))
            && (forall i :: 0 <= i < |sent| && sent[i].CloseMethod? ==> i == |c.history.accepted| - 1)
  {
    hide Run, LockStep, Unanswered, Owners, Successes, AnsweredFrames, SentFrames, Ids, ClosesLast;
    AttachedIsConsistent();
    RunKeeps(Attached(), onReady, events);
    var c := After(onReady, events);
    var sent, accepted := SentFrames(c.history.traffic), c.history.accepted;
    assert sent <= accepted;
    forall i | 0 <= i < |sent| && sent[i].CloseMethod? ensures i == |accepted| - 1 {
      assert accepted[i] == sent[i];
      if i < |accepted| - 1 { EarlierIsNoClose(c, i); }
    }
  }

  /**
   In every run every Deferred completes once at most, in the order of the calls, and the others
   are the chain. The event that closes the channel leaves no Deferred behind.
   */
  lemma {:induction false} ExactlyOnce(onReady: seq<Operation>, events: seq<Event>, last: Event)
    ensures var c, d := After(onReady, events), After(onReady, events + [last]);
            && OutcomeIds(c.history.completed) + Ids(c.chain) == c.history.pushed
            && (c.phase != Closed && d.phase == Closed ==>
                  d.chain == [] && OutcomeIds(d.history.completed) == d.history.pushed)
  {
    hide Run, LockStep, Unanswered, Owners, Successes, AnsweredFrames, SentFrames, Ids, OutcomeIds, Step, Attached;
    AttachedIsConsistent();
    RunKeeps(Attached(), onReady, events);
    RunKeeps(Attached(), onReady, events + [last]);
    RunSnoc(Attached(), onReady, events, last);
    var c, d := After(onReady, events), After(onReady, events + [last]);
    StepKeeps(c, onReady, last);
    EmptyIds();
    assert d.chain == [] ==> OutcomeIds(d.history.completed) + Ids(d.chain) == OutcomeIds(d.history.completed);
  }

  lemma {:induction false} RunSnoc(c: Channel, onReady: seq<Operation>, events: seq<Event>, last: Event)
    ensures Run(c, onReady, events + [last]) == Step(Run(c, onReady, events), onReady, last)
    decreases |events|
  {
    hide Step;
    if events == [] {
      assert events + [last] == [last] && [last][1..] == [];
    } else {
      assert (events + [last])[1..] == events[1..] + [last];
      RunSnoc(Step(c, onReady, events[0]), onReady, events[1..], last);
    }
  }
}
