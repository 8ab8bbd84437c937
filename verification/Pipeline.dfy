/**
 The request pipeline of one channel, on values: frames wait behind an unanswered synchronous
 frame, and replies are matched to a chain of pending requests.

 The channel is attached to a usable connection that accepts every frame. The broker answers the
 synchronous frames it was sent, in order; it may also close the channel at any time.
 */
module Pipeline {

  datatype Phase = Connected | Ready | Closing | Closed

  /** A serialised frame: what opens the channel, a method with a reply, the closing method, or one without a reply. */
  datatype Frame = Open | Method(id: nat) | CloseMethod(id: nat) | Plain(id: nat) {
    predicate Synchronous() { !Plain? }
  }

  /**
   What an application asks for: a frame that has no reply, a method with a Deferred, or a close
   with a Deferred. `onSuccess` is what the success callback of that Deferred asks for in turn.
   */
  datatype Operation =
    | Send(id: nat)
    | Call(id: nat, onSuccess: seq<Operation>)
    | Close(id: nat, onSuccess: seq<Operation>)

  datatype Request = Request(id: nat, onSuccess: seq<Operation>)

  datatype Outcome = Success(id: nat) | Failure(id: nat)

  /** The traffic of the channel: a frame handed to the connection, a reply from the broker. */
  datatype Traffic = Sent(frame: Frame) | Answered(frame: Frame)

  /**
   What happened so far: the traffic; the frames `send` accepted, in call order; the Deferreds
   pushed and those completed, in order; and the pending ones for which no frame was accepted.
   */
  datatype History = History(
    traffic: seq<Traffic>, accepted: seq<Frame>, pushed: seq<nat>, completed: seq<Outcome>, frameless: seq<nat>)

  datatype Channel = Channel(
    phase: Phase, synchronous: bool, queue: seq<Frame>, chain: seq<Request>, history: History)
  {
    predicate Usable() { phase == Connected || phase == Ready }

    predicate Waiting() { synchronous || queue != [] }
  }

  /* ----- sending ----- */

  function Transmit(c: Channel, frame: Frame): Channel {
    c.(synchronous := frame.Synchronous(), history := c.history.(traffic := c.history.traffic + [Sent(frame)]))
  }

  /** `send`, and whether it reports success. A closing channel pretends that it sent the frame. */
  function SendFrame(c: Channel, frame: Frame): (r: (Channel, bool))
    ensures r.1 <==> !c.phase.Closed?
  {
    if c.phase == Closed then (c, false)
    else if c.phase == Closing then (c, true)
    else
      var d := c.(history := c.history.(accepted := c.history.accepted + [frame]));
      if c.Waiting() then (d.(queue := c.queue + [frame]), true) else (Transmit(d, frame), true)
  }

  function FlushLoop(c: Channel): (r: Channel)
    decreases |c.queue|
  {
    if c.synchronous || c.queue == [] then c
    else FlushLoop(Transmit(c.(queue := c.queue[1..]), c.queue[0]))
  }

  function Flush(c: Channel): Channel {
    FlushLoop(c.(synchronous := false))
  }

  /* ----- operations ----- */

  /** `push`. `lacksFrame` tells that no frame was accepted for the Deferred. */
  function Push(c: Channel, request: Request, lacksFrame: bool): Channel {
    c.(chain := c.chain + [request],
    history := c.history.(pushed := c.history.pushed + [request.id],
    frameless := c.history.frameless + if lacksFrame then [request.id] else []))
  }

  function Perform(c: Channel, op: Operation): Channel {
    match op
    case Send(id) => SendFrame(c, Plain(id)).0
    case Call(id, onSuccess) => Push(SendFrame(c, Method(id)).0, Request(id, onSuccess), !c.Usable())
    case Close(id, onSuccess) =>
      if !c.Usable() then Push(c, Request(id, onSuccess), true)
      else Push(SendFrame(c, CloseMethod(id)).0, Request(id, onSuccess), false).(phase := Closing)
  }

  function PerformAll(c: Channel, ops: seq<Operation>): (r: Channel)
    decreases |ops|
  {
    if ops == [] then c else PerformAll(Perform(c, ops[0]), ops[1..])
  }

  /* ----- completion ----- */

  function Complete(c: Channel, outcome: Outcome): Channel {
    c.(history := c.history.(completed := c.history.completed + [outcome]))
  }

  /** `reportSuccess`: the head of the chain is removed only after its callback has issued its operations. */
  function ReportSuccess(c: Channel): (r: Channel)
  {
    if c.chain == [] then c
    else
      var d := Flush(c);
      var e := PerformAll(Complete(d, Success(c.chain[0].id)), c.chain[0].onSuccess);
      e.(chain := if e.chain == [] then [] else e.chain[1..])
  }

  function FailAll(c: Channel): (r: Channel)
    decreases |c.chain|
  {
    if c.chain == [] then c else FailAll(Complete(c, Failure(c.chain[0].id)).(chain := c.chain[1..]))
  }

  /** `reportError`: no frame is sent for what was queued, and nothing stays pending. */
  function ReportError(c: Channel): Channel {
    var d := FailAll(c.(phase := Closed, synchronous := false, queue := []));
    d.(history := d.history.(frameless := []))
  }

  function ReportReady(c: Channel, onReady: seq<Operation>): Channel {
    PerformAll(Flush(if c.phase == Connected then c.(phase := Ready) else c), onReady)
  }

  function ReportClosed(c: Channel): Channel {
    ReportError(ReportSuccess(c.(phase := Closed)))
  }

  /* ----- runs ----- */

  /** The synchronous frames that have been sent and not been answered. */
  function Unanswered(traffic: seq<Traffic>): (r: seq<Frame>)
  {
    if traffic == [] then []
    else
      var before, last := Unanswered(traffic[..|traffic| - 1]), traffic[|traffic| - 1];
      match last
      case Sent(frame) => if frame.Synchronous() then before + [frame] else before
      case Answered(_) => if before == [] then [] else before[1..]
  }

  /** `attach`, after which the opening frame awaits its answer. */
  function Attached(): Channel {
    SendFrame(Channel(Connected, false, [], [], History([], [], [], [], [])), Open).0
  }

  datatype Event = Issue(op: Operation) | Reply | BrokerCloses

  /** The connection no longer knows a closed channel: what the broker says reaches no one. */
  function Step(c: Channel, onReady: seq<Operation>, event: Event): Channel {
    match event
    case Issue(op) => Perform(c, op)
    case BrokerCloses => if c.phase == Closed then c else ReportError(c)
    case Reply =>
      var open := Unanswered(c.history.traffic);
      if c.phase == Closed || open == [] then c
      else
        var d := c.(history := c.history.(traffic := c.history.traffic + [Answered(open[0])]));
        match open[0]
        case Open => ReportReady(d, onReady)
        case CloseMethod(_) => ReportClosed(d)
        case _ => ReportSuccess(d)
  }

  function Run(c: Channel, onReady: seq<Operation>, events: seq<Event>): Channel
    decreases |events|
  {
    if events == [] then c else Run(Step(c, onReady, events[0]), onReady, events[1..])
  }
}
