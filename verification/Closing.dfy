/**
 The states of a connection, on values: the queue of frames sent before the handshake is done, and
 the close that waits until no channel waits for an answer.
 */
module Closing {

  datatype State = Protocol | Handshake | Connected | Closing | Closed

  /**
   What goes out: frames of the handshake, other frames with their total size, and the close of the
   connection, here with the channels that were waiting when it was handed over. The first and the
   last kind are taken to fit the maximum frame size.
   */
  datatype Frame =
    | Handshaking
    | OfChannel(channel: nat, synchronous: bool, size: nat)
    | ConnectionClose(waiting: set<nat>)

  const OPEN_SIZE: nat := 13
  const CLOSE_SIZE: nat := 19
  const CLOSE_OK_SIZE: nat := 12
  const HEARTBEAT_SIZE: nat := 8

  /** A channel as the connection sees it. */
  datatype Channel = Channel(usable: bool, synchronous: bool, queue: seq<Frame>) {
    predicate Waiting() { synchronous || queue != [] }
  }

  datatype Connection = Connection(
    state: State, closed: bool, maxFrame: nat, channels: map<nat, Channel>, queue: seq<Frame>, wire: seq<Frame>)

  const FRESH: Connection := Connection(Protocol, false, 4096, map[], [], [Handshaking])

  /* ----- sending ----- */

  /** `send` of a frame, and whether it was accepted. */
  function Send(c: Connection, f: Frame): (r: (Connection, bool))
    ensures r.0 == c.(wire := r.0.wire, queue := r.0.queue)
  {
    if c.state == Closing || c.state == Closed then (c, false)
    else if c.closed && f.OfChannel? then (c, false)
    else if c.maxFrame > 0 && f.OfChannel? && f.size > c.maxFrame then (c, false)
    else if (c.state == Connected && c.queue == []) || f.Handshaking? then (c.(wire := c.wire + [f]), true)
    else (c.(queue := c.queue + [f]), true)
  }

  /** `send` of a frame that a channel had queued: it is accepted after `close` was called, too. */
  function SendBuffer(c: Connection, f: Frame): (r: (Connection, bool))
    ensures r.0 == c.(wire := r.0.wire, queue := r.0.queue)
  {
    if c.state != Connected then (c, false)
    else if c.queue == [] then (c.(wire := c.wire + [f]), true)
    else (c.(queue := c.queue + [f]), true)
  }

  function WaitingOnes(channels: map<nat, Channel>): set<nat> {
    set id | id in channels && channels[id].Waiting()
  }

  function SendClose(c: Connection): Connection {
    Send(c, ConnectionClose(WaitingOnes(c.channels))).0.(state := Closing)
  }

  /** The deferred close, wherever it is tried again. */
  function CloseIfDue(c: Connection): Connection {
    if c.closed && c.state == Connected && WaitingOnes(c.channels) == {} then SendClose(c) else c
  }

  /* ----- channels ----- */

  /** A new channel sends its opening frame. When that is refused the channel stays behind, unusable. */
  function OpenChannel(c: Connection, id: nat): Connection {
    var r := Send(c, OfChannel(id, true, OPEN_SIZE));
    r.0.(channels := c.channels[id := Channel(r.1, r.1, [])])
  }

  function ChannelSend(c: Connection, id: nat, synchronous: bool, size: nat): Connection {
    if id !in c.channels || !c.channels[id].usable then c
    else
      var ch, f := c.channels[id], OfChannel(id, synchronous, size);
      if ch.Waiting() then c.(channels := c.channels[id := ch.(queue := ch.queue + [f])])
      else
        var r := Send(c, f);
        if r.1 then r.0.(channels := c.channels[id := ch.(synchronous := synchronous)]) else c
  }

  /** Closing a channel: the frame waits behind others, or the connection that is closing itself refuses it. */
  function CloseChannel(id: nat, ch: Channel): Channel {
    if ch.usable && ch.Waiting() then ch.(usable := false, queue := ch.queue + [OfChannel(id, true, CLOSE_SIZE)])
    else ch
  }

  function FlushChannel(c: Connection, id: nat, ch: Channel): (r: (Connection, Channel))
    ensures r.0 == c.(wire := r.0.wire, queue := r.0.queue)
    decreases |ch.queue|
  {
    if ch.synchronous || ch.queue == [] then (c, ch)
    else
      var r := SendBuffer(c, ch.queue[0]);
      if !r.1 then (r.0, ch.(queue := ch.queue[1..]))
      else FlushChannel(r.0, id,
                        ch.(queue := ch.queue[1..], synchronous := ch.queue[0].OfChannel? && ch.queue[0].synchronous))
  }

  /** A channel's synchronous frame was answered. */
  function ChannelReply(c: Connection, id: nat): Connection {
    if id !in c.channels then c
    else
      var r := FlushChannel(c, id, c.channels[id].(synchronous := false));
      r.0.(channels := c.channels[id := r.1])
  }

  /* ----- closing and opening ----- */

  function CloseChannels(channels: map<nat, Channel>): map<nat, Channel> {
    map id | id in channels :: CloseChannel(id, channels[id])
  }

  function Close(c: Connection): Connection {
    if c.closed || c.state == Closed then c
    else CloseIfDue(c.(closed := true, channels := CloseChannels(c.channels)))
  }

  /** What user space does, on its own or from a callback. */
  datatype Request = Opens(id: nat) | Sends(id: nat, synchronous: bool, size: nat) | Beats | Closes

  function Ask(c: Connection, r: Request): Connection {
    match r
    case Opens(id) => if id in c.channels then c else OpenChannel(c, id)
    case Sends(id, synchronous, size) => ChannelSend(c, id, synchronous, size)
    case Beats => Send(c, OfChannel(0, false, HEARTBEAT_SIZE)).0
    case Closes => Close(c)
  }

  function AskAll(c: Connection, rs: seq<Request>): Connection
    decreases |rs|
  {
    if rs == [] then c else AskAll(Ask(c, rs[0]), rs[1..])
  }

  /** `setReady`: the state changes whatever it was, then the callback runs, then the queue is sent. */
  function SetReady(c: Connection, onReady: seq<Request>): Connection {
    var d := AskAll(c.(state := Connected), onReady);
    CloseIfDue(d.(wire := d.wire + d.queue, queue := []))
  }

  /* ----- runs ----- */

  datatype Event =
    | User(request: Request)
    | Start
    | Tune(maxFrame: nat)
    | OpenOk(onReady: seq<Request>)
    | Answered(channel: nat)
    | Gone(channel: nat)
    | BrokerClosesChannel(channel: nat)
    | CloseOk
    | BrokerClose
    | EndOfBuffer
    | Lost

  function Step(c: Connection, e: Event): Connection {
    match e
    case User(r) => Ask(c, r)
    case Start => Send(if c.state == Protocol then c.(state := Handshake) else c, Handshaking).0
    case Tune(n) => Send(Send(c.(maxFrame := n), Handshaking).0, Handshaking).0
    case OpenOk(onReady) => SetReady(c, onReady)
    case Answered(id) => ChannelReply(c, id)
    case Gone(id) => c.(channels := c.channels - {id})
    case BrokerClosesChannel(id) => Send(c, OfChannel(id, false, CLOSE_OK_SIZE)).0.(channels := c.channels - {id})
    case CloseOk => c.(state := Closed)
    case BrokerClose => Send(c, OfChannel(0, false, CLOSE_OK_SIZE)).0.(channels := map[])
    case EndOfBuffer => CloseIfDue(c)
    case Lost => c.(state := Closed, channels := map[])
  }

  function Run(c: Connection, events: seq<Event>): Connection
    decreases |events|
  {
    if events == [] then c else Run(Step(c, events[0]), events[1..])
  }

  /** The broker confirms the opening of a connection only before that is closing or closed. */
  ghost predicate Orderly(c: Connection, events: seq<Event>)
    decreases |events|
  {
    events == []
    || ((events[0].OpenOk? ==> c.state != Closing && c.state != Closed) && Orderly(Step(c, events[0]), events[1..]))
  }

  /* ----- the invariant ----- */

  ghost predicate NoClose(fs: seq<Frame>) {
    forall i :: 0 <= i < |fs| ==> !fs[i].ConnectionClose?
  }

  /** The frames end with the close, sent while no channel waited, and have no other. */
  ghost predicate EndsWithClose(fs: seq<Frame>) {
    fs != [] && NoClose(fs[..|fs| - 1]) && fs[|fs| - 1] == ConnectionClose({})
  }

  ghost predicate ChannelFrames(channels: map<nat, Channel>) {
    forall id :: id in channels ==> NoClose(channels[id].queue)
  }

  predicate Over(c: Connection) {
    c.state == Closing || c.state == Closed
  }

  /** While the connection is usable no close has been handed over, and afterwards it is the last frame. */
  ghost predicate Proper(c: Connection) {
    && ChannelFrames(c.channels)
    && (!Over(c) ==> NoClose(c.wire) && NoClose(c.queue))
    && (c.state == Closing ==> c.closed && EndsWithClose(c.wire + c.queue) && WaitingOnes(c.channels) == {})
    && (c.state == Closed ==> NoClose(c.wire + c.queue) || EndsWithClose(c.wire + c.queue))
  }

  /** Between events nothing is left in the queue of a connection that is past its handshake. */
  ghost predicate Settled(c: Connection) {
    Proper(c) && (c.state == Connected || c.state == Closing ==> c.queue == [])
  }

  lemma {:induction false} NoCloseSnoc(fs: seq<Frame>, f: Frame)
    requires NoClose(fs) && !f.ConnectionClose?
    ensures NoClose(fs + [f])
  {
  }

  lemma {:induction false} SendKeeps(c: Connection, f: Frame)
    requires Settled(c) || Proper(c)
    requires !f.ConnectionClose?
    ensures Proper(Send(c, f).0)
    ensures Settled(c) ==> Settled(Send(c, f).0)
  {
    hide WaitingOnes, ChannelFrames, EndsWithClose, NoClose;
    if !Over(c) {
      NoCloseSnoc(c.wire, f);
      NoCloseSnoc(c.queue, f);
    }
  }

  lemma {:induction false} ChannelsChange(c: Connection, id: nat, ch: Channel)
    requires Proper(c) && NoClose(ch.queue) && (c.state == Closing ==> !ch.Waiting())
    ensures Proper(c.(channels := c.channels[id := ch]))
    ensures Settled(c) ==> Settled(c.(channels := c.channels[id := ch]))
  {
    hide EndsWithClose, NoClose;
  }

  lemma {:induction false} CloseIfDueKeeps(c: Connection)
    requires Proper(c)
    ensures Proper(CloseIfDue(c))
    ensures Settled(c) ==> Settled(CloseIfDue(c))
    ensures var d := CloseIfDue(c); !(d.closed && d.state == Connected && WaitingOnes(d.channels) == {})
  {
    hide WaitingOnes, ChannelFrames;
    if c.closed && c.state == Connected && WaitingOnes(c.channels) == {} {
      var d := CloseIfDue(c);
      var all := c.wire + c.queue;
      assert d.wire + d.queue == all + [ConnectionClose({})];
      assert (all + [ConnectionClose({})])[..|all|] == all;
    }
  }

  lemma {:induction false} OpenChannelKeeps(c: Connection, id: nat)
    requires Proper(c)
    ensures Proper(OpenChannel(c, id))
    ensures Settled(c) ==> Settled(OpenChannel(c, id))
  {
    hide WaitingOnes, ChannelFrames, EndsWithClose, Proper;
    SendKeeps(c, OfChannel(id, true, OPEN_SIZE));
    var r := Send(c, OfChannel(id, true, OPEN_SIZE));
    ChannelsChange(r.0, id, Channel(r.1, r.1, []));
  }

  lemma {:induction false} ChannelQueue(c: Connection, id: nat)
    requires Proper(c) && id in c.channels
    ensures NoClose(c.channels[id].queue)
    ensures c.state == Closing ==> !c.channels[id].Waiting()
  {
    if c.channels[id].Waiting() { WaitingMember(c.channels, id); }
  }

  lemma {:induction false} WaitingMember(channels: map<nat, Channel>, id: nat)
    requires id in channels && channels[id].Waiting()
    ensures id in WaitingOnes(channels)
  {
  }

  lemma {:induction false} ChannelSendKeeps(c: Connection, id: nat, synchronous: bool, size: nat)
    requires Proper(c)
    ensures Proper(ChannelSend(c, id, synchronous, size))
    ensures Settled(c) ==> Settled(ChannelSend(c, id, synchronous, size))
  {
    hide WaitingOnes, ChannelFrames, EndsWithClose, Proper, NoClose;
    if id in c.channels {
      var ch, f := c.channels[id], OfChannel(id, synchronous, size);
      ChannelQueue(c, id);
      NoCloseSnoc(ch.queue, f);
      if ch.Waiting() {
        ChannelsChange(c, id, ch.(queue := ch.queue + [f]));
      } else {
        SendKeeps(c, f);
        var r := Send(c, f);
        if r.1 { ChannelsChange(r.0, id, ch.(synchronous := synchronous)); }
      }
    }
  }

  lemma {:induction false} FlushKeeps(c: Connection, id: nat, ch: Channel)
    requires Proper(c) && NoClose(ch.queue) && (c.state == Closing ==> !ch.Waiting())
    ensures var r := FlushChannel(c, id, ch);
            && Proper(r.0) && (Settled(c) ==> Settled(r.0))
            && NoClose(r.1.queue) && (c.state == Closing ==> !r.1.Waiting())
    decreases |ch.queue|
  {
    hide WaitingOnes, ChannelFrames, EndsWithClose, Proper;
    if !ch.synchronous && ch.queue != [] {
      var f := ch.queue[0];
      assert !f.ConnectionClose?;
      SendBufferKeeps(c, f);
      var r := SendBuffer(c, f);
      if r.1 {
        FlushKeeps(r.0, id, ch.(queue := ch.queue[1..], synchronous := f.OfChannel? && f.synchronous));
      }
    }
  }

  lemma {:induction false} SendBufferKeeps(c: Connection, f: Frame)
    requires Proper(c) && !f.ConnectionClose?
    ensures Proper(SendBuffer(c, f).0)
    ensures Settled(c) ==> Settled(SendBuffer(c, f).0)
  {
    hide WaitingOnes, ChannelFrames, EndsWithClose, NoClose;
    if c.state == Connected {
      NoCloseSnoc(c.wire, f);
      NoCloseSnoc(c.queue, f);
    }
  }

  lemma {:induction false} ReplyKeeps(c: Connection, id: nat)
    requires Proper(c)
    ensures Proper(ChannelReply(c, id))
    ensures Settled(c) ==> Settled(ChannelReply(c, id))
  {
    hide WaitingOnes, ChannelFrames, EndsWithClose, Proper, FlushChannel;
    if id in c.channels {
      ChannelQueue(c, id);
      var ch := c.channels[id].(synchronous := false);
      FlushKeeps(c, id, ch);
      var r := FlushChannel(c, id, ch);
      ChannelsChange(r.0, id, r.1);
    }
  }

  lemma {:induction false} CloseKeeps(c: Connection)
    requires Proper(c)
    ensures Proper(Close(c))
    ensures Settled(c) ==> Settled(Close(c))
  {
    hide EndsWithClose, CloseIfDue;
    if !c.closed && c.state != Closed {
      var d := c.(closed := true, channels := CloseChannels(c.channels));
      forall id | id in d.channels ensures NoClose(d.channels[id].queue) {
        ChannelQueue(c, id);
      }
      CloseIfDueKeeps(d);
    }
  }

  lemma {:induction false} AskKeeps(c: Connection, r: Request)
    requires Proper(c)
    ensures Proper(Ask(c, r))
    ensures Settled(c) ==> Settled(Ask(c, r))
  {
    hide Proper, OpenChannel, ChannelSend, Close, Settled;
    match r
    case Opens(id) => OpenChannelKeeps(c, id);
    case Sends(id, synchronous, size) => ChannelSendKeeps(c, id, synchronous, size);
    case Beats => SendKeeps(c, OfChannel(0, false, HEARTBEAT_SIZE));
    case Closes => CloseKeeps(c);
  }

  lemma {:induction false} AskAllKeeps(c: Connection, rs: seq<Request>)
    requires Proper(c)
    ensures Proper(AskAll(c, rs))
    decreases |rs|
  {
    hide Proper, Ask;
    if rs != [] {
      AskKeeps(c, rs[0]);
      AskAllKeeps(Ask(c, rs[0]), rs[1..]);
    }
  }

  lemma {:induction false} SetReadyKeeps(c: Connection, onReady: seq<Request>)
    requires Proper(c) && !Over(c)
    ensures Settled(SetReady(c, onReady))
  {
    hide AskAll, CloseIfDue, EndsWithClose, WaitingOnes, ChannelFrames;
    AskAllKeeps(c.(state := Connected), onReady);
    var d := AskAll(c.(state := Connected), onReady);
    assert (d.wire + d.queue) + [] == d.wire + d.queue;
    CloseIfDueKeeps(d.(wire := d.wire + d.queue, queue := []));
  }

  lemma {:induction false} StepKeeps(c: Connection, e: Event)
    requires Settled(c) && (e.OpenOk? ==> !Over(c))
    ensures Settled(Step(c, e))
  {
    hide Ask, SetReady, ChannelReply, CloseIfDue, Send, EndsWithClose;
    match e
    case User(r) => AskKeeps(c, r);
    case Start => SendKeeps(if c.state == Protocol then c.(state := Handshake) else c, Handshaking);
    case Tune(n) =>
      SendKeeps(c.(maxFrame := n), Handshaking);
      SendKeeps(Send(c.(maxFrame := n), Handshaking).0, Handshaking);
    case OpenOk(onReady) => SetReadyKeeps(c, onReady);
    case Answered(id) => ReplyKeeps(c, id);
    case BrokerClosesChannel(id) => SendKeeps(c, OfChannel(id, false, CLOSE_OK_SIZE));
    case BrokerClose => SendKeeps(c, OfChannel(0, false, CLOSE_OK_SIZE));
    case EndOfBuffer => CloseIfDueKeeps(c);
    case Gone(_) =>
    case CloseOk => JoinNoClose(c.wire, c.queue);
    case Lost => JoinNoClose(c.wire, c.queue);
  }

  lemma {:induction false} JoinNoClose(a: seq<Frame>, b: seq<Frame>)
    ensures NoClose(a) && NoClose(b) ==> NoClose(a + b)
  {
  }

  lemma {:induction false} RunKeeps(c: Connection, events: seq<Event>)
    requires Settled(c) && Orderly(c, events)
    ensures Settled(Run(c, events))
    decreases |events|
  {
    hide Settled, Step;
    if events != [] {
      StepKeeps(c, events[0]);
      RunKeeps(Step(c, events[0]), events[1..]);
    }
  }

  lemma {:induction false} FreshIsSettled()
    ensures Settled(FRESH)
  {
  }

  /**
   In every run, whenever `close` is called: a close on the wire is the last frame, with nothing queued
   behind it, so it is the only one; and no channel was waiting when it was handed over.
   */
  lemma {:induction false} CloseIsLast(events: seq<Event>, i: nat)
    requires Orderly(FRESH, events)
    requires var c := Run(FRESH, events); i < |c.wire| && c.wire[i].ConnectionClose?
    ensures var c := Run(FRESH, events); i == |c.wire| - 1 && c.queue == [] && c.wire[i].waiting == {} && Over(c)
  {
    hide Run, Orderly, ChannelFrames, WaitingOnes;
    FreshIsSettled();
    RunKeeps(FRESH, events);
    var c := Run(FRESH, events);
    var all := c.wire + c.queue;
    assert all[i] == c.wire[i];
    if i < |all| - 1 { EarlierIsNoClose(all, i); }
  }

  lemma {:induction false} EarlierIsNoClose(fs: seq<Frame>, i: nat)
    requires i < |fs| - 1 && (NoClose(fs) || EndsWithClose(fs))
    ensures !fs[i].ConnectionClose?
  {
    assert fs[..|fs| - 1][i] == fs[i];
  }

  /** The deferred close could go out. */
  ghost predicate Due(c: Connection) {
    c.closed && c.state == Connected && WaitingOnes(c.channels) == {}
  }

  /** What may free a channel from waiting, or take it away: answers that a call to `parse` handles. */
  predicate FreesChannels(e: Event) {
    e.Answered? || e.Gone? || e.BrokerClosesChannel? || e.BrokerClose?
  }

  lemma {:induction false} AskIsNotDue(c: Connection, r: Request)
    requires !Due(c)
    ensures !Due(Ask(c, r))
  {
    hide WaitingOnes, CloseChannels;
    match r
    case Opens(id) => if id !in c.channels { OpenedWaits(c.channels, id); }
    case Sends(id, synchronous, size) =>
      if id in c.channels && c.channels[id].Waiting() {
        SendingWaits(c.channels, id, synchronous, OfChannel(id, synchronous, size));
      }
    case _ =>
  }

  lemma {:induction false} OpenedWaits(channels: map<nat, Channel>, id: nat)
    requires id !in channels
    ensures WaitingOnes(channels[id := Channel(false, false, [])]) == WaitingOnes(channels)
  {
  }

  lemma {:induction false} SendingWaits(channels: map<nat, Channel>, id: nat, synchronous: bool, f: Frame)
    requires id in channels && channels[id].Waiting()
    ensures WaitingOnes(channels[id := channels[id].(queue := channels[id].queue + [f])]) == WaitingOnes(channels)
  {
  }

  lemma {:induction false} StepIsNotDue(c: Connection, e: Event)
    requires !Due(c) && !FreesChannels(e)
    ensures !Due(Step(c, e))
  {
    hide WaitingOnes, Ask, AskAll;
    match e
    case User(r) => AskIsNotDue(c, r);
    case _ =>
  }

  lemma {:induction false} RunIsNotDue(c: Connection, events: seq<Event>)
    requires !Due(c) && forall e :: e in events ==> !FreesChannels(e)
    ensures !Due(Run(c, events))
    decreases |events|
  {
    hide Due, Step;
    if events != [] {
      assert events[0] in events;
      StepIsNotDue(c, events[0]);
      RunIsNotDue(Step(c, events[0]), events[1..]);
    }
  }

  lemma {:induction false} RunAppends(c: Connection, a: seq<Event>, b: seq<Event>)
    ensures Run(c, a + b) == Run(Run(c, a), b)
    decreases |a|
  {
    hide Step;
    if a == [] {
      assert a + b == b;
    } else {
      assert (a + b)[1..] == a[1..] + b && (a + b)[0] == a[0];
      RunAppends(Step(c, a[0]), a[1..], b);
    }
  }

  /**
   The close is not forgotten: after any run whose answers from the broker are followed by the end of
   their call to `parse`, a connection that was told to close is still open only while a channel waits.
   */
  lemma {:induction false} CloseIsSentWhenDue(before: seq<Event>, after: seq<Event>)
    requires forall e :: e in after ==> !FreesChannels(e)
    ensures var c := Run(FRESH, before + [EndOfBuffer] + after);
            c.closed && c.state == Connected ==> exists id :: id in c.channels && c.channels[id].Waiting()
  {
    hide Run, WaitingOnes;
    var ended := before + [EndOfBuffer];
    RunAppends(FRESH, before, [EndOfBuffer]);
    RunOne(Run(FRESH, before), EndOfBuffer);
    RunAppends(FRESH, ended, after);
    RunIsNotDue(Run(FRESH, ended), after);
    SomeoneWaits(Run(FRESH, ended + after).channels);
  }

  /** In every run the end of a call to `parse` sends the close, and nothing else, exactly if it is due. */
  lemma {:induction false} EndOfBufferSendsIff(events: seq<Event>)
    requires Orderly(FRESH, events)
    ensures var c := Run(FRESH, events);
            var d := Step(c, EndOfBuffer);
            if c.closed && c.state == Connected && (forall id :: id in c.channels ==> !c.channels[id].Waiting()) then
              d.wire == c.wire + [ConnectionClose({})] && d.state == Closing
            else d == c
  {
    hide Run, Orderly, ChannelFrames, WaitingOnes, EndsWithClose, NoClose;
    FreshIsSettled();
    RunKeeps(FRESH, events);
    SomeoneWaits(Run(FRESH, events).channels);
    NooneWaits(Run(FRESH, events).channels);
  }

  lemma {:induction false} NooneWaits(channels: map<nat, Channel>)
    ensures WaitingOnes(channels) == {} ==> forall id :: id in channels ==> !channels[id].Waiting()
  {
    forall id | id in channels && channels[id].Waiting() ensures WaitingOnes(channels) != {} {
      WaitingMember(channels, id);
    }
  }

  lemma {:induction false} RunOne(c: Connection, e: Event)
    ensures Run(c, [e]) == Step(c, e)
  {
    hide Step;
    assert Run(Step(c, e), []) == Step(c, e);
  }

  lemma {:induction false} SomeoneWaits(channels: map<nat, Channel>)
    ensures WaitingOnes(channels) != {} ==> exists id :: id in channels && channels[id].Waiting()
  {
    if WaitingOnes(channels) != {} {
      var id :| id in WaitingOnes(channels);
      assert id in channels && channels[id].Waiting();
    }
  }

  /** Closing the connection closes the channels that wait; the close of an idle one is refused, and it stays usable. */
  lemma {:induction false} IdleChannelsStay(c: Connection, id: nat)
    requires !c.closed && c.state != Closed && id in c.channels && c.channels[id].usable
    ensures var d := Close(c);
            && id in d.channels
            && (d.channels[id].usable <==> !c.channels[id].Waiting())
            && (!c.channels[id].Waiting() ==> d.channels[id] == c.channels[id])
  {
    hide WaitingOnes;
  }

  /* ----- a second confirmation of the opening ----- */

  lemma {:induction false} AskChangesNothing(c: Connection, rs: seq<Request>)
    requires c.closed && c.queue == [] && WaitingOnes(c.channels) == {}
    ensures var d := AskAll(c, rs); d == c.(channels := d.channels) && WaitingOnes(d.channels) == {}
    decreases |rs|
  {
    if rs != [] {
      AskOneChangesNothing(c, rs[0]);
      AskChangesNothing(Ask(c, rs[0]), rs[1..]);
    }
  }

  lemma {:induction false} AskOneChangesNothing(c: Connection, r: Request)
    requires c.closed && c.queue == [] && WaitingOnes(c.channels) == {}
    ensures var d := Ask(c, r); d == c.(channels := d.channels) && WaitingOnes(d.channels) == {}
  {
    var d := Ask(c, r);
    if r.Sends? && r.id in c.channels && c.channels[r.id].Waiting() { WaitingMember(c.channels, r.id); }
    if r.Opens? && r.id !in c.channels {
      assert d.channels == c.channels[r.id := Channel(false, false, [])];
      assert WaitingOnes(d.channels) == WaitingOnes(c.channels);
    }
  }

  /** The frames handed over or waiting for the handshake. */
  function Count(c: Connection): nat {
    |c.wire| + |c.queue|
  }

  /** Requests take nothing back, and what ends the use of a connection is a frame. */
  lemma {:induction false} AskCounts(c: Connection, rs: seq<Request>)
    ensures var d := AskAll(c, rs); Count(d) >= Count(c) && (!Over(c) && Over(d) ==> Count(d) > Count(c))
    decreases |rs|
  {
    if rs != [] {
      AskCounts(Ask(c, rs[0]), rs[1..]);
    }
  }

  lemma {:induction false} ReadyCounts(c: Connection, onReady: seq<Request>)
    ensures var d := SetReady(c, onReady); |d.wire| >= Count(c) && (Over(d) ==> |d.wire| > Count(c))
  {
    hide AskAll, WaitingOnes;
    AskCounts(c.(state := Connected), onReady);
  }

  /**
   Once the connection is closing or closed nothing more is sent and it stays so, exactly up to
   another confirmation of the opening. That puts the connection back into service, and while it
   was closing, the close on the wire a second time.
   */
  lemma {:induction false} NothingMoreIff(c: Connection, e: Event)
    requires Settled(c) && Over(c)
    ensures var d := Step(c, e); d.wire == c.wire && Over(d) <==> !e.OpenOk?
    ensures e.OpenOk? && c.state == Closing ==> Step(c, e).wire == c.wire + [ConnectionClose({})]
  {
    hide EndsWithClose, NoClose, ChannelReply, AskAll, SetReady;
    match e
    case OpenOk(onReady) =>
      ReadyCounts(c, onReady);
      if c.state == Closing { ReadyAgain(c, onReady); }
    case User(r) => OverAsks(c, r);
    case Answered(id) => OverReplies(c, id);
    case _ =>
  }

  lemma {:induction false} ReadyAgain(c: Connection, onReady: seq<Request>)
    requires Settled(c) && c.state == Closing
    ensures SetReady(c, onReady).wire == c.wire + [ConnectionClose({})]
  {
    hide EndsWithClose, NoClose, AskAll;
    AskChangesNothing(c.(state := Connected), onReady);
  }

  lemma {:induction false} OverAsks(c: Connection, r: Request)
    requires Over(c)
    ensures var d := Ask(c, r); d.wire == c.wire && Over(d)
  {
  }

  lemma {:induction false} OverReplies(c: Connection, id: nat)
    requires Over(c)
    ensures var d := ChannelReply(c, id); d.wire == c.wire && Over(d)
  {
  }

  /* ----- the order of the frames ----- */

  function Ordinary(fs: seq<Frame>): seq<Frame> {
    if fs == [] then []
    else
      var before, last := Ordinary(fs[..|fs| - 1]), fs[|fs| - 1];
      if last.Handshaking? then before else before + [last]
  }

  /** The frames accepted so far, outside the handshake, in the order in which they leave. */
  function Line(c: Connection): seq<Frame> {
    Ordinary(c.wire + c.queue)
  }

  lemma {:induction false} OrdinarySnoc(fs: seq<Frame>, f: Frame)
    ensures Ordinary(fs + [f]) == if f.Handshaking? then Ordinary(fs) else Ordinary(fs) + [f]
  {
    assert (fs + [f])[..|fs|] == fs;
  }

  lemma {:induction false} OrdinaryAppend(a: seq<Frame>, b: seq<Frame>)
    ensures Ordinary(a + b) == Ordinary(a) + Ordinary(b)
    decreases |b|
  {
    hide Ordinary;
    if b == [] {
      NothingOrdinary();
      assert a + b == a && Ordinary(a) + [] == Ordinary(a);
    } else {
      var n := |b| - 1;
      OrdinaryAppend(a, b[..n]);
      assert a + b == (a + b[..n]) + [b[n]] && b == b[..n] + [b[n]];
      OrdinarySnoc(a + b[..n], b[n]);
      OrdinarySnoc(b[..n], b[n]);
      assert Ordinary(a) + Ordinary(b[..n]) + [b[n]] == Ordinary(a) + (Ordinary(b[..n]) + [b[n]]);
    }
  }

  lemma {:induction false} NothingOrdinary()
    ensures Ordinary([]) == []
  {
  }

  /** A frame that is accepted goes to the end of the line; the handshake passes it by. */
  lemma {:induction false} SendQueuesUp(c: Connection, f: Frame)
    ensures var r := Send(c, f); Line(r.0) == if r.1 && !f.Handshaking? then Line(c) + [f] else Line(c)
  {
    hide Ordinary;
    OrdinaryAppend(c.wire, c.queue);
    OrdinarySnoc(c.wire, f);
    OrdinaryAppend(c.wire + [f], c.queue);
    OrdinarySnoc(c.wire + c.queue, f);
    assert c.wire + (c.queue + [f]) == (c.wire + c.queue) + [f];
    assert c.queue == [] ==> c.wire + [f] + c.queue == (c.wire + c.queue) + [f];
  }

  lemma {:induction false} SendBufferQueuesUp(c: Connection, f: Frame)
    requires !f.Handshaking?
    ensures var r := SendBuffer(c, f); Line(r.0) == if r.1 then Line(c) + [f] else Line(c)
  {
    hide Ordinary;
    OrdinarySnoc(c.wire + c.queue, f);
    assert c.wire + (c.queue + [f]) == (c.wire + c.queue) + [f];
    assert c.queue == [] ==> c.wire + [f] + c.queue == (c.wire + c.queue) + [f];
  }

  ghost predicate NoHandshake(channels: map<nat, Channel>) {
    forall id :: id in channels ==> AllOfChannel(channels[id].queue)
  }

  ghost predicate AllOfChannel(fs: seq<Frame>) {
    forall i :: 0 <= i < |fs| ==> fs[i].OfChannel?
  }

  lemma {:induction false} FlushQueuesUp(c: Connection, id: nat, ch: Channel)
    requires AllOfChannel(ch.queue)
    ensures var r := FlushChannel(c, id, ch); Line(c) <= Line(r.0) && AllOfChannel(r.1.queue)
    decreases |ch.queue|
  {
    hide Line, SendBuffer;
    if !ch.synchronous && ch.queue != [] {
      var f := ch.queue[0];
      SendBufferQueuesUp(c, f);
      var r := SendBuffer(c, f);
      if r.1 {
        FlushQueuesUp(r.0, id, ch.(queue := ch.queue[1..], synchronous := f.OfChannel? && f.synchronous));
      }
    }
  }

  lemma {:induction false} CloseIfDueQueuesUp(c: Connection)
    ensures Line(c) <= Line(CloseIfDue(c)) && CloseIfDue(c).channels == c.channels
  {
    hide Ordinary, WaitingOnes;
    SendQueuesUp(c, ConnectionClose(WaitingOnes(c.channels)));
  }

  lemma {:induction false} AskQueuesUp(c: Connection, r: Request)
    requires NoHandshake(c.channels)
    ensures Line(c) <= Line(Ask(c, r)) && NoHandshake(Ask(c, r).channels)
  {
    hide Ordinary, WaitingOnes, CloseIfDue;
    match r
    case Opens(id) => SendQueuesUp(c, OfChannel(id, true, OPEN_SIZE));
    case Sends(id, synchronous, size) => SendQueuesUp(c, OfChannel(id, synchronous, size));
    case Beats => SendQueuesUp(c, OfChannel(0, false, HEARTBEAT_SIZE));
    case Closes => CloseIfDueQueuesUp(c.(closed := true, channels := CloseChannels(c.channels)));
  }

  lemma {:induction false} AskAllQueuesUp(c: Connection, rs: seq<Request>)
    requires NoHandshake(c.channels)
    ensures Line(c) <= Line(AskAll(c, rs)) && NoHandshake(AskAll(c, rs).channels)
    decreases |rs|
  {
    hide Line, NoHandshake, Ask;
    if rs != [] {
      AskQueuesUp(c, rs[0]);
      AskAllQueuesUp(Ask(c, rs[0]), rs[1..]);
    }
  }

  lemma {:induction false} StepQueuesUp(c: Connection, e: Event)
    requires NoHandshake(c.channels)
    ensures Line(c) <= Line(Step(c, e)) && NoHandshake(Step(c, e).channels)
  {
    hide Ordinary, WaitingOnes, CloseIfDue, AskAll, Ask, FlushChannel, Send;
    match e
    case User(r) => AskQueuesUp(c, r);
    case Start => SendQueuesUp(if c.state == Protocol then c.(state := Handshake) else c, Handshaking);
    case Tune(n) =>
      SendQueuesUp(c.(maxFrame := n), Handshaking);
      SendQueuesUp(Send(c.(maxFrame := n), Handshaking).0, Handshaking);
    case OpenOk(onReady) =>
      AskAllQueuesUp(c.(state := Connected), onReady);
      var d := AskAll(c.(state := Connected), onReady);
      assert (d.wire + d.queue) + [] == d.wire + d.queue;
      CloseIfDueQueuesUp(d.(wire := d.wire + d.queue, queue := []));
    case Answered(id) =>
      if id in c.channels { FlushQueuesUp(c, id, c.channels[id].(synchronous := false)); }
    case BrokerClosesChannel(id) => SendQueuesUp(c, OfChannel(id, false, CLOSE_OK_SIZE));
    case BrokerClose => SendQueuesUp(c, OfChannel(0, false, CLOSE_OK_SIZE));
    case EndOfBuffer => CloseIfDueQueuesUp(c);
    case _ =>
  }

  /** In every run, orderly or not, frames leave in the order in which they were accepted, and none gets lost. */
  lemma {:induction false} FramesKeepTheirOrder(c: Connection, events: seq<Event>)
    requires NoHandshake(c.channels)
    ensures Line(c) <= Line(Run(c, events))
    decreases |events|
  {
    hide Line, NoHandshake, Step;
    if events != [] {
      StepQueuesUp(c, events[0]);
      FramesKeepTheirOrder(Step(c, events[0]), events[1..]);
    }
  }

  /* ----- what the broker ends ----- */

  /** Channels that are gone, and the answers to closes of the broker, which wait their turn. */
  lemma {:induction false} BrokerEnds(c: Connection, id: nat)
    ensures Step(c, Gone(id)) == c.(channels := c.channels - {id})
    ensures Step(c, CloseOk) == c.(state := Closed) && Step(c, Lost) == c.(state := Closed, channels := map[])
    ensures Step(c, BrokerClosesChannel(id)).channels == c.channels - {id} && Step(c, BrokerClose).channels == map[]
    ensures !Over(c) && !c.closed && (c.maxFrame == 0 || c.maxFrame >= 12) ==>
              && Line(Step(c, BrokerClosesChannel(id))) == Line(c) + [OfChannel(id, false, 12)]
              && Line(Step(c, BrokerClose)) == Line(c) + [OfChannel(0, false, 12)]
  {
    hide Ordinary;
    SendQueuesUp(c, OfChannel(id, false, 12));
    SendQueuesUp(c, OfChannel(0, false, 12));
  }
}
