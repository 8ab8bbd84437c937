/**
 What is asked of the channels of a connection and what goes out: the frames of a channel, on the wire, in
 the queue of the handshake and in the queue of the channel itself, are those it was asked for, in call order.
 */
module ChannelStreams {
  import opened Closing

  /* ----- what is accepted ----- */

  /** Which frames are accepted, and where they go. */
  lemma {:induction false} SendAcceptsIff(c: Connection, f: Frame)
    ensures Send(c, f).1 <==>
            && c.state in {Protocol, Handshake, Connected}
            && (f.OfChannel? ==> !c.closed && (c.maxFrame == 0 || f.size <= c.maxFrame))
    ensures Send(c, f).1 ==>
              Send(c, f).0 == if f.Handshaking? || (c.state == Connected && c.queue == []) then c.(wire := c.wire + [f])
                              else c.(queue := c.queue + [f])
    ensures !Send(c, f).1 ==> Send(c, f).0 == c
  {
  }

  /** What a channel had queued is accepted by every connected connection, and goes behind what is queued there. */
  lemma {:induction false} SendBufferAcceptsIff(c: Connection, f: Frame)
    ensures SendBuffer(c, f).1 <==> c.state == Connected
    ensures SendBuffer(c, f).1 ==>
              SendBuffer(c, f).0 == if c.queue == [] then c.(wire := c.wire + [f]) else c.(queue := c.queue + [f])
    ensures !SendBuffer(c, f).1 ==> SendBuffer(c, f).0 == c
  {
  }

  /** The answers of the handshake go out at once, and Tune sets the maximum. */
  lemma {:induction false} HandshakeGoesOut(c: Connection, n: nat)
    requires !Over(c)
    ensures Step(c, Start).wire == c.wire + [Handshaking]
    ensures Step(c, Start).state == if c.state == Protocol then Handshake else c.state
    ensures Step(c, Tune(n)).wire == c.wire + [Handshaking, Handshaking] && Step(c, Tune(n)).maxFrame == n
    ensures Step(c, OpenOk([])).queue == [] && c.wire + c.queue <= Step(c, OpenOk([])).wire
  {
    assert (c.wire + [Handshaking]) + [Handshaking] == c.wire + [Handshaking, Handshaking];
  }

  /** A close of the connection ends every channel that waits, with its own close behind what it had queued. */
  lemma {:induction false} WaitingChannelsClose(c: Connection, id: nat)
    requires !c.closed && c.state != Closed && id in c.channels && c.channels[id].usable && c.channels[id].Waiting()
    ensures var d := Close(c);
            && id in d.channels && !d.channels[id].usable
            && d.channels[id].queue == c.channels[id].queue + [OfChannel(id, true, CLOSE_SIZE)]
            && d.channels[id].synchronous == c.channels[id].synchronous
  {
    hide WaitingOnes;
  }

  /* ----- the stream of a channel ----- */

  function OfId(fs: seq<Frame>, id: nat): seq<Frame> {
    if fs == [] then []
    else
      var before, last := OfId(fs[..|fs| - 1], id), fs[|fs| - 1];
      if last.OfChannel? && last.channel == id then before + [last] else before
  }

  lemma {:induction false} OfIdSnoc(fs: seq<Frame>, f: Frame, id: nat)
    ensures OfId(fs + [f], id) == if f.OfChannel? && f.channel == id then OfId(fs, id) + [f] else OfId(fs, id)
  {
    assert (fs + [f])[..|fs|] == fs;
  }

  /** What a channel has sent, and what it will send when it is answered. */
  function Stream(c: Connection, id: nat): seq<Frame> {
    OfId(Line(c), id) + if id in c.channels then c.channels[id].queue else []
  }

  ghost predicate Own(fs: seq<Frame>, id: nat) {
    forall i :: 0 <= i < |fs| ==> fs[i].OfChannel? && fs[i].channel == id
  }

  /** A connection that nobody has closed, with usable channels. */
  ghost predicate Lively(c: Connection) {
    && !c.closed && !Over(c)
    && forall id :: id in c.channels ==> c.channels[id].usable && Own(c.channels[id].queue, id)
  }

  predicate Fits(c: Connection, size: nat) {
    c.maxFrame == 0 || size <= c.maxFrame
  }

  /** No close, and frames within the maximum. */
  predicate Modest(c: Connection, r: Request) {
    match r
    case Opens(_) => Fits(c, OPEN_SIZE)
    case Sends(_, _, size) => Fits(c, size)
    case Beats => Fits(c, HEARTBEAT_SIZE)
    case Closes => false
  }

  /** The frame that a request puts on a channel; `known` tells whether the channel is there. */
  function Wanted(known: bool, r: Request, id: nat): seq<Frame> {
    match r
    case Opens(i) => if i == id && !known then [OfChannel(id, true, 13)] else []
    case Sends(i, synchronous, size) => if i == id && known then [OfChannel(id, synchronous, size)] else []
    case _ => []
  }

  function WantedAll(known: bool, rs: seq<Request>, id: nat): seq<Frame>
    decreases |rs|
  {
    if rs == [] then [] else Wanted(known, rs[0], id) + WantedAll(known || rs[0] == Opens(id), rs[1..], id)
  }

  /** What a request does to a lively connection. */
  ghost predicate Serves(c: Connection, r: Request, d: Connection, id: nat) {
    && Lively(d) && d.state == c.state && d.maxFrame == c.maxFrame
    && (id in d.channels <==> id in c.channels || r == Opens(id))
    && Stream(d, id) == Stream(c, id) + Wanted(id in c.channels, r, id)
  }

  lemma {:induction false} SendStream(c: Connection, f: Frame, channels: map<nat, Channel>, id: nat)
    requires !c.closed && !Over(c) && f.OfChannel? && Fits(c, f.size)
    ensures var d := Send(c, f).0.(channels := channels);
            && Send(c, f).1 && d.state == c.state && d.maxFrame == c.maxFrame && !d.closed
            && OfId(Line(d), id) == if f.channel == id then OfId(Line(c), id) + [f] else OfId(Line(c), id)
  {
    hide OfId, Line;
    SendAcceptsIff(c, f);
    SendQueuesUp(c, f);
    OfIdSnoc(Line(c), f, id);
    ChannelsDoNotMatter(Send(c, f).0, channels);
  }

  lemma {:induction false} OpensStream(c: Connection, i: nat, id: nat)
    requires Lively(c) && Modest(c, Opens(i)) && id > 0
    ensures Serves(c, Opens(i), Ask(c, Opens(i)), id)
  {
    hide Line, OfId, Send;
    if i !in c.channels {
      SendStream(c, OfChannel(i, true, OPEN_SIZE), c.channels[i := Channel(true, true, [])], id);
    }
  }

  lemma {:induction false} SendsStream(c: Connection, i: nat, synchronous: bool, size: nat, id: nat)
    requires Lively(c) && Modest(c, Sends(i, synchronous, size)) && id > 0
    ensures Serves(c, Sends(i, synchronous, size), Ask(c, Sends(i, synchronous, size)), id)
  {
    hide Line, OfId, Send;
    if i in c.channels {
      var ch, f := c.channels[i], OfChannel(i, synchronous, size);
      if ch.Waiting() {
        ChannelsDoNotMatter(c, c.channels[i := ch.(queue := ch.queue + [f])]);
        assert OfId(Line(c), id) + (ch.queue + [f]) == (OfId(Line(c), id) + ch.queue) + [f];
      } else {
        SendStream(c, f, c.channels[i := ch.(synchronous := synchronous)], id);
        assert OfId(Line(c), id) + [] == OfId(Line(c), id);
      }
    }
  }

  lemma {:induction false} AskStream(c: Connection, r: Request, id: nat)
    requires Lively(c) && Modest(c, r) && id > 0
    ensures Serves(c, r, Ask(c, r), id)
  {
    hide Line, OfId, Send, Ask, Lively, Serves;
    match r
    case Opens(i) => OpensStream(c, i, id);
    case Sends(i, synchronous, size) => SendsStream(c, i, synchronous, size, id);
    case Beats => BeatsStream(c, id);
  }

  lemma {:induction false} BeatsStream(c: Connection, id: nat)
    requires Lively(c) && Modest(c, Beats) && id > 0
    ensures Serves(c, Beats, Ask(c, Beats), id)
  {
    hide Line, OfId, Send;
    SendStream(c, OfChannel(0, false, HEARTBEAT_SIZE), c.channels, id);
    SendStays(c, OfChannel(0, false, HEARTBEAT_SIZE));
  }

  lemma {:induction false} SendStays(c: Connection, f: Frame)
    ensures Send(c, f).0.(channels := c.channels) == Send(c, f).0
  {
  }

  lemma {:induction false} ChannelsDoNotMatter(c: Connection, channels: map<nat, Channel>)
    ensures Line(c.(channels := channels)) == Line(c)
  {
  }

  predicate AllModest(c: Connection, rs: seq<Request>) {
    forall i :: 0 <= i < |rs| ==> Modest(c, rs[i])
  }

  lemma {:induction false} AskAllStream(c: Connection, rs: seq<Request>, id: nat)
    requires Lively(c) && AllModest(c, rs) && id > 0
    ensures var d := AskAll(c, rs);
            && Lively(d) && d.state == c.state && d.maxFrame == c.maxFrame
            && (id in d.channels <==> id in c.channels || Opens(id) in rs)
            && Stream(d, id) == Stream(c, id) + WantedAll(id in c.channels, rs, id)
    decreases |rs|
  {
    hide Lively, Stream, Ask, Modest, Wanted;
    if rs == [] {
      assert Stream(c, id) + [] == Stream(c, id);
    } else {
      AskStream(c, rs[0], id);
      var d := Ask(c, rs[0]);
      ModestStays(c, d, rs);
      AskAllStream(d, rs[1..], id);
      assert rs == [rs[0]] + rs[1..];
    }
  }

  lemma {:induction false} ModestStays(c: Connection, d: Connection, rs: seq<Request>)
    requires AllModest(c, rs) && d.maxFrame == c.maxFrame && rs != []
    ensures AllModest(d, rs[1..])
  {
    forall i | 0 <= i < |rs[1..]| ensures Modest(d, rs[1..][i]) {
      assert Modest(c, rs[i + 1]);
    }
  }

  /** A channel frame waits behind others or an answer, or goes to the connection and may await an answer itself. */
  lemma {:induction false} ChannelSendDoes(c: Connection, id: nat, synchronous: bool, size: nat)
    requires id in c.channels
    ensures var d, ch, f := Ask(c, Sends(id, synchronous, size)), c.channels[id], OfChannel(id, synchronous, size);
            if !ch.usable then d == c
            else if ch.Waiting() then d == c.(channels := c.channels[id := ch.(queue := ch.queue + [f])])
            else if c.state in {Protocol, Handshake, Connected} && !c.closed && Fits(c, size) then
              && d.channels == c.channels[id := ch.(synchronous := synchronous)] && Line(d) == Line(c) + [f]
            else d == c
  {
    hide Line, Send;
    var f := OfChannel(id, synchronous, size);
    SendAcceptsIff(c, f);
    SendQueuesUp(c, f);
    ChannelsDoNotMatter(Send(c, f).0, c.channels[id := c.channels[id].(synchronous := synchronous)]);
  }

  /* ----- answers ----- */

  /** How many frames of a queue go out before an answer is awaited. */
  function UpToAnswer(fs: seq<Frame>): (n: nat)
    ensures n <= |fs|
  {
    if fs == [] then 0 else if fs[0].OfChannel? && fs[0].synchronous then 1 else 1 + UpToAnswer(fs[1..])
  }

  ghost predicate Awaits(fs: seq<Frame>) {
    exists i :: 0 <= i < |fs| && fs[i].OfChannel? && fs[i].synchronous
  }

  /** The first of several queued frames goes out; if it awaits an answer it is the last one. */
  lemma {:induction false} FlushFirst(c: Connection, id: nat, ch: Channel)
    requires c.state == Connected && !ch.synchronous && ch.queue != [] && ch.queue[0].OfChannel?
    ensures var f, d := ch.queue[0], SendBuffer(c, ch.queue[0]).0;
            && d.state == Connected && Line(d) == Line(c) + [f]
            && FlushChannel(c, id, ch) == if f.synchronous then (d, ch.(queue := ch.queue[1..], synchronous := true))
                                          else FlushChannel(d, id, ch.(queue := ch.queue[1..]))
  {
    hide Line, SendBuffer;
    SendBufferAcceptsIff(c, ch.queue[0]);
    SendBufferQueuesUp(c, ch.queue[0]);
    var d, rest := SendBuffer(c, ch.queue[0]).0, ch.(queue := ch.queue[1..], synchronous := ch.queue[0].synchronous);
    if ch.queue[0].synchronous { assert FlushChannel(d, id, rest) == (d, rest); }
  }

  lemma {:induction false} UpToAnswerStep(f: Frame, rest: seq<Frame>)
    requires f.OfChannel?
    ensures UpToAnswer([f] + rest) == if f.synchronous then 1 else 1 + UpToAnswer(rest)
    ensures Awaits([f] + rest[..UpToAnswer(rest)]) == (f.synchronous || Awaits(rest[..UpToAnswer(rest)]))
    ensures f.synchronous ==> Awaits([f])
  {
    hide UpToAnswer;
    UnfoldUpTo(f, rest);
    if f.synchronous {
      assert ([f] + rest[..UpToAnswer(rest)])[0] == f && [f][0] == f;
    } else {
      AwaitsLater(f, rest[..UpToAnswer(rest)]);
    }
  }

  lemma {:induction false} UnfoldUpTo(f: Frame, rest: seq<Frame>)
    requires f.OfChannel?
    ensures UpToAnswer([f] + rest) == if f.synchronous then 1 else 1 + UpToAnswer(rest)
  {
    assert ([f] + rest)[1..] == rest;
  }

  lemma {:induction false} FlushSends(c: Connection, id: nat, ch: Channel)
    requires c.state == Connected && !ch.synchronous && AllOfChannel(ch.queue)
    ensures var r, n := FlushChannel(c, id, ch), UpToAnswer(ch.queue);
            && r.1 == ch.(queue := ch.queue[n..], synchronous := Awaits(ch.queue[..n]))
            && Line(r.0) == Line(c) + ch.queue[..n]
    decreases |ch.queue|
  {
    hide Line, SendBuffer, UpToAnswer, Awaits, FlushChannel;
    if ch.queue == [] {
      NothingSent(c, id, ch);
    } else {
      var f, rest, n := ch.queue[0], ch.queue[1..], UpToAnswer(ch.queue);
      FlushFirst(c, id, ch);
      assert ch.queue == [f] + rest;
      UpToAnswerStep(f, rest);
      if f.synchronous {
        assert ch.queue[..n] == [f] && ch.queue[n..] == rest;
      } else {
        FlushSends(SendBuffer(c, f).0, id, ch.(queue := rest));
        assert ch.queue[..n] == [f] + rest[..n - 1] && ch.queue[n..] == rest[n - 1..];
        assert (Line(c) + [f]) + rest[..n - 1] == Line(c) + ch.queue[..n];
      }
    }
  }

  lemma {:induction false} NothingSent(c: Connection, id: nat, ch: Channel)
    requires ch.queue == [] && !ch.synchronous
    ensures FlushChannel(c, id, ch) == (c, ch) && UpToAnswer([]) == 0 && !Awaits(ch.queue[..0])
    ensures Line(c) + ch.queue[..0] == Line(c)
  {
    hide Line;
  }

  lemma {:induction false} AwaitsLater(f: Frame, fs: seq<Frame>)
    requires f.OfChannel? && !f.synchronous
    ensures Awaits([f] + fs) <==> Awaits(fs)
  {
    if Awaits(fs) {
      var i :| 0 <= i < |fs| && fs[i].OfChannel? && fs[i].synchronous;
      assert ([f] + fs)[i + 1] == fs[i];
    }
    if Awaits([f] + fs) {
      var i :| 0 <= i < |[f] + fs| && ([f] + fs)[i].OfChannel? && ([f] + fs)[i].synchronous;
      assert fs[i - 1] == ([f] + fs)[i];
    }
  }

  /** The answer a channel waited for sends what it had queued, up to the next frame that awaits one. */
  lemma {:induction false} AnswerSends(c: Connection, id: nat)
    requires c.state == Connected && id in c.channels && AllOfChannel(c.channels[id].queue)
    ensures var d, ch := Step(c, Answered(id)), c.channels[id];
            var n := UpToAnswer(ch.queue);
            && d.channels == c.channels[id := ch.(queue := ch.queue[n..], synchronous := Awaits(ch.queue[..n]))]
            && Line(d) == Line(c) + ch.queue[..n]
  {
    hide Line, FlushChannel;
    FlushSends(c, id, c.channels[id].(synchronous := false));
    var r := FlushChannel(c, id, c.channels[id].(synchronous := false));
    ChannelsDoNotMatter(r.0, c.channels[id := r.1]);
  }

  /** A channel whose frame was answered sends what it had queued, in order, up to the next synchronous frame. */
  lemma {:induction false} FlushStream(c: Connection, id: nat, ch: Channel, other: nat)
    requires c.state == Connected && Own(ch.queue, id)
    ensures var r := FlushChannel(c, id, ch);
            && r.0.state == c.state && r.1.usable == ch.usable && Own(r.1.queue, id)
            && (r.1.queue != [] ==> r.1.synchronous)
            && OfId(Line(r.0), id) + r.1.queue == OfId(Line(c), id) + ch.queue
            && (other != id ==> OfId(Line(r.0), other) == OfId(Line(c), other))
    decreases |ch.queue|
  {
    hide Line, OfId, SendBuffer;
    if !ch.synchronous && ch.queue != [] {
      var f := ch.queue[0];
      SendBufferAcceptsIff(c, f);
      SendBufferQueuesUp(c, f);
      OfIdSnoc(Line(c), f, id);
      OfIdSnoc(Line(c), f, other);
      var d := SendBuffer(c, f).0;
      FlushStream(d, id, ch.(queue := ch.queue[1..], synchronous := f.OfChannel? && f.synchronous), other);
      assert OfId(Line(c), id) + ch.queue == (OfId(Line(c), id) + [f]) + ch.queue[1..];
    }
  }

  lemma {:induction false} AnswerStream(c: Connection, i: nat, id: nat)
    requires Lively(c) && c.state == Connected
    ensures var d := Step(c, Answered(i));
            && Lively(d) && d.state == c.state && d.maxFrame == c.maxFrame && (id in d.channels <==> id in c.channels)
            && Stream(d, id) == Stream(c, id)
  {
    hide Line, OfId;
    if i in c.channels {
      FlushStream(c, i, c.channels[i].(synchronous := false), id);
      var r := FlushChannel(c, i, c.channels[i].(synchronous := false));
      ChannelsDoNotMatter(r.0, c.channels[i := r.1]);
    }
  }

  /* ----- whole runs ----- */

  /** Events on a connection that nobody closes; channels are answered when the connection is up. */
  predicate Peaceful(c: Connection, e: Event) {
    match e
    case User(r) => Modest(c, r)
    case Start => true
    case Tune(_) => true
    case OpenOk(onReady) => AllModest(c, onReady)
    case Answered(_) => c.state == Connected
    case EndOfBuffer => true
    case _ => false
  }

  ghost predicate PeacefulRun(c: Connection, events: seq<Event>)
    decreases |events|
  {
    events == [] || (Peaceful(c, events[0]) && PeacefulRun(Step(c, events[0]), events[1..]))
  }

  function WantedOf(known: bool, e: Event, id: nat): seq<Frame> {
    match e
    case User(r) => Wanted(known, r, id)
    case OpenOk(onReady) => WantedAll(known, onReady, id)
    case _ => []
  }

  predicate OpensIn(e: Event, id: nat) {
    e == User(Opens(id)) || (e.OpenOk? && Opens(id) in e.onReady)
  }

  /** The frames a channel is asked for by the events alone: its opening, and what is sent behind it. */
  function WantedRun(known: bool, events: seq<Event>, id: nat): seq<Frame>
    decreases |events|
  {
    if events == [] then []
    else WantedOf(known, events[0], id) + WantedRun(known || OpensIn(events[0], id), events[1..], id)
  }

  lemma {:induction false} StepStream(c: Connection, e: Event, id: nat)
    requires Lively(c) && Peaceful(c, e) && id > 0
    ensures var d := Step(c, e);
            && Lively(d) && (id in d.channels <==> id in c.channels || OpensIn(e, id))
            && Stream(d, id) == Stream(c, id) + WantedOf(id in c.channels, e, id)
  {
    hide Lively, Stream, Ask, AskAll, Modest, AllModest, WantedAll, ChannelReply;
    assert Stream(c, id) + [] == Stream(c, id);
    match e
    case User(r) => AskStream(c, r, id);
    case OpenOk(onReady) => OpeningStream(c, onReady, id);
    case Answered(i) => AnswerStream(c, i, id);
    case _ => QuietStream(c, e, id);
  }

  lemma {:induction false} QuietStream(c: Connection, e: Event, id: nat)
    requires Lively(c) && (e.Start? || e.Tune? || e.EndOfBuffer?)
    ensures var d := Step(c, e); Lively(d) && d.channels == c.channels && Stream(d, id) == Stream(c, id)
  {
    hide Ordinary, WaitingOnes;
    match e
    case Start => SendQueuesUp(if c.state == Protocol then c.(state := Handshake) else c, Handshaking);
    case Tune(n) =>
      SendQueuesUp(c.(maxFrame := n), Handshaking);
      SendQueuesUp(Send(c.(maxFrame := n), Handshaking).0, Handshaking);
    case _ =>
  }

  lemma {:induction false} OpeningStream(c: Connection, onReady: seq<Request>, id: nat)
    requires Lively(c) && AllModest(c, onReady) && id > 0
    ensures var d := Step(c, OpenOk(onReady));
            && Lively(d) && (id in d.channels <==> id in c.channels || Opens(id) in onReady)
            && Stream(d, id) == Stream(c, id) + WantedAll(id in c.channels, onReady, id)
  {
    hide Ordinary, WaitingOnes, AskAll, Modest;
    var up := c.(state := Connected);
    assert AllModest(up, onReady) by { SameMaximum(c, up, onReady); }
    AskAllStream(up, onReady, id);
    var d := AskAll(up, onReady);
    assert (d.wire + d.queue) + [] == d.wire + d.queue;
  }

  lemma {:induction false} SameMaximum(c: Connection, d: Connection, rs: seq<Request>)
    requires AllModest(c, rs) && d.maxFrame == c.maxFrame
    ensures AllModest(d, rs)
  {
    forall i | 0 <= i < |rs| ensures Modest(d, rs[i]) {
      assert Modest(c, rs[i]);
    }
  }

  /**
   On a connection that nobody closes, whatever is asked of a channel, before the handshake is done or
   after, is on its way in call order, each frame once: on the wire, in the queue of the handshake, or
   in the queue of the channel.
   */
  lemma {:induction false} StreamsAreWanted(c: Connection, events: seq<Event>, id: nat)
    requires Lively(c) && PeacefulRun(c, events) && id > 0
    ensures var d := Run(c, events);
            Lively(d) && Stream(d, id) == Stream(c, id) + WantedRun(id in c.channels, events, id)
    decreases |events|
  {
    hide Lively, Stream, Step, Peaceful, WantedOf, OpensIn;
    if events == [] {
      assert Stream(c, id) + [] == Stream(c, id);
    } else {
      StepStream(c, events[0], id);
      StreamsAreWanted(Step(c, events[0]), events[1..], id);
    }
  }

  lemma {:induction false} PeacefulIsOrderly(c: Connection, events: seq<Event>, id: nat)
    requires Lively(c) && PeacefulRun(c, events) && id > 0
    ensures Orderly(c, events)
    decreases |events|
  {
    hide Stream, Step, Peaceful, WantedOf, OpensIn;
    if events != [] {
      StepStream(c, events[0], id);
      PeacefulIsOrderly(Step(c, events[0]), events[1..], id);
    }
  }

  lemma {:induction false} OfIdSkips(fs: seq<Frame>, id: nat)
    ensures OfId(Ordinary(fs), id) == OfId(fs, id)
  {
    hide OfId;
    if fs == [] {
      NothingOrdinary();
    } else {
      var n := |fs| - 1;
      OfIdSkips(fs[..n], id);
      assert fs == fs[..n] + [fs[n]];
      OrdinarySnoc(fs[..n], fs[n]);
      OfIdSnoc(fs[..n], fs[n], id);
      if !fs[n].Handshaking? { OfIdSnoc(Ordinary(fs[..n]), fs[n], id); }
    }
  }

  /** And once the connection is up and the channel waits for nothing, all of it is on the wire. */
  lemma {:induction false} AllOnTheWire(events: seq<Event>, id: nat)
    requires PeacefulRun(FRESH, events) && id > 0
    requires var c := Run(FRESH, events); c.state == Connected && id in c.channels && !c.channels[id].Waiting()
    ensures OfId(Run(FRESH, events).wire, id) == WantedRun(false, events, id)
  {
    hide Run, PeacefulRun, Ordinary, OfId, ChannelFrames, WaitingOnes, WantedRun, Own;
    FreshIsLively(id);
    StreamsAreWanted(FRESH, events, id);
    PeacefulIsOrderly(FRESH, events, id);
    FreshIsSettled();
    RunKeeps(FRESH, events);
    var c := Run(FRESH, events);
    assert c.wire + c.queue == c.wire && OfId(Line(c), id) + [] == OfId(Line(c), id);
    assert [] + WantedRun(false, events, id) == WantedRun(false, events, id);
    OfIdSkips(c.wire, id);
  }

  lemma {:induction false} FreshIsLively(id: nat)
    ensures Lively(FRESH) && Stream(FRESH, id) == []
  {
    assert [Handshaking] + [] == [Handshaking] && [] + [Handshaking] == [Handshaking];
    OrdinarySnoc([], Handshaking);
    NothingOrdinary();
  }

  /* ----- before the connection is up ----- */

  predicate Early(e: Event) {
    e.User? || e.Start? || e.Tune? || e.EndOfBuffer?
  }

  /** The frames asked of the connection, in call order; those behind the opening of a channel wait in the channel. */
  function Called(known: set<nat>, events: seq<Event>): seq<Frame>
    decreases |events|
  {
    if events == [] then []
    else
      match events[0]
      case User(Opens(id)) =>
        (if id in known then [] else [OfChannel(id, true, 13)]) + Called(known + {id}, events[1..])
      case User(Beats) => [OfChannel(0, false, 8)] + Called(known, events[1..])
      case _ => Called(known, events[1..])
  }

  /** The handshake is not done, and no channel has been answered. */
  ghost predicate Unanswered(c: Connection) {
    && !c.closed && c.state in {Protocol, Handshake} && Ordinary(c.wire) == []
    && forall id :: id in c.channels ==> c.channels[id].usable && c.channels[id].synchronous
  }

  lemma {:induction false} EarlyStep(c: Connection, e: Event)
    requires Unanswered(c) && Early(e) && Peaceful(c, e)
    ensures var d := Step(c, e);
            && Unanswered(d)
            && d.channels.Keys
               == (if e.User? && e.request.Opens? then c.channels.Keys + {e.request.id} else c.channels.Keys)
            && d.queue == c.queue + (match e
                                     case User(Opens(id)) => if id in c.channels then [] else [OfChannel(id, true, 13)]
                                     case User(Beats) => [OfChannel(0, false, 8)]
                                     case _ => [])
  {
    hide Ordinary, WaitingOnes;
    OrdinarySnoc(c.wire, Handshaking);
    OrdinarySnoc(c.wire + [Handshaking], Handshaking);
    assert c.queue + [] == c.queue;
  }

  lemma {:induction false} EarlyRun(c: Connection, events: seq<Event>)
    requires Unanswered(c) && PeacefulRun(c, events) && (forall e :: e in events ==> Early(e))
    ensures var d := Run(c, events); Unanswered(d) && d.queue == c.queue + Called(c.channels.Keys, events)
    decreases |events|
  {
    hide Unanswered, Step, Peaceful;
    if events == [] {
      assert c.queue + [] == c.queue;
    } else {
      assert events[0] in events;
      EarlyStep(c, events[0]);
      EarlyRun(Step(c, events[0]), events[1..]);
      KnownStays(c.channels.Keys, events);
      assert forall a: seq<Frame>, b: seq<Frame> :: (c.queue + a) + b == c.queue + (a + b);
    }
  }

  lemma {:induction false} KnownStays(known: set<nat>, events: seq<Event>)
    requires events != []
    ensures Called(known, events)
            == (match events[0]
                case User(Opens(id)) => if id in known then [] else [OfChannel(id, true, 13)]
                case User(Beats) => [OfChannel(0, false, 8)]
                case _ => [])
               + Called(if events[0].User? && events[0].request.Opens? then known + {events[0].request.id} else known,
                        events[1..])
  {
  }

  /**
   Whatever is asked before the opening of the connection is confirmed waits in the queue of the handshake,
   and stands on the wire in call order once it is: with a channel opened first, `[User(Opens(1)), OpenOk([])]`,
   that is its opening frame.
   */
  lemma {:induction false} EarlyFramesGoOut(events: seq<Event>)
    requires PeacefulRun(FRESH, events) && (forall e :: e in events ==> Early(e))
    ensures var c := Run(FRESH, events);
            var d := Step(c, OpenOk([]));
            && Ordinary(c.wire) == [] && c.queue == Called({}, events)
            && Ordinary(d.wire) == Called({}, events) && d.queue == []
  {
    hide Run, PeacefulRun, Early, Called, Ordinary, WaitingOnes;
    assert [] + [Handshaking] == [Handshaking];
    OrdinarySnoc([], Handshaking);
    NothingOrdinary();
    assert FRESH.channels.Keys == {};
    EarlyRun(FRESH, events);
    var c := Run(FRESH, events);
    assert [] + Called({}, events) == Called({}, events);
    OrdinaryAppend(c.wire, c.queue);
    CalledIsOrdinary({}, events);
  }

  lemma {:induction false} CalledIsOrdinary(known: set<nat>, events: seq<Event>)
    ensures Ordinary(Called(known, events)) == Called(known, events)
    decreases |events|
  {
    hide Ordinary, Called;
    if events == [] {
      NothingCalled(known);
      NothingOrdinary();
    } else {
      KnownStays(known, events);
      var more := if events[0].User? && events[0].request.Opens? then known + {events[0].request.id} else known;
      CalledIsOrdinary(more, events[1..]);
      var front := match events[0]
        case User(Opens(id)) => if id in known then [] else [OfChannel(id, true, 13)]
        case User(Beats) => [OfChannel(0, false, 8)]
        case _ => [];
      OrdinaryAppend(front, Called(more, events[1..]));
      NothingOrdinary();
      if front != [] {
        assert [] + [front[0]] == front;
        OrdinarySnoc([], front[0]);
      }
    }
  }

  lemma {:induction false} NothingCalled(known: set<nat>)
    ensures Called(known, []) == []
  {
  }

  /** The shortest such run: a channel is made right behind the connection, and its opening goes out. */
  lemma {:induction false} FirstChannelOpens()
    ensures var c := Run(FRESH, [User(Opens(1))]);
            var d := Run(FRESH, [User(Opens(1)), OpenOk([])]);
            && c.queue == [OfChannel(1, true, 13)] && c.wire == [Handshaking]
            && d.queue == [] && d.wire == [Handshaking, OfChannel(1, true, 13)]
            && d.state == Connected && 1 in d.channels && d.channels[1] == Channel(true, true, [])
  {
    hide WaitingOnes;
    var open := User(Opens(1));
    RunOne(FRESH, open);
    assert [open, OpenOk([])] == [open] + [OpenOk([])];
    RunAppends(FRESH, [open], [OpenOk([])]);
    var c := Step(FRESH, open);
    RunOne(c, OpenOk([]));
    assert c.queue == [] + [OfChannel(1, true, 13)] == [OfChannel(1, true, 13)];
    assert [Handshaking] + [OfChannel(1, true, 13)] == [Handshaking, OfChannel(1, true, 13)];
  }

  /** A close is remembered on a connection that is not gone, and goes out at once if that is up and idle. */
  lemma {:induction false} CloseIsRemembered(c: Connection)
    requires !c.closed && c.state != Closed
    ensures Close(c).closed
    ensures c.state == Connected && c.queue == [] && (forall id :: id in c.channels ==> !c.channels[id].Waiting()) ==>
              Close(c).state == Closing && Close(c).wire == c.wire + [ConnectionClose({})]
    ensures c.state != Connected || (exists id :: id in c.channels && c.channels[id].Waiting()) ==>
              Close(c).state == c.state && Close(c).wire == c.wire
  {
    hide WaitingOnes;
    var channels := CloseChannels(c.channels);
    forall id | id in c.channels ensures id in channels && channels[id].Waiting() == c.channels[id].Waiting() {
      assert channels[id] == CloseChannel(id, c.channels[id]);
    }
    SomeoneWaits(channels);
    NooneWaits(channels);
  }
}
