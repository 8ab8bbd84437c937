/**
 Serialisation, framing, decoding and reassembly together: what one side publishes, the other side
 delivers, however the octets are cut on the way.
 */
module Transport {
  import opened Bytes
  import opened Options
  import opened Frames
  import opened FrameRoundTrip
  import opened MetaDataCodec
  import Framing
  import C = Content
  import R = Reassembly

  /** A frame that may be sent once the connection is open. */
  ghost predicate Sendable(f: Frame, maxFrame: nat) {
    WellFormed(f) && !f.ProtocolHeader? && |Wire(f)| <= maxFrame
  }

  ghost predicate AllSendable(fs: seq<Frame>, maxFrame: nat) {
    forall i :: 0 <= i < |fs| ==> Sendable(fs[i], maxFrame)
  }

  function Raw(f: Frame): Framing.Frame
    requires WellFormed(f)
  {
    Framing.Frame(Type(f), Channel(f), Payload(f))
  }

  /** The octets of well-formed frames, one after the other. */
  ghost function Wires(fs: seq<Frame>): seq<byte> {
    if fs == [] then [] else (if WellFormed(fs[0]) then Wire(fs[0]) else []) + Wires(fs[1..])
  }

  ghost function Raws(fs: seq<Frame>, maxFrame: nat): (r: seq<Framing.Frame>)
    requires AllSendable(fs, maxFrame)
    ensures |r| == |fs|
  {
    if fs == [] then [] else assert Sendable(fs[0], maxFrame); [Raw(fs[0])] + Raws(fs[1..], maxFrame)
  }

  /** A connection on which no frame changes the maximum or closes. */
  const KEEPING: Framing.Dispatcher := (h: seq<Framing.Frame>, f: Framing.Frame) => Framing.Keep

  function Open(maxFrame: nat, handled: seq<Framing.Frame>): Framing.Link {
    Framing.Link(maxFrame, false, false, handled)
  }

  lemma {:induction false} KeepingTunesNothing()
    ensures Framing.Tunes(KEEPING)
  {
  }

  lemma {:induction false} FirstIsParsed(f: Frame, maxFrame: nat, handled: seq<Framing.Frame>, rest: seq<byte>)
    requires 8 <= maxFrame < TWO_TO_THE_32 && Sendable(f, maxFrame) && Framing.Tunes(KEEPING)
    ensures var p := Framing.ParseLoop(Open(maxFrame, handled), KEEPING, Wire(f) + rest);
            var r := Framing.ParseLoop(Open(maxFrame, handled + [Raw(f)]), KEEPING, rest);
            p.link == r.link && p.processed == |Wire(f)| + r.processed
  {
    hide Wire, Payload, Type, Channel, WellFormed, Framing.Find, Framing.ParseLoop, Framing.Tunes;
    WireIsFound(f, maxFrame, rest);
    WireLength(f);
    Framing.ParseStep(Open(maxFrame, handled), KEEPING, Wire(f) + rest, Open(maxFrame, handled + [Raw(f)]), rest);
  }

  lemma {:induction false} Unrolled(fs: seq<Frame>, maxFrame: nat)
    requires AllSendable(fs, maxFrame) && fs != []
    ensures WellFormed(fs[0]) && Sendable(fs[0], maxFrame) && AllSendable(fs[1..], maxFrame)
    ensures Wires(fs) == Wire(fs[0]) + Wires(fs[1..])
    ensures Raws(fs, maxFrame) == [Raw(fs[0])] + Raws(fs[1..], maxFrame)
  {
    hide Wire, Raw, WellFormed;
    assert Sendable(fs[0], maxFrame);
  }

  /** One call of `parse` on any sequence of frames handles these frames and leaves nothing. */
  lemma {:induction false} StreamIsParsed(fs: seq<Frame>, maxFrame: nat, handled: seq<Framing.Frame>)
    requires 8 <= maxFrame < TWO_TO_THE_32 && AllSendable(fs, maxFrame) && Framing.Tunes(KEEPING)
    ensures var p := Framing.ParseLoop(Open(maxFrame, handled), KEEPING, Wires(fs));
            p.link == Open(maxFrame, handled + Raws(fs, maxFrame)) && p.processed == |Wires(fs)|
    decreases |fs|
  {
    hide Wire, Wires, Raw, Raws, Sendable, AllSendable, Framing.Find, Framing.ParseLoop, Framing.Tunes;
    if fs == [] {
      NothingParsed(maxFrame, handled);
    } else {
      Unrolled(fs, maxFrame);
      FirstIsParsed(fs[0], maxFrame, handled, Wires(fs[1..]));
      StreamIsParsed(fs[1..], maxFrame, handled + [Raw(fs[0])]);
      assert (handled + [Raw(fs[0])]) + Raws(fs[1..], maxFrame) == handled + Raws(fs, maxFrame);
    }
  }

  lemma {:induction false} NothingParsed(maxFrame: nat, handled: seq<Framing.Frame>)
    requires 8 <= maxFrame && Framing.Tunes(KEEPING)
    ensures Wires([]) == []
    ensures var p := Framing.ParseLoop(Open(maxFrame, handled), KEEPING, []);
            p.link == Open(maxFrame, handled + Raws([], maxFrame)) && p.processed == 0
  {
    assert handled + [] == handled;
  }

  lemma {:induction false} OpenHasNothingBehind(link: Framing.Link, d: Framing.Dispatcher, bytes: seq<byte>)
    requires link.maxFrame >= 8 && Framing.Tunes(d) && !link.closed && !Framing.ParseLoop(link, d, bytes).link.closed
    ensures Framing.NothingAfterClose(link, d, bytes)
  {
    hide Framing.ParseLoop, Framing.Deframe;
    Framing.ParseRefinesDeframe(link, d, bytes);
  }

  /**
   Frames written one after the other and cut into calls in any way are handled, every one, in
   order, and each decodes to what was written exactly when its names and properties survive.
   */
  lemma {:induction false} FramesArrive(fs: seq<Frame>, maxFrame: nat, chunks: seq<seq<byte>>)
    requires 8 <= maxFrame < TWO_TO_THE_32 && AllSendable(fs, maxFrame)
    requires Flatten(chunks) == Wires(fs)
    ensures Framing.Tunes(KEEPING)
    ensures var r := Framing.Feed(Open(maxFrame, []), KEEPING, [], chunks);
            && r == (Open(maxFrame, Raws(fs, maxFrame)), [])
            && forall i :: 0 <= i < |fs| ==> (Received(r.0.handled[i]) == Some(fs[i]) <==> Survives(fs[i]))
  {
    hide Framing.ParseLoop, Framing.Feed, Framing.Tunes, Survives, Received, Framing.NothingAfterClose;
    KeepingTunesNothing();
    var bytes, link := Wires(fs), Open(maxFrame, []);
    StreamIsParsed(fs, maxFrame, []);
    assert [] + Raws(fs, maxFrame) == Raws(fs, maxFrame);
    OpenHasNothingBehind(link, KEEPING, bytes);
    Framing.ChunkingIndependenceIff(link, KEEPING, bytes);
    assert bytes[|bytes|..] == [];
    forall i | 0 <= i < |fs| ensures Received(Raws(fs, maxFrame)[i]) == Some(fs[i]) <==> Survives(fs[i]) {
      RawAt(fs, maxFrame, i);
      assert Sendable(fs[i], maxFrame);
      WireIsFound(fs[i], maxFrame, []);
      FrameRoundTripIff(fs[i], maxFrame, []);
    }
  }

  lemma {:induction false} RawAt(fs: seq<Frame>, maxFrame: nat, i: nat)
    requires AllSendable(fs, maxFrame) && i < |fs|
    ensures WellFormed(fs[i]) && Raws(fs, maxFrame)[i] == Raw(fs[i])
    decreases |fs|
  {
    hide WellFormed, Wire, Wires, Raw, Raws, Sendable;
    Unrolled(fs, maxFrame);
    if i > 0 { RawAt(fs[1..], maxFrame, i - 1); }
  }

  /* ----- messages ----- */

  datatype Message = Message(meta: MetaData, body: seq<byte>)

  /** The frames with which a message travels behind its method frame. */
  function ContentFrames(channel: nat, m: Message, maxPayload: nat): seq<Frame>
    requires maxPayload > 0
  {
    [Content(channel, |m.body|, m.meta)] + BodyFrames(channel, C.Chunks(m.body, maxPayload))
  }

  function BodyFrames(channel: nat, pieces: seq<seq<byte>>): (r: seq<Frame>)
    ensures |r| == |pieces|
  {
    seq(|pieces|, i requires 0 <= i < |pieces| => Body(channel, pieces[i]))
  }

  function MessageFrames(channel: nat, ms: seq<Message>, maxPayload: nat): seq<Frame>
    requires maxPayload > 0
  {
    if ms == [] then [] else ContentFrames(channel, ms[0], maxPayload) + MessageFrames(channel, ms[1..], maxPayload)
  }

  function BodiesOf(ms: seq<Message>): (r: seq<seq<byte>>)
    ensures |r| == |ms|
  {
    seq(|ms|, i requires 0 <= i < |ms| => ms[i].body)
  }

  /** A message whose header fits a frame and whose properties survive. */
  ghost predicate Publishable(channel: nat, m: Message, maxFrame: nat) {
    && Sendable(Content(channel, |m.body|, m.meta), maxFrame)
    && m.meta.WellFormed() && m.meta.Canonical() && m.meta.FlaggedFit()
  }

  /** What decoded frames mean to the receiver of content. Every header comes behind its deliver frame. */
  function Arrivals(fs: seq<Frame>): seq<R.Arriving> {
    if fs == [] then []
    else
      (match fs[0]
       case Content(_, bodySize, _) => [R.Deliver, R.Header(bodySize)]
       case Body(_, payload) => [R.Body(payload)]
       case _ => []) + Arrivals(fs[1..])
  }

  ghost predicate Good(f: Frame, maxFrame: nat) {
    Sendable(f, maxFrame) && Survives(f)
  }

  ghost predicate AllGood(fs: seq<Frame>, maxFrame: nat) {
    forall i :: 0 <= i < |fs| ==> Good(fs[i], maxFrame)
  }

  lemma {:induction false} BodyIsGood(channel: nat, piece: seq<byte>, maxFrame: nat)
    requires channel < TWO_TO_THE_16 && |piece| + 8 <= maxFrame < TWO_TO_THE_32
    ensures Good(Body(channel, piece), maxFrame)
  {
    hide Wire;
    WireLength(Body(channel, piece));
  }

  lemma {:induction false} ContentIsGood(channel: nat, m: Message, maxFrame: nat)
    requires C.OVERHEAD < maxFrame < TWO_TO_THE_32 && Publishable(channel, m, maxFrame)
    ensures AllGood(ContentFrames(channel, m, maxFrame - C.OVERHEAD), maxFrame)
  {
    hide C.Chunks, Wire, MetaData.WellFormed, MetaData.Canonical, MetaData.FlaggedFit;
    var pieces := C.Chunks(m.body, maxFrame - C.OVERHEAD);
    C.ChunksAreTheBody(m.body, maxFrame - C.OVERHEAD);
    var fs := ContentFrames(channel, m, maxFrame - C.OVERHEAD);
    forall i | 0 <= i < |fs| ensures Good(fs[i], maxFrame) {
      if i > 0 {
        assert fs[i] == Body(channel, pieces[i - 1]);
        BodyIsGood(channel, pieces[i - 1], maxFrame);
      }
    }
  }

  lemma {:induction false} MessagesAreGood(channel: nat, ms: seq<Message>, maxFrame: nat)
    requires C.OVERHEAD < maxFrame < TWO_TO_THE_32 && forall m :: m in ms ==> Publishable(channel, m, maxFrame)
    ensures AllGood(MessageFrames(channel, ms, maxFrame - C.OVERHEAD), maxFrame)
    decreases |ms|
  {
    hide Good, Publishable, ContentFrames;
    if ms != [] {
      assert ms[0] in ms;
      ContentIsGood(channel, ms[0], maxFrame);
      MessagesAreGood(channel, ms[1..], maxFrame);
    }
  }

  lemma {:induction false} GoodIsSendable(fs: seq<Frame>, maxFrame: nat)
    requires AllGood(fs, maxFrame)
    ensures AllSendable(fs, maxFrame)
    ensures forall i :: 0 <= i < |fs| ==> WellFormed(fs[i]) && Survives(fs[i])
  {
    hide Wire, WellFormed, Survives;
    forall i | 0 <= i < |fs| ensures Sendable(fs[i], maxFrame) && Survives(fs[i]) {
      assert Good(fs[i], maxFrame);
    }
  }

  lemma {:induction false} ArrivalsAppend(a: seq<Frame>, b: seq<Frame>)
    ensures Arrivals(a + b) == Arrivals(a) + Arrivals(b)
    decreases |a|
  {
    if a == [] {
      assert a + b == b;
    } else {
      assert (a + b)[1..] == a[1..] + b;
      ArrivalsAppend(a[1..], b);
    }
  }

  lemma {:induction false} BodiesArrive(channel: nat, pieces: seq<seq<byte>>)
    ensures Arrivals(BodyFrames(channel, pieces)) == R.Bodies(pieces)
    decreases |pieces|
  {
    if pieces != [] {
      assert BodyFrames(channel, pieces)[1..] == BodyFrames(channel, pieces[1..]);
      BodiesArrive(channel, pieces[1..]);
      assert R.Bodies(pieces) == [R.Body(pieces[0])] + R.Bodies(pieces[1..]);
    }
  }

  lemma {:induction false} ContentArrives(channel: nat, m: Message, maxPayload: nat)
    requires maxPayload > 0
    ensures Arrivals(ContentFrames(channel, m, maxPayload)) == R.Arrivals(|m.body|, C.Chunks(m.body, maxPayload))
  {
    hide C.Chunks;
    var pieces := C.Chunks(m.body, maxPayload);
    var header := Content(channel, |m.body|, m.meta);
    BodiesArrive(channel, pieces);
    var fs := ContentFrames(channel, m, maxPayload);
    assert fs[0] == header && fs[1..] == BodyFrames(channel, pieces);
  }

  /** The frames of the messages arrive as the stream the receiver expects. */
  lemma {:induction false} MessagesAreAStream(channel: nat, ms: seq<Message>, maxPayload: nat)
    requires maxPayload > 0
    ensures Arrivals(MessageFrames(channel, ms, maxPayload)) == R.Stream(R.ShippedAll(BodiesOf(ms), maxPayload))
    decreases |ms|
  {
    hide C.Chunks, ContentFrames, R.Arrivals;
    if ms != [] {
      ArrivalsAppend(ContentFrames(channel, ms[0], maxPayload), MessageFrames(channel, ms[1..], maxPayload));
      ContentArrives(channel, ms[0], maxPayload);
      MessagesAreAStream(channel, ms[1..], maxPayload);
      var shipped := R.ShippedAll(BodiesOf(ms), maxPayload);
      assert shipped[0] == R.Shipped(ms[0].body, maxPayload);
      assert shipped[1..] == R.ShippedAll(BodiesOf(ms[1..]), maxPayload);
    }
  }

  lemma {:induction false} BodySizes(channel: nat, ms: seq<Message>, maxFrame: nat)
    requires forall m :: m in ms ==> Publishable(channel, m, maxFrame)
    ensures forall b :: b in BodiesOf(ms) ==> |b| < TWO_TO_THE_64
  {
    hide Wire, MetaData.WellFormed, MetaData.Canonical, MetaData.FlaggedFit;
    forall i | 0 <= i < |ms| ensures |BodiesOf(ms)[i]| < TWO_TO_THE_64 {
      assert Publishable(channel, ms[i], maxFrame);
    }
  }

  /**
   The header and body frames of any sequence of messages, serialised, sent as one stream of octets and
   read in any pieces: every frame is decoded as it was, with the properties of its message, and the
   receiver that deliver frames install is given the bodies, in order, each once.
   */
  lemma {:induction false} MessagesTravel(
    channel: nat, ms: seq<Message>, maxFrame: nat, chunks: seq<seq<byte>>, receiver: R.Receiver)
    requires C.OVERHEAD < maxFrame < TWO_TO_THE_32 && forall m :: m in ms ==> Publishable(channel, m, maxFrame)
    requires Flatten(chunks) == Wires(MessageFrames(channel, ms, maxFrame - C.OVERHEAD))
    ensures Framing.Tunes(KEEPING)
    ensures var fs := MessageFrames(channel, ms, maxFrame - C.OVERHEAD);
            var r := Framing.Feed(Open(maxFrame, []), KEEPING, [], chunks);
            && r.1 == [] && |r.0.handled| == |fs|
            && (forall i :: 0 <= i < |fs| ==> Received(r.0.handled[i]) == Some(fs[i]))
            && R.ProcessAll(receiver, Arrivals(fs)).delivered == receiver.delivered + BodiesOf(ms)
  {
    hide Framing.Feed, Framing.Tunes, Received, Arrivals, AllGood, Good, AllSendable, Sendable, Publishable, Survives,
      Wires, MessageFrames, R.ProcessAll, R.Stream, Raws, WellFormed;
    var max := maxFrame - C.OVERHEAD;
    var fs := MessageFrames(channel, ms, max);
    MessagesAreGood(channel, ms, maxFrame);
    GoodIsSendable(fs, maxFrame);
    FramesArrive(fs, maxFrame, chunks);
    MessagesAreAStream(channel, ms, max);
    BodySizes(channel, ms, maxFrame);
    R.PublishedArrives(receiver, BodiesOf(ms), maxFrame);
  }
}
