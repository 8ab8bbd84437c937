/** Outgoing frames, cut out of the stream again and decoded from their payload. */
module FrameRoundTrip {
  import opened Bytes
  import opened Options
  import opened FieldCodec
  import opened FieldTheorems
  import opened MetaDataCodec
  import opened Frames
  import Framing

  /* ----- framing undoes serialisation ----- */

  lemma {:induction false} Slices(a: byte, c: seq<byte>, n: seq<byte>, p: seq<byte>, rest: seq<byte>)
    requires |c| == 2 && |n| == 4
    ensures var w := [a] + (c + (n + p)) + [206] + rest;
            && |w| == 8 + |p| + |rest|
            && w[0] == a && w[1..3] == c && w[3..7] == n && w[7..7 + |p|] == p && w[7 + |p|] == 206
            && w[8 + |p|..] == rest
  {
  }

  /** A frame spelled out: type, channel, length, payload and the end-of-frame octet. */
  lemma {:induction false} SpelledIsFound(
    a: byte, c: seq<byte>, n: seq<byte>, p: seq<byte>, maxFrame: nat, rest: seq<byte>)
    requires |c| == 2 && |n| == 4 && FromBigEndian(n) == |p| && |p| + 8 <= maxFrame
    ensures var w := [a] + (c + (n + p)) + [206];
            && Framing.Find(maxFrame, w + rest) == Framing.Whole(Framing.Frame(a, FromBigEndian(c), p), |p| + 8)
            && (w + rest)[|p| + 8..] == rest
  {
    hide FromBigEndian;
    Slices(a, c, n, p, rest);
  }

  lemma {:induction false} NumbersAreRead(f: Frame)
    requires WellFormed(f) && |Wire(f)| < TWO_TO_THE_32 && !f.ProtocolHeader?
    ensures FromBigEndian(ToBigEndian(Channel(f), 2)) == Channel(f)
    ensures FromBigEndian(ToBigEndian(PayloadSize(f), 4)) == |Payload(f)| && |Wire(f)| == |Payload(f)| + 8
  {
    hide Payload, PayloadLength, ToBigEndian, FromBigEndian, Type, Channel, WellFormed, Wire;
    PayloadLengthIsExact(f);
    WireLength(f);
    BigEndianRoundTrip(PayloadSize(f), 4);
    ChannelFits(f);
    BigEndianRoundTrip(Channel(f), 2);
  }

  /** The receiver finds, at the front of any stream, the frame that was written there. */
  lemma {:induction false} WireIsFound(f: Frame, maxFrame: nat, rest: seq<byte>)
    requires WellFormed(f) && !f.ProtocolHeader? && |Wire(f)| <= maxFrame < TWO_TO_THE_32
    ensures Framing.Find(maxFrame, Wire(f) + rest)
            == Framing.Whole(Framing.Frame(Type(f), Channel(f), Payload(f)), |Wire(f)|)
    ensures (Wire(f) + rest)[|Wire(f)|..] == rest
  {
    hide Payload, PayloadSize, ToBigEndian, FromBigEndian, Type, Channel, WellFormed, Framing.Find;
    NumbersAreRead(f);
    SpelledIsFound(Type(f), ToBigEndian(Channel(f), 2), ToBigEndian(PayloadSize(f), 4), Payload(f), maxFrame, rest);
  }

  lemma {:induction false} ChannelFits(f: Frame)
    requires WellFormed(f)
    ensures Channel(f) < Pow256(2)
  {
  }

  /* ----- decoding a payload ----- */

  /** An unsigned integer of `width` octets at `pos`. */
  function Uint(b: Buffer, pos: nat, width: nat): (r: Decoded<nat>)
    requires pos <= |b.bytes|
    ensures r.Ok? <==> |b.bytes| - pos >= width
    ensures r.Ok? ==> r.next == pos + width
  {
    var s := Take(b, pos, width);
    if s.OutOfRange? then OutOfRange else Ok(FromBigEndian(s.value), s.next)
  }

  /** A content header behind its class: weight, body size, properties. */
  function DecodeContent(channel: nat, b: Buffer): Option<Frame>
    requires |b.bytes| >= 2
  {
    if |b.bytes| < 12 then None
    else
      var size := Uint(b, 4, 8);
      var meta := DecodeMeta(b, 12);
      if meta.OutOfRange? then None else Some(Content(channel, size.value, meta.value))
  }

  /** A consume frame behind its class and method: a deprecated number, two names, flags, arguments. */
  function DecodeConsume(channel: nat, b: Buffer): Option<Frame>
    requires |b.bytes| >= 4
  {
    if |b.bytes| < 6 then None
    else
      var queue := DecodeShort(b, 6);
      if queue.OutOfRange? then None
      else
        var tag := DecodeShort(b, queue.next);
        if tag.OutOfRange? then None
        else
          var flags := Take(b, tag.next, 1);
          if flags.OutOfRange? then None
          else
            var filter := DecodeTable(b, flags.next);
            if filter.OutOfRange? then None
            else Some(Consume(channel, queue.value, tag.value, OctetToBits(flags.value[0], 8), filter.value))
  }

  /** What dispatching a received frame makes of it; `None` is an exception. */
  function Received(frame: Framing.Frame): Option<Frame> {
    var b := Buffer(frame.payload);
    if frame.kind == 3 then Some(Body(frame.channel, frame.payload))
    else if frame.kind == 4 || frame.kind == 8 then Some(Heartbeat)
    else if frame.kind == 2 && |frame.payload| >= 2 && Uint(b, 0, 2).value == BASIC_CLASS then
      DecodeContent(frame.channel, b)
    else if frame.kind == 1 && |frame.payload| >= 4 && Uint(b, 0, 2).value == BASIC_CLASS
         && Uint(b, 2, 2).value == CONSUME_METHOD then
      DecodeConsume(frame.channel, b)
    else None
  }

  lemma {:induction false} UintAt(n: nat, width: nat, rest: seq<byte>, b: Buffer, pos: nat)
    requires n < Pow256(width) && pos <= |b.bytes| && At(b.bytes, pos, ToBigEndian(n, width) + rest)
    ensures Uint(b, pos, width) == Ok(n, pos + width)
    ensures At(b.bytes, pos + width, rest) && pos + width + |rest| <= |b.bytes|
  {
    hide ToBigEndian, FromBigEndian;
    AtSplit(b.bytes, pos, ToBigEndian(n, width), rest);
    TakeAt(b, pos, ToBigEndian(n, width));
    BigEndianRoundTrip(n, width);
  }

  /** What is nested in a frame of less than 2^32 octets is shorter still. */
  lemma {:induction false} PartsFit(f: Frame)
    requires WellFormed(f) && |Wire(f)| < TWO_TO_THE_32
    ensures f.Content? ==> MetaSize(f.meta) < TWO_TO_THE_32
    ensures f.Consume? ==> Size(Table(f.filter)) < TWO_TO_THE_32
  {
    hide Wire, MetaSize, Size, WellFormed;
    WireLength(f);
  }

  lemma {:induction false} ContentRoundTrip(f: Frame)
    requires WellFormed(f) && f.Content? && |Wire(f)| < TWO_TO_THE_32
    ensures var b := Buffer(Payload(f));
            && |b.bytes| >= 2 && Uint(b, 0, 2).value == BASIC_CLASS
            && (DecodeContent(f.channel, b) == Some(f) <==> f.meta.Canonical() && f.meta.FlaggedFit())
  {
    hide ToBigEndian, Uint, EncodeMeta, DecodeMeta, MetaData.Canonical, MetaData.FlaggedFit, MetaData.WellFormed, At,
      MetaSize, Wire;
    PartsFit(f);
    var b := Buffer(Payload(f));
    var m, size := EncodeMeta(f.meta), ToBigEndian(f.bodySize, 8);
    AtStart(b.bytes);
    UintAt(BASIC_CLASS, 2, ToBigEndian(0, 2) + (size + m), b, 0);
    UintAt(0, 2, size + m, b, 2);
    UintAt(f.bodySize, 8, m, b, 4);
    MetaRoundTripIffAt(f.meta, b, 12);
  }

  lemma {:induction false} AtStart(x: seq<byte>)
    ensures At(x, 0, x)
  {
  }

  ghost predicate ConsumeFits(f: Frame)
    requires f.Consume?
  {
    |f.queue| <= 255 && |f.tag| <= 255 && Fits(Table(f.filter))
  }

  /** The two names and the flags are read back, and the arguments stand behind them. */
  lemma {:induction false} ConsumeHead(f: Frame, b: Buffer)
    requires WellFormed(f) && f.Consume? && |f.queue| <= 255 && |f.tag| <= 255 && b.bytes == Payload(f)
    ensures var q, t := 7 + |f.queue|, 8 + |f.queue| + |f.tag|;
            && t + 1 <= |b.bytes|
            && DecodeShort(b, 6) == Ok(f.queue, q)
            && DecodeShort(b, q) == Ok(f.tag, t)
            && Take(b, t, 1) == Ok([FlagOctet(f.flags)], t + 1)
            && At(b.bytes, t + 1, Encode(Table(f.filter)))
  {
    hide ToBigEndian, Encode, EncodeShort, DecodeShort, At, Valid, FlagOctet, Uint, Take;
    ConsumeNumbers(f, b);
    var flags, filter := [FlagOctet(f.flags)], Encode(Table(f.filter));
    AtSplit(b.bytes, 6, EncodeShort(f.queue), EncodeShort(f.tag) + (flags + filter));
    ShortRoundTrip(f.queue, b, 6);
    ShortLength(f.queue);
    AtSplit(b.bytes, 7 + |f.queue|, EncodeShort(f.tag), flags + filter);
    ShortRoundTrip(f.tag, b, 7 + |f.queue|);
    ShortLength(f.tag);
    AtSplit(b.bytes, 8 + |f.queue| + |f.tag|, flags, filter);
    TakeAt(b, 8 + |f.queue| + |f.tag|, flags);
    AtBound(b.bytes, 9 + |f.queue| + |f.tag|, filter);
  }

  lemma {:induction false} ShortLength(text: seq<byte>)
    ensures |EncodeShort(text)| == 1 + |text|
  {
  }

  lemma {:induction false} ConsumeNumbers(f: Frame, b: Buffer)
    requires WellFormed(f) && f.Consume? && b.bytes == Payload(f)
    ensures |b.bytes| >= 6 && Uint(b, 0, 2).value == BASIC_CLASS && Uint(b, 2, 2).value == CONSUME_METHOD
    ensures At(b.bytes, 6,
               EncodeShort(f.queue) + (EncodeShort(f.tag) + ([FlagOctet(f.flags)] + Encode(Table(f.filter)))))
  {
    hide ToBigEndian, Encode, EncodeShort, At, Valid, FlagOctet, Uint;
    var rest := EncodeShort(f.queue) + (EncodeShort(f.tag) + ([FlagOctet(f.flags)] + Encode(Table(f.filter))));
    AtStart(b.bytes);
    UintAt(BASIC_CLASS, 2, ToBigEndian(CONSUME_METHOD, 2) + (ToBigEndian(0, 2) + rest), b, 0);
    UintAt(CONSUME_METHOD, 2, ToBigEndian(0, 2) + rest, b, 2);
    UintAt(0, 2, rest, b, 4);
  }

  lemma {:induction false} DecodedConsumeFits(channel: nat, b: Buffer)
    requires |b.bytes| >= 4
    ensures var r := DecodeConsume(channel, b); r.Some? ==> r.value.Consume? && ConsumeFits(r.value)
  {
    hide DecodeShort, OctetToBits, Fits, Valid, ReadEntries;
    if DecodeConsume(channel, b).Some? {
      var flags := Take(b, DecodeShort(b, DecodeShort(b, 6).next).next, 1);
      DecodedTableFits(b, flags.next);
    }
  }

  lemma {:induction false} DecodedTableFits(b: Buffer, pos: nat)
    requires pos <= |b.bytes| && DecodeTable(b, pos).Ok?
    ensures Fits(Table(DecodeTable(b, pos).value))
  {
    EntriesAreWellFormed(b, pos + 4, FromBigEndian(Take(b, pos, 4).value), []);
  }

  lemma {:induction false} ConsumeRoundTrip(f: Frame)
    requires WellFormed(f) && f.Consume? && |Wire(f)| < TWO_TO_THE_32
    ensures var b := Buffer(Payload(f));
            && |b.bytes| >= 4 && Uint(b, 0, 2).value == BASIC_CLASS && Uint(b, 2, 2).value == CONSUME_METHOD
            && (DecodeConsume(f.channel, b) == Some(f) <==> ConsumeFits(f))
  {
    hide DecodeShort, DecodeTable, Encode, Payload, Wire, At, Uint, Valid, Fits, BitsToOctet, OctetToBits, Take;
    PartsFit(f);
    var b := Buffer(Payload(f));
    ConsumeNumbers(f, b);
    if ConsumeFits(f) {
      ConsumeHead(f, b);
      BitsRoundTrip(f.flags);
      TableFieldRoundTrip(f.filter, b, 9 + |f.queue| + |f.tag|);
    }
    DecodedConsumeFits(f.channel, b);
  }

  lemma {:induction false} TableFieldRoundTrip(entries: seq<Entry>, b: Buffer, pos: nat)
    requires Valid(Table(entries)) && Fits(Table(entries)) && Size(Table(entries)) < TWO_TO_THE_32
    requires At(b.bytes, pos, Encode(Table(entries))) && pos <= |b.bytes|
    ensures DecodeTable(b, pos) == Ok(entries, pos + Size(Table(entries)))
  {
    hide At, DecodeTable;
    TableRoundTrip(entries, b, pos);
  }

  /** What a frame must satisfy for its receiver to see the same frame. */
  ghost predicate Survives(f: Frame)
    requires WellFormed(f)
  {
    match f
    case Content(_, _, meta) => meta.Canonical() && meta.FlaggedFit()
    case Consume(_, _, _, _, _) => ConsumeFits(f)
    case _ => true
  }

  /** A frame cut out of any stream decodes to itself exactly when its names and properties survive. */
  lemma {:induction false} FrameRoundTripIff(f: Frame, maxFrame: nat, rest: seq<byte>)
    requires WellFormed(f) && !f.ProtocolHeader? && |Wire(f)| <= maxFrame < TWO_TO_THE_32
    ensures var found := Framing.Find(maxFrame, Wire(f) + rest);
            && found.Whole? && found.size == |Wire(f)|
            && (Received(found.frame) == Some(f) <==> Survives(f))
  {
    hide Wire, Payload, DecodeContent, DecodeConsume, ConsumeFits, Uint, Framing.Find, MetaData.Canonical,
      MetaData.FlaggedFit, MetaData.WellFormed, Valid, TotalSize;
    WireIsFound(f, maxFrame, rest);
    if f.Content? { ContentRoundTrip(f); }
    if f.Consume? { ConsumeRoundTrip(f); }
    if f.Body? { BodyPayload(f); }
  }

  lemma {:induction false} BodyPayload(f: Frame)
    requires WellFormed(f) && f.Body?
    ensures Payload(f) == f.payload
  {
  }
}
