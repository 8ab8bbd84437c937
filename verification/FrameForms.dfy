/** Property lists and frames on the wire, octet by octet, for the reader and for the writer. */
module FrameForms {
  import opened Bytes
  import opened Options
  import opened FieldCodec
  import opened FieldTheorems
  import opened MetaDataCodec
  import opened Frames
  import opened FrameRoundTrip
  import opened WireForms
  import Framing
  import Spelling

  /* ----- flags ----- */

  function Bit(on: bool): nat {
    if on then 1 else 0
  }

  lemma {:induction false} LowBit(bits: seq<bool>)
    requires bits != []
    ensures BitsToOctet(bits) == Bit(bits[0]) + 2 * BitsToOctet(bits[1..])
  {
  }

  lemma {:induction false} NoBits()
    ensures BitsToOctet([]) == 0
  {
  }

  /** Eight flags, the first in the lowest bit. */
  lemma {:induction false} FlagsAreWritten(s: seq<bool>)
    requires |s| == 8
    ensures FlagOctet(s)
            == Bit(s[0]) + 2 * Bit(s[1]) + 4 * Bit(s[2]) + 8 * Bit(s[3])
               + 16 * Bit(s[4]) + 32 * Bit(s[5]) + 64 * Bit(s[6]) + 128 * Bit(s[7])
  {
    hide BitsToOctet, Pow2;
    LowBit(s);
    LowBit(s[1..]);
    LowBit(s[2..]);
    LowBit(s[3..]);
    LowBit(s[4..]);
    LowBit(s[5..]);
    LowBit(s[6..]);
    LowBit(s[7..]);
    assert s[1..][1..] == s[2..] && s[2..][1..] == s[3..] && s[3..][1..] == s[4..] && s[4..][1..] == s[5..];
    assert s[5..][1..] == s[6..] && s[6..][1..] == s[7..] && s[7..][1..] == [];
    NoBits();
  }

  lemma {:induction false} BitAt(n: nat, count: nat)
    requires count > 0
    ensures OctetToBits(n, count)[0] == (n % 2 == 1) && OctetToBits(n, count)[1..] == OctetToBits(n / 2, count - 1)
  {
  }

  lemma {:induction false} FlagsAreRead(n: byte)
    ensures var s := OctetToBits(n, 8);
            && s[0] == (n % 2 == 1) && s[1] == (n / 2 % 2 == 1) && s[2] == (n / 2 / 2 % 2 == 1)
            && s[3] == (n / 2 / 2 / 2 % 2 == 1) && s[4] == (n / 2 / 2 / 2 / 2 % 2 == 1)
            && s[5] == (n / 2 / 2 / 2 / 2 / 2 % 2 == 1) && s[6] == (n / 2 / 2 / 2 / 2 / 2 / 2 % 2 == 1)
            && s[7] == (n / 2 / 2 / 2 / 2 / 2 / 2 / 2 % 2 == 1)
  {
    hide OctetToBits;
    var a, b, c, d := n / 2, n / 2 / 2, n / 2 / 2 / 2, n / 2 / 2 / 2 / 2;
    var e, f, g := d / 2, d / 2 / 2, d / 2 / 2 / 2;
    BitAt(n, 8);
    BitAt(a, 7);
    BitAt(b, 6);
    BitAt(c, 5);
    BitAt(d, 4);
    BitAt(e, 3);
    BitAt(f, 2);
    BitAt(g, 1);
    var s := OctetToBits(n, 8);
    assert s[1] == s[1..][0] && s[2] == s[1..][1..][0] && s[3] == s[1..][1..][1..][0];
    assert s[4] == s[1..][1..][1..][1..][0] && s[5] == s[1..][1..][1..][1..][1..][0];
    assert s[6] == s[1..][1..][1..][1..][1..][1..][0] && s[7] == s[1..][1..][1..][1..][1..][1..][1..][0];
  }

  /* ----- property lists ----- */

  /** Whether a bit of an octet is set, the lowest with value one. */
  predicate Set(octet: nat, value: nat)
    requires value > 0
  {
    octet / value % 2 == 1
  }

  /**
   Which flags announce which property: content type, content encoding, headers, delivery mode, priority,
   correlation id, reply-to and expiration in the first octet, from the highest bit down; then message id,
   timestamp, type, user id, application id and cluster id in the second.
   */
  ghost predicate FlagsStandFor(m: MetaData, first: nat, second: nat)
    requires |m.bools1| == 8 && |m.bools2| == 8
  {
    && m.Has(0) == Set(first, 128) && m.Has(1) == Set(first, 64) && m.Has(2) == Set(first, 32)
    && m.Has(3) == Set(first, 16) && m.Has(4) == Set(first, 8) && m.Has(5) == Set(first, 4)
    && m.Has(6) == Set(first, 2) && m.Has(7) == Set(first, 1)
    && m.Has(8) == Set(second, 128) && m.Has(9) == Set(second, 64) && m.Has(10) == Set(second, 32)
    && m.Has(11) == Set(second, 16) && m.Has(12) == Set(second, 8) && m.Has(13) == Set(second, 4)
  }

  lemma {:induction false} Halves(n: byte)
    ensures n / 2 / 2 == n / 4 && n / 2 / 2 / 2 == n / 8 && n / 2 / 2 / 2 / 2 == n / 16
    ensures n / 2 / 2 / 2 / 2 / 2 == n / 32 && n / 2 / 2 / 2 / 2 / 2 / 2 == n / 64
    ensures n / 2 / 2 / 2 / 2 / 2 / 2 / 2 == n / 128
  {
  }

  /** Flags that are the bits of an octet. */
  ghost predicate BitsAre(s: seq<bool>, n: nat)
    requires |s| == 8
  {
    && s[0] == Set(n, 1) && s[1] == Set(n, 2) && s[2] == Set(n, 4) && s[3] == Set(n, 8)
    && s[4] == Set(n, 16) && s[5] == Set(n, 32) && s[6] == Set(n, 64) && s[7] == Set(n, 128)
  }

  lemma {:induction false} BitsOf(n: byte)
    ensures BitsAre(OctetToBits(n, 8), n)
  {
    hide OctetToBits;
    FlagsAreRead(n);
    Halves(n);
  }

  lemma {:induction false} BitsStandFor(m: MetaData, first: nat, second: nat)
    requires |m.bools1| == 8 && |m.bools2| == 8 && BitsAre(m.bools1, first) && BitsAre(m.bools2, second)
    ensures FlagsStandFor(m, first, second)
  {
    hide Set;
  }

  lemma {:induction false} SlotsKeepFlags(b: Buffer, pos: nat, m: MetaData, i: nat)
    requires pos <= |b.bytes| && |m.bools1| == 8 && |m.bools2| == 8 && |m.values| == SLOTS && i <= SLOTS
    ensures var r := DecodeSlots(b, pos, m, i); r.Ok? ==> r.value.bools1 == m.bools1 && r.value.bools2 == m.bools2
    decreases SLOTS - i
  {
    hide DecodeValue;
    if i < SLOTS {
      if m.Has(i) {
        var d := DecodeValue(b, pos, Layout(i).kind);
        if d.Ok? { SlotsKeepFlags(b, d.next, m.(values := m.values[i := d.value]), i + 1); }
      } else {
        SlotsKeepFlags(b, pos, m, i + 1);
      }
    }
  }

  /** Reading: the two octets in front say which properties there are. */
  lemma {:induction false} FlagsAnnounce(b: Buffer, pos: nat)
    requires pos <= |b.bytes| && DecodeMeta(b, pos).Ok?
    ensures var m := DecodeMeta(b, pos).value;
            && pos + 2 <= |b.bytes| && |m.bools1| == 8 && |m.bools2| == 8
            && FlagsStandFor(m, b.bytes[pos], b.bytes[pos + 1])
  {
    hide DecodeSlots, OctetToBits, BitsAre, FlagsStandFor;
    var flags := Take(b, pos, 2);
    var m := MetaData(OctetToBits(flags.value[0], 8), OctetToBits(flags.value[1], 8), Defaults(0));
    SlotsKeepFlags(b, pos + 2, m, 0);
    BitsOf(b.bytes[pos]);
    BitsOf(b.bytes[pos + 1]);
    BitsStandFor(DecodeMeta(b, pos).value, b.bytes[pos], b.bytes[pos + 1]);
  }

  /** The flags a writer puts in front of the properties, and in which order these follow. */
  lemma {:induction false} PropertiesAreWritten(m: MetaData)
    requires m.WellFormed()
    ensures |EncodeMeta(m)| >= 2 && FlagsStandFor(m, EncodeMeta(m)[0], EncodeMeta(m)[1])
    ensures EncodeMeta(m)[2..] == InOrder(m)
  {
    hide EncodeSlots, BitsToOctet, BitsAre, FlagsStandFor, InOrder, MetaData.WellFormed;
    FlagLengths(m);
    WrittenBits(m.bools1);
    WrittenBits(m.bools2);
    BitsStandFor(m, FlagOctet(m.bools1), FlagOctet(m.bools2));
    SlotsInOrder(m);
    assert EncodeMeta(m)[2..] == EncodeSlots(m, 0);
  }

  lemma {:induction false} FlagLengths(m: MetaData)
    requires m.WellFormed()
    ensures |m.bools1| == 8 && |m.bools2| == 8
  {
  }

  lemma {:induction false} WrittenBits(s: seq<bool>)
    requires |s| == 8
    ensures BitsAre(s, FlagOctet(s))
  {
    hide OctetToBits, BitsToOctet, BitsAre;
    BitsRoundTrip(s);
    BitsOf(FlagOctet(s));
  }

  /** What a property adds, if its flag is set. */
  function Property(m: MetaData, i: nat): seq<byte>
    requires m.WellFormed() && i < 14
  {
    if m.Has(i) then Encode(m.values[i]) else []
  }

  lemma {:induction false} NextProperty(m: MetaData, i: nat)
    requires m.WellFormed() && i < 14
    ensures EncodeSlots(m, i) == Property(m, i) + EncodeSlots(m, i + 1)
  {
    hide MetaData.Has;
  }

  lemma {:induction false} LastProperty(m: MetaData)
    requires m.WellFormed()
    ensures EncodeSlots(m, 14) == []
  {
  }

  /** All properties that are flagged, in the order of their numbers. */
  function InOrder(m: MetaData): seq<byte>
    requires m.WellFormed()
  {
    Property(m, 0) + (Property(m, 1) + (Property(m, 2) + (Property(m, 3) + (Property(m, 4) + (Property(m, 5)
    + (Property(m, 6) + (Property(m, 7) + (Property(m, 8) + (Property(m, 9) + (Property(m, 10)
    + (Property(m, 11) + (Property(m, 12) + Property(m, 13)))))))))))))
  }

  lemma {:induction false} SlotsInOrder(m: MetaData)
    requires m.WellFormed()
    ensures EncodeSlots(m, 0) == InOrder(m)
  {
    hide EncodeSlots, Property, MetaData.WellFormed;
    NextProperty(m, 13);
    LastProperty(m);
    assert Property(m, 13) + [] == Property(m, 13);
    NextProperty(m, 12);
    NextProperty(m, 11);
    NextProperty(m, 10);
    NextProperty(m, 9);
    NextProperty(m, 8);
    NextProperty(m, 7);
    NextProperty(m, 6);
    NextProperty(m, 5);
    NextProperty(m, 4);
    NextProperty(m, 3);
    NextProperty(m, 2);
    NextProperty(m, 1);
    NextProperty(m, 0);
  }

  /** The types of the properties: texts, but for a table of headers, two octets of their own, and a time. */
  lemma {:induction false} PropertyForms(m: MetaData, i: nat)
    requires m.WellFormed() && i < 14
    ensures i in {0, 1, 5, 6, 7, 8, 10, 11, 12, 13} ==>
              m.values[i].ShortString? && Encode(m.values[i]) == [|m.values[i].text| % 0x100] + m.values[i].text
    ensures i == 2 ==> m.values[i].Table?
    ensures i in {3, 4} ==>
              m.values[i].Number? && m.values[i].kind == UOctet && Encode(m.values[i]) == Spell(m.values[i].number, 1)
    ensures i == 9 ==>
              && m.values[i].Number? && m.values[i].kind == Timestamp
              && Encode(m.values[i]) == Spell(m.values[i].number, 8)
  {
    hide ToBigEndian, Spell;
    if i in {3, 4} { OctetsAreWritten(m.values[i].number, 1); }
    if i == 9 { OctetsAreWritten(m.values[i].number, 8); }
  }

  /* ----- frames ----- */

  /** The content header behind type and channel: class 60, no weight, the size of the body, the properties. */
  function HeaderPayload(bodySize: nat, meta: MetaData): seq<byte>
    requires meta.WellFormed()
  {
    [0, 60, 0, 0] + Spell(bodySize, 8) + EncodeMeta(meta)
  }

  /** Class 60, method 20, a number that is zero, two names, an octet of flags, a table. */
  function ConsumePayload(queue: seq<byte>, tag: seq<byte>, flags: byte, filter: seq<Entry>): seq<byte>
    requires Valid(Table(filter))
  {
    [0, 60, 0, 20, 0, 0, |queue| % 0x100] + queue + [|tag| % 0x100] + tag + ([flags] + Encode(Table(filter)))
  }

  lemma {:induction false} SmallNumbers()
    ensures ToBigEndian(BASIC_CLASS, 2) == [0, 60] && ToBigEndian(CONSUME_METHOD, 2) == [0, 20]
    ensures ToBigEndian(0, 2) == [0, 0]
  {
    hide ToBigEndian;
    OctetsAreWritten(60, 2);
    OctetsAreWritten(20, 2);
    OctetsAreWritten(0, 2);
  }

  lemma {:induction false} PayloadsAreWritten(f: Frame)
    requires WellFormed(f)
    ensures f.Heartbeat? ==> Payload(f) == []
    ensures f.Body? ==> Payload(f) == f.payload
    ensures f.Content? ==> Payload(f) == HeaderPayload(f.bodySize, f.meta)
    ensures f.Consume? ==> Payload(f) == ConsumePayload(f.queue, f.tag, FlagOctet(f.flags), f.filter)
  {
    hide ToBigEndian, Payload, HeaderPayload, ConsumePayload, Valid, MetaData.WellFormed, BitsToOctet;
    match f
    case Content(_, _, _) => HeaderIsSpelled(f);
    case Consume(_, _, _, _, _) => ConsumeIsSpelled(f);
    case _ => EmptyOrBody(f);
  }

  lemma {:induction false} EmptyOrBody(f: Frame)
    requires WellFormed(f)
    ensures f.Heartbeat? ==> Payload(f) == []
    ensures f.Body? ==> Payload(f) == f.payload
  {
  }

  lemma {:induction false} HeaderIsSpelled(f: Frame)
    requires WellFormed(f) && f.Content?
    ensures Payload(f) == HeaderPayload(f.bodySize, f.meta)
  {
    hide ToBigEndian, EncodeMeta, Spell, MetaData.WellFormed;
    SmallNumbers();
    OctetsAreWritten(f.bodySize, 8);
    assert [0, 60] + ([0, 0] + (Spell(f.bodySize, 8) + EncodeMeta(f.meta))) == HeaderPayload(f.bodySize, f.meta);
  }

  lemma {:induction false} ConsumeIsSpelled(f: Frame)
    requires WellFormed(f) && f.Consume?
    ensures Payload(f) == ConsumePayload(f.queue, f.tag, FlagOctet(f.flags), f.filter)
  {
    hide ToBigEndian, Encode, Valid, BitsToOctet, EncodeShort;
    SmallNumbers();
    JoinedConsume(EncodeShort(f.queue), EncodeShort(f.tag), [FlagOctet(f.flags)], Encode(Table(f.filter)));
    NamesAreSpelled(f.queue, f.tag, [FlagOctet(f.flags)] + Encode(Table(f.filter)));
  }

  lemma {:induction false} NamesAreSpelled(a: seq<byte>, b: seq<byte>, rest: seq<byte>)
    ensures [0, 60, 0, 20, 0, 0] + EncodeShort(a) + EncodeShort(b) + rest
            == [0, 60, 0, 20, 0, 0, |a| % 0x100] + a + [|b| % 0x100] + b + rest
  {
  }

  lemma {:induction false} JoinedConsume(a: seq<byte>, b: seq<byte>, c: seq<byte>, d: seq<byte>)
    ensures [0, 60] + ([0, 20] + ([0, 0] + (a + (b + (c + d))))) == [0, 60, 0, 20, 0, 0] + a + b + (c + d)
  {
  }

  /** The raw frame: its type is 3 for a body, 2 for a header, 1 for a method, 8 for a heartbeat. */
  function Raw(f: Frame): Framing.Frame
    requires WellFormed(f) && !f.ProtocolHeader?
  {
    match f
    case Heartbeat => Framing.Frame(8, 0, [])
    case Body(channel, payload) => Framing.Frame(3, channel, payload)
    case Content(channel, bodySize, meta) => Framing.Frame(2, channel, HeaderPayload(bodySize, meta))
    case Consume(channel, queue, tag, flags, filter) =>
      Framing.Frame(1, channel, ConsumePayload(queue, tag, FlagOctet(flags), filter))
  }

  /** What a frame below 2^32 octets is on the wire: its type, channel, length, payload and the octet 206. */
  lemma {:induction false} FramesAreWritten(f: Frame)
    requires WellFormed(f) && !f.ProtocolHeader? && |Wire(f)| < 0x1_0000_0000
    ensures Raw(f).channel < 0x1_0000 && |Raw(f).payload| < 0x1_0000_0000
    ensures Wire(f) == Spelling.Spelled(Raw(f))
  {
    hide ToBigEndian, Payload, PayloadSize, Wire, HeaderPayload, ConsumePayload, BitsToOctet, Valid,
      MetaData.WellFormed;
    PayloadsAreWritten(f);
    ChannelFits(f);
    NumbersAreWritten(f);
    WireParts(f);
    OctetsAreWritten(Channel(f), 2);
    OctetsAreWritten(|Payload(f)|, 4);
    HeadIsSpelled(Type(f), Channel(f), |Payload(f)|);
    var h := Spelling.Head(Type(f), Channel(f), |Payload(f)|);
    assert ([Type(f)] + Spell(Channel(f), 2) + Spell(|Payload(f)|, 4)) + Payload(f) == h + Payload(f);
  }

  lemma {:induction false} NumbersAreWritten(f: Frame)
    requires WellFormed(f) && !f.ProtocolHeader? && |Wire(f)| < 0x1_0000_0000
    ensures PayloadSize(f) == |Payload(f)| < 0x1_0000_0000
  {
    hide Payload, PayloadLength, Wire;
    PayloadLengthIsExact(f);
    WireLength(f);
  }

  lemma {:induction false} WireParts(f: Frame)
    requires WellFormed(f) && !f.ProtocolHeader?
    ensures Wire(f)
            == ([Type(f)] + ToBigEndian(Channel(f), 2) + ToBigEndian(PayloadSize(f), 4)) + Payload(f) + [206]
  {
    hide ToBigEndian, Payload, PayloadSize, Channel, Type;
    Joined([Type(f)], ToBigEndian(Channel(f), 2), ToBigEndian(PayloadSize(f), 4), Payload(f));
  }

  lemma {:induction false} Joined(a: seq<byte>, b: seq<byte>, c: seq<byte>, d: seq<byte>)
    ensures a + (b + (c + d)) == (a + b + c) + d
  {
  }

  lemma {:induction false} HeadIsSpelled(kind: byte, channel: nat, n: nat)
    requires channel < 0x1_0000 && n < 0x1_0000_0000
    ensures [kind] + Spell(channel, 2) + Spell(n, 4) == Spelling.Head(kind, channel, n)
  {
  }

  /** The protocol header: the four letters AMQP, and the version 0-9-1 behind a zero. */
  lemma {:induction false} HeaderIsWritten()
    ensures Wire(ProtocolHeader) == [65, 77, 81, 80, 0, 0, 9, 1]
  {
  }

  /**
   What a receiver makes of the frames of each type, by the octets of their payloads. A payload that ends
   too early is an error; other classes and methods are not part of this model.
   */
  lemma {:induction false} FramesAreRead(frame: Framing.Frame)
    ensures frame.kind == 3 ==> Received(frame) == Some(Body(frame.channel, frame.payload))
    ensures frame.kind in {4, 8} ==> Received(frame) == Some(Heartbeat)
    ensures frame.kind !in {1, 2, 3, 4, 8} ==> Received(frame) == None
    ensures frame.kind == 2 && [0, 60] <= frame.payload ==>
              var b := Buffer(frame.payload);
              Received(frame)
              == if |frame.payload| < 12 || DecodeMeta(b, 12).OutOfRange? then None
                 else Some(Content(frame.channel, ReadAt(frame.payload, 4, 8), DecodeMeta(b, 12).value))
  {
    hide FromBigEndian, ReadAt, DecodeMeta, DecodeConsume;
    if frame.kind == 2 && [0, 60] <= frame.payload {
      ClassIsRead(frame.payload);
      if |frame.payload| >= 12 { OctetsAreRead(frame.payload, 4, 8); }
    }
  }

  lemma {:induction false} ClassIsRead(payload: seq<byte>)
    requires [0, 60] <= payload
    ensures Uint(Buffer(payload), 0, 2).Ok? && Uint(Buffer(payload), 0, 2).value == 60
  {
    hide FromBigEndian;
    OctetsAreRead(payload, 0, 2);
    assert payload[0] == [0, 60][0] && payload[1] == [0, 60][1];
  }

  /** Class 60, method 20: names, flags and table follow a number that nobody reads. */
  lemma {:induction false} ConsumeIsRead(frame: Framing.Frame)
    requires frame.kind == 1 && [0, 60, 0, 20] <= frame.payload
    ensures Received(frame)
            == (var b, p := Buffer(frame.payload), frame.payload;
                if |p| < 7 || |p| - 7 < p[6] then None
                else
                  var tagAt: nat := p[6] as int + 7;
                  if |p| < tagAt + 1 || |p| - tagAt - 1 < p[tagAt] then None
                  else
                    var flagsAt := tagAt + 1 + p[tagAt];
                    if |p| < flagsAt + 1 || DecodeTable(b, flagsAt + 1).OutOfRange? then None
                    else Some(Consume(frame.channel, p[7..tagAt], p[tagAt + 1..flagsAt],
                                      OctetToBits(p[flagsAt], 8), DecodeTable(b, flagsAt + 1).value)))
  {
    hide FromBigEndian, DecodeTable, OctetToBits;
    assert frame.payload[0] == [0, 60, 0, 20][0] && frame.payload[1] == [0, 60, 0, 20][1];
    assert frame.payload[2] == [0, 60, 0, 20][2] && frame.payload[3] == [0, 60, 0, 20][3];
    OctetsAreRead(frame.payload, 0, 2);
    OctetsAreRead(frame.payload, 2, 2);
  }

  /** No flags, no properties: empty texts, no headers, and zero for the numbers. */
  lemma {:induction false} NoFlagsNoProperties(b: Buffer, pos: nat, i: nat)
    requires pos + 2 <= |b.bytes| && b.bytes[pos] == 0 && b.bytes[pos + 1] == 0 && i < 14
    ensures var r := DecodeMeta(b, pos);
            && r.Ok? && r.next == pos + 2 && |r.value.values| == 14
            && r.value.values[i]
               == (if i == 2 then Table([]) else if i in {3, 4} then Number(UOctet, 0)
                   else if i == 9 then Number(Timestamp, 0) else ShortString([]))
            && r.value == Empty()
  {
    hide DecodeMeta, Layout, Default, OctetToBits, MetaData.WellFormed;
    EmptyIsDecoded(b, pos);
    DefaultOf(i);
    DefaultsOfEmpty(i);
  }

  lemma {:induction false} DefaultsOfEmpty(i: nat)
    requires i < 14
    ensures |Empty().values| == 14 && Empty().values[i] == Default(Layout(i).kind)
  {
    hide Layout, Default, OctetToBits;
  }

  lemma {:induction false} EmptyIsDecoded(b: Buffer, pos: nat)
    requires pos + 2 <= |b.bytes| && b.bytes[pos] == 0 && b.bytes[pos + 1] == 0
    ensures DecodeMeta(b, pos) == Ok(Empty(), pos + 2)
  {
    hide OctetToBits, DecodeSlots, Defaults, MetaData.WellFormed;
    NoBitsSet();
    NothingDecoded(b, pos + 2, Empty(), 0);
    assert b.bytes[pos..pos + 2] == [0, 0];
  }

  lemma {:induction false} NoBitsSet()
    ensures forall k :: 0 <= k < 8 ==> !OctetToBits(0, 8)[k]
  {
    hide OctetToBits;
    FlagsAreRead(0);
  }

  lemma {:induction false} DefaultOf(i: nat)
    requires i < 14
    ensures Default(Layout(i).kind)
            == (if i == 2 then Table([]) else if i in {3, 4} then Number(UOctet, 0)
                else if i == 9 then Number(Timestamp, 0) else ShortString([]))
  {
  }

  lemma {:induction false} NothingDecoded(b: Buffer, pos: nat, m: MetaData, i: nat)
    requires pos <= |b.bytes| && |m.bools1| == 8 && |m.bools2| == 8 && |m.values| == SLOTS && i <= SLOTS
    requires (forall k :: 0 <= k < 8 ==> !m.bools1[k]) && (forall k :: 0 <= k < 8 ==> !m.bools2[k])
    ensures DecodeSlots(b, pos, m, i) == Ok(m, pos)
    decreases SLOTS - i
  {
    if i < SLOTS { NothingDecoded(b, pos, m, i + 1); }
  }
}
