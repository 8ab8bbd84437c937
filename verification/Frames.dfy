/**
 Outgoing frames: what they serialise to, the size they announce, the two output buffers they are
 written through, and what the receiving side makes of the octets.
 */
module Frames {
  import opened Bytes
  import opened FieldCodec
  import opened FieldStreams
  import opened MetaDataCodec

  /** The protocol header, which is no frame proper, and one frame of every type. */
  datatype Frame =
    | ProtocolHeader
    | Heartbeat
    | Body(channel: nat, payload: seq<byte>)
    | Content(channel: nat, bodySize: nat, meta: MetaData)
    | Consume(channel: nat, queue: seq<byte>, tag: seq<byte>, flags: seq<bool>, filter: seq<Entry>)

  const BASIC_CLASS: nat := 60
  const CONSUME_METHOD: nat := 20

  ghost predicate WellFormed(f: Frame) {
    match f
    case ProtocolHeader => true
    case Heartbeat => true
    case Body(channel, payload) => channel < TWO_TO_THE_16 && |payload| < TWO_TO_THE_32
    case Content(channel, bodySize, meta) => channel < TWO_TO_THE_16 && bodySize < TWO_TO_THE_64 && meta.WellFormed()
    case Consume(channel, _, _, flags, filter) => channel < TWO_TO_THE_16 && |flags| == 8 && Valid(Table(filter))
  }

  function Channel(f: Frame): nat {
    if f.ProtocolHeader? || f.Heartbeat? then 0 else f.channel
  }

  function Type(f: Frame): byte {
    match f
    case Body(_, _) => 3
    case Content(_, _, _) => 2
    case Consume(_, _, _, _, _) => 1
    case _ => 8
  }

  function Separated(f: Frame): bool {
    !f.ProtocolHeader?
  }

  /* ----- what a frame is on the wire ----- */

  function Payload(f: Frame): seq<byte>
    requires WellFormed(f)
  {
    match f
    case ProtocolHeader => []
    case Heartbeat => []
    case Body(_, payload) => payload
    case Content(_, bodySize, meta) =>
      ToBigEndian(BASIC_CLASS, 2) + (ToBigEndian(0, 2) + (ToBigEndian(bodySize, 8) + EncodeMeta(meta)))
    case Consume(_, queue, tag, flags, filter) =>
      ToBigEndian(BASIC_CLASS, 2) + (ToBigEndian(CONSUME_METHOD, 2) + (ToBigEndian(0, 2)
      + (EncodeShort(queue) + (EncodeShort(tag) + ([FlagOctet(flags)] + Encode(Table(filter)))))))
  }

  const PROTOCOL: seq<byte> := [65, 77, 81, 80, 0]

  /** What `fill` writes: everything but the end-of-frame octet. */
  function Filled(f: Frame): seq<byte>
    requires WellFormed(f)
  {
    if f.ProtocolHeader? then PROTOCOL + ([0] + ([9] + [1]))
    else [Type(f)] + (ToBigEndian(Channel(f), 2) + (ToBigEndian(PayloadSize(f), 4) + Payload(f)))
  }

  function Wire(f: Frame): seq<byte>
    requires WellFormed(f)
  {
    Filled(f) + (if Separated(f) then [206] else [])
  }

  /** What a constructor adds up from its arguments, before anything is encoded. */
  function PayloadLength(f: Frame): nat
    requires WellFormed(f)
  {
    match f
    case ProtocolHeader => 0
    case Heartbeat => 0
    case Body(_, payload) => |payload|
    case Content(_, _, meta) => 10 + MetaSize(meta) + 2
    case Consume(_, queue, tag, _, filter) => |queue| + |tag| + 5 + Size(Table(filter)) + 4
  }

  /** The sum is kept in 32 bits. */
  function PayloadSize(f: Frame): nat
    requires WellFormed(f)
  {
    PayloadLength(f) % 0x1_0000_0000
  }

  /** `totalSize`, in 32 bits. */
  function TotalSize(f: Frame): nat
    requires WellFormed(f)
  {
    if f.ProtocolHeader? then 8 else (PayloadSize(f) + 7 + 1) % 0x1_0000_0000
  }

  lemma {:induction false} PayloadLengthIsExact(f: Frame)
    requires WellFormed(f)
    ensures |Payload(f)| == PayloadLength(f)
  {
    hide Encode, EncodeMeta, ToBigEndian, Size, MetaSize, Valid;
    match f
    case Content(_, _, meta) => EncodedMetaSize(meta);
    case Consume(_, _, _, _, filter) => EncodedSize(Table(filter));
    case _ =>
  }

  lemma {:induction false} WireLength(f: Frame)
    requires WellFormed(f)
    ensures |Wire(f)| == if f.ProtocolHeader? then 8 else PayloadLength(f) + 8
  {
    hide Payload, PayloadLength, PayloadSize, ToBigEndian;
    PayloadLengthIsExact(f);
  }

  lemma {:induction false} SumIn32Bits(n: nat)
    ensures (n % 0x1_0000_0000 + 7 + 1) % 0x1_0000_0000 == (n + 8) % 0x1_0000_0000
  {
  }

  /**
   A frame announces what it writes modulo 2^32, and so exactly what it writes if and only if that is
   less; a longer one writes more than it announced.
   */
  lemma {:induction false} TotalSizeIsExactIff(f: Frame)
    requires WellFormed(f)
    ensures TotalSize(f) == |Wire(f)| % 0x1_0000_0000
    ensures |Wire(f)| == TotalSize(f) <==> |Wire(f)| < TWO_TO_THE_32
    ensures |Wire(f)| >= TWO_TO_THE_32 ==> TotalSize(f) < |Wire(f)|
  {
    hide Payload, PayloadLength, Wire;
    WireLength(f);
    if !f.ProtocolHeader? { SumIn32Bits(PayloadLength(f)); }
  }

  /* ----- writing a frame ----- */

  method FillFrame(buffer: OutBuffer, f: Frame)
    requires WellFormed(f)
    modifies buffer
    ensures buffer.Bytes() == old(buffer.Bytes()) + Filled(f)
  {
    hide Payload, PayloadSize, ToBigEndian, OutBuffer.Bytes, Filled, WellFormed, Type, Channel;
    FilledSplit(f);
    if f.ProtocolHeader? {
      buffer.Append(PROTOCOL);
      buffer.Append([0]);
      buffer.Append([9]);
      buffer.Append([1]);
    } else {
      buffer.Append([Type(f)]);
      buffer.Append(ToBigEndian(Channel(f), 2));
      buffer.Append(ToBigEndian(PayloadSize(f), 4));
      FillPayload(buffer, f);
    }
  }

  lemma {:induction false} FilledSplit(f: Frame)
    requires WellFormed(f)
    ensures Filled(f) == if f.ProtocolHeader? then PROTOCOL + ([0] + ([9] + [1]))
                         else [Type(f)] + (ToBigEndian(Channel(f), 2) + (ToBigEndian(PayloadSize(f), 4) + Payload(f)))
  {
    hide Payload, PayloadSize, ToBigEndian, WellFormed, Type, Channel;
  }

  method FillPayload(buffer: OutBuffer, f: Frame)
    requires WellFormed(f)
    modifies buffer
    ensures buffer.Bytes() == old(buffer.Bytes()) + Payload(f)
  {
    hide ToBigEndian, OutBuffer.Bytes, Encode, EncodeMeta, EncodeShort, Valid;
    if f.Body? {
      buffer.Append(f.payload);
    } else if f.Content? {
      FillContent(buffer, f);
    } else if f.Consume? {
      FillConsume(buffer, f);
    }
  }

  method FillContent(buffer: OutBuffer, f: Frame)
    requires WellFormed(f) && f.Content?
    modifies buffer
    ensures buffer.Bytes() == old(buffer.Bytes()) + Payload(f)
  {
    hide ToBigEndian, OutBuffer.Bytes, EncodeMeta, MetaData.WellFormed;
    buffer.Append(ToBigEndian(BASIC_CLASS, 2));
    buffer.Append(ToBigEndian(0, 2));
    buffer.Append(ToBigEndian(f.bodySize, 8));
    FillMeta(buffer, f.meta);
  }

  method FillConsume(buffer: OutBuffer, f: Frame)
    requires WellFormed(f) && f.Consume?
    modifies buffer
    ensures buffer.Bytes() == old(buffer.Bytes()) + Payload(f)
  {
    hide ToBigEndian, OutBuffer.Bytes, Encode, EncodeShort, Valid, FlagOctet;
    buffer.Append(ToBigEndian(BASIC_CLASS, 2));
    buffer.Append(ToBigEndian(CONSUME_METHOD, 2));
    buffer.Append(ToBigEndian(0, 2));
    FillShort(buffer, f.queue);
    FillShort(buffer, f.tag);
    buffer.Append([FlagOctet(f.flags)]);
    FillField(buffer, Table(f.filter));
  }

  method FillShort(buffer: OutBuffer, text: seq<byte>)
    modifies buffer
    ensures buffer.Bytes() == old(buffer.Bytes()) + EncodeShort(text)
  {
    hide OutBuffer.Bytes;
    buffer.Append([|text| % 256]);
    buffer.Append(text);
  }

  /** The properties in the order of the wire, as far as they are flagged. */
  method FillMeta(buffer: OutBuffer, m: MetaData)
    requires m.WellFormed()
    modifies buffer
    ensures buffer.Bytes() == old(buffer.Bytes()) + EncodeMeta(m)
  {
    hide OutBuffer.Bytes, EncodeSlots, EncodeMeta, MetaData.WellFormed, FlagOctet;
    MetaSplit(m);
    buffer.Append([FlagOctet(m.bools1)]);
    buffer.Append([FlagOctet(m.bools2)]);
    FillSlots(buffer, m);
  }

  lemma {:induction false} MetaSplit(m: MetaData)
    requires m.WellFormed()
    ensures |m.bools1| == 8 && |m.bools2| == 8
    ensures EncodeMeta(m) == [FlagOctet(m.bools1)] + ([FlagOctet(m.bools2)] + EncodeSlots(m, 0))
  {
    hide EncodeSlots, Valid, OfKind, Layout, FlagOctet;
  }

  lemma {:induction false} SlotsSplit(m: MetaData, i: nat)
    requires m.WellFormed() && i < SLOTS
    ensures |m.bools1| == 8 && |m.bools2| == 8 && |m.values| == SLOTS && Valid(m.values[i])
    ensures EncodeSlots(m, SLOTS) == []
    ensures m.Has(i) ==> EncodeSlots(m, i) == Encode(m.values[i]) + EncodeSlots(m, i + 1)
    ensures !m.Has(i) ==> EncodeSlots(m, i) == EncodeSlots(m, i + 1)
  {
    hide Encode, Valid, OfKind, Layout, MetaData.Has;
    if !m.Has(i) {
      assert [] + EncodeSlots(m, i + 1) == EncodeSlots(m, i + 1);
    }
  }

  method FillSlots(buffer: OutBuffer, m: MetaData)
    requires m.WellFormed()
    modifies buffer
    ensures buffer.Bytes() == old(buffer.Bytes()) + EncodeSlots(m, 0)
  {
    hide OutBuffer.Bytes, Encode, MetaData.WellFormed, MetaData.Has, EncodeSlots;
    SlotsSplit(m, 0);
    for i := 0 to SLOTS
      invariant buffer.Bytes() + EncodeSlots(m, i) == old(buffer.Bytes()) + EncodeSlots(m, 0)
    {
      SlotsSplit(m, i);
      if m.Has(i) {
        FillField(buffer, m.values[i]);
      }
    }
  }

  /* ----- the two output buffers ----- */

  /** A buffer allocated once, at the size the frame announced. */
  class CopiedBuffer {
    const data: array<byte>
    var size: nat

    ghost predicate Valid()
      reads this
    {
      size <= data.Length
    }

    ghost function Contents(): seq<byte>
      reads this, data
      requires Valid()
    {
      data[..size]
    }

    constructor (capacity: nat)
      ensures Valid() && fresh(data) && data.Length == capacity && Contents() == []
    {
      data := new byte[capacity](_ => 0);
      size := 0;
    }

    method Append(piece: seq<byte>)
      requires Valid() && size + |piece| <= data.Length
      modifies this, data
      ensures Valid() && Contents() == old(Contents()) + piece
    {
      forall i | 0 <= i < |piece| {
        data[size + i] := piece[i];
      }
      size := size + |piece|;
      assert data[..size] == old(data[..size]) + piece;
    }
  }

  /** A staging area of 4096 octets in front of the socket; `sent` records the calls of `onData`. */
  class PassthroughBuffer {
    const data: array<byte>
    var size: nat
    var sent: seq<seq<byte>>

    ghost predicate Valid()
      reads this
    {
      data.Length == 4096 && size <= 4096
    }

    /** Everything written so far, sent or staged. */
    ghost function Written(): seq<byte>
      reads this, data
      requires Valid()
    {
      Flatten(sent) + data[..size]
    }

    constructor ()
      ensures Valid() && fresh(data) && Written() == [] && sent == []
    {
      data := new byte[4096](_ => 0);
      size := 0;
      sent := [];
    }

    method Flush()
      requires Valid()
      modifies this
      ensures Valid() && size == 0 && Written() == old(Written())
    {
      FlattenAppend(sent, [data[..size]]);
      FlattenOne(data[..size]);
      sent := sent + [data[..size]];
      size := 0;
    }

    /** A piece too large for the staging area goes straight to the socket. */
    method PassOn(piece: seq<byte>)
      requires Valid() && size == 0
      modifies this`sent
      ensures Valid() && Written() == old(Written()) + piece
    {
      hide Flatten;
      assert data[..0] == [];
      FlattenSnoc(sent, piece);
      sent := sent + [piece];
    }

    method Stage(piece: seq<byte>)
      requires Valid() && size + |piece| <= 4096
      modifies this`size, data
      ensures Valid() && Written() == old(Written()) + piece
    {
      hide Flatten;
      forall i | 0 <= i < |piece| {
        data[size + i] := piece[i];
      }
      size := size + |piece|;
      assert data[..size] == old(data[..size]) + piece;
    }

    method Append(piece: seq<byte>)
      requires Valid()
      modifies this, data
      ensures Valid() && Written() == old(Written()) + piece
    {
      hide Flatten;
      if size > 0 && size + |piece| > 4096 {
        Flush();
      }
      if |piece| > 4096 {
        PassOn(piece);
      } else {
        Stage(piece);
      }
    }

    /** The destructor hands over what is still staged. */
    method Finish()
      requires Valid()
      modifies this
      ensures Valid() && Flatten(sent) == old(Written())
    {
      if size > 0 { Flush(); }
      assert data[..0] == [];
    }
  }

  /** The pieces `fill` and the end-of-frame octet hand to an output buffer, in order. */
  method PiecesOf(f: Frame) returns (pieces: seq<seq<byte>>)
    requires WellFormed(f)
    ensures Flatten(pieces) == Wire(f)
  {
    hide Filled, WellFormed;
    var out := new OutBuffer();
    assert out.Bytes() == [];
    FillFrame(out, f);
    if Separated(f) {
      out.Append([206]);
    }
    pieces := out.pieces;
  }

  lemma {:induction false} FlattenPrefix(pieces: seq<seq<byte>>, i: nat)
    requires i < |pieces|
    ensures Flatten(pieces[..i + 1]) == Flatten(pieces[..i]) + pieces[i]
    ensures |Flatten(pieces[..i + 1])| <= |Flatten(pieces)|
  {
    FlattenAppend(pieces[..i], [pieces[i]]);
    FlattenOne(pieces[i]);
    assert pieces[..i + 1] == pieces[..i] + [pieces[i]];
    FlattenAppend(pieces[..i + 1], pieces[i + 1..]);
    assert pieces == pieces[..i + 1] + pieces[i + 1..];
  }

  /** A frame of less than 2^32 octets, copied to memory, fills the buffer it allocated and never runs past it. */
  method Copy(f: Frame) returns (b: CopiedBuffer)
    requires WellFormed(f) && |Wire(f)| < TWO_TO_THE_32
    ensures fresh(b) && fresh(b.data) && b.Valid() && b.size == b.data.Length == TotalSize(f)
    ensures b.Contents() == Wire(f)
  {
    hide Wire, TotalSize;
    var pieces := PiecesOf(f);
    TotalSizeIsExactIff(f);
    b := new CopiedBuffer(TotalSize(f));
    for i := 0 to |pieces|
      invariant fresh(b) && fresh(b.data) && b.Valid() && b.data.Length == TotalSize(f)
      invariant b.Contents() == Flatten(pieces[..i])
    {
      FlattenPrefix(pieces, i);
      b.Append(pieces[i]);
    }
    assert pieces[..|pieces|] == pieces;
  }

  /** A frame passed through reaches the socket as the very same octets. */
  method PassThrough(f: Frame) returns (sent: seq<seq<byte>>)
    requires WellFormed(f)
    ensures Flatten(sent) == Wire(f)
  {
    hide Wire;
    var pieces := PiecesOf(f);
    var b := new PassthroughBuffer();
    for i := 0 to |pieces|
      invariant fresh(b) && fresh(b.data) && b.Valid()
      invariant b.Written() == Flatten(pieces[..i])
    {
      FlattenPrefix(pieces, i);
      b.Append(pieces[i]);
    }
    assert pieces[..|pieces|] == pieces;
    b.Finish();
    sent := b.sent;
  }
}
