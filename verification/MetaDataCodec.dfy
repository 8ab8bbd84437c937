/**
 The content properties of a message: two octets of flags followed by the flagged properties.
 An encoded property list decodes to itself exactly when its unflagged properties hold their
 default and its flagged ones fit; the setters and removers never leave that shape.
 */
module MetaDataCodec {
  import opened Bytes
  import opened Options
  import opened FieldCodec
  import opened FieldTheorems
  import opened FieldStreams

  /* ----- sets of eight booleans ----- */

  function Pow2(n: nat): (p: nat)
    ensures p >= 1
    ensures n == 8 ==> p == 256
  {
    if n == 0 then 1
    else if n == 8 then assert Pow2(6) == 4 * Pow2(4); assert Pow2(4) == 4 * Pow2(2); 2 * Pow2(n - 1)
    else 2 * Pow2(n - 1)
  }

  function BitsToOctet(bits: seq<bool>): (n: nat)
    ensures n < Pow2(|bits|)
  {
    if bits == [] then 0 else (if bits[0] then 1 else 0) + 2 * BitsToOctet(bits[1..])
  }

  function FlagOctet(bits: seq<bool>): byte
    requires |bits| == 8
  {
    BitsToOctet(bits)
  }

  function OctetToBits(n: nat, count: nat): (bits: seq<bool>)
    ensures |bits| == count
  {
    if count == 0 then [] else [n % 2 == 1] + OctetToBits(n / 2, count - 1)
  }

  lemma {:induction false} BitsRoundTrip(bits: seq<bool>)
    ensures OctetToBits(BitsToOctet(bits), |bits|) == bits
  {
    if bits != [] {
      BitsRoundTrip(bits[1..]);
    }
  }

  /* ----- the properties, in the order they have on the wire ----- */

  datatype Kind = Text | Octets | Stamp | Headers

  /** A property: the flag octet and bit that announce it, and its type. */
  datatype Slot = Slot(second: bool, bit: nat, kind: Kind)

  const HEADERS := 2
  const DELIVERY_MODE := 3
  const PRIORITY := 4
  const TIMESTAMP := 9
  const SLOTS: nat := 14

  function Layout(i: nat): (s: Slot)
    requires i < SLOTS
    ensures s.bit < 8
    ensures s.bit == (if i <= 7 then 7 - i else 15 - i) && s.second == (i > 7)
  {
    if i <= 7 then
      Slot(false, 7 - i, if i == HEADERS then Headers else if i == DELIVERY_MODE || i == PRIORITY then Octets else Text)
    else Slot(true, 15 - i, if i == TIMESTAMP then Stamp else Text)
  }

  predicate OfKind(f: Field, kind: Kind) {
    match kind
    case Text => f.ShortString?
    case Octets => f.Number? && f.kind == UOctet
    case Stamp => f.Number? && f.kind == Timestamp
    case Headers => f.Table?
  }

  function Default(kind: Kind): (f: Field)
    ensures OfKind(f, kind) && Valid(f) && Fits(f)
  {
    match kind
    case Text => ShortString([])
    case Octets => Number(UOctet, 0)
    case Stamp => Number(Timestamp, 0)
    case Headers => Table([])
  }

  datatype MetaData = MetaData(bools1: seq<bool>, bools2: seq<bool>, values: seq<Field>) {
    ghost predicate WellFormed() {
      && |bools1| == 8 && |bools2| == 8 && |values| == SLOTS
      && forall i :: 0 <= i < SLOTS ==> OfKind(values[i], Layout(i).kind) && Valid(values[i])
    }

    predicate Has(i: nat)
      requires |bools1| == 8 && |bools2| == 8 && i < SLOTS
    {
      if Layout(i).second then bools2[Layout(i).bit] else bools1[Layout(i).bit]
    }

    /** Every property without a flag holds its default. */
    ghost predicate Canonical()
      requires WellFormed()
    {
      forall i :: 0 <= i < SLOTS && !Has(i) ==> values[i] == Default(Layout(i).kind)
    }

    ghost predicate FlaggedFit()
      requires WellFormed()
    {
      forall i :: 0 <= i < SLOTS && Has(i) ==> Fits(values[i])
    }

    /** The setters: store the value and raise its flag. */
    function Set(i: nat, value: Field): (m: MetaData)
      requires WellFormed() && i < SLOTS && OfKind(value, Layout(i).kind) && Valid(value)
      ensures m.WellFormed() && m.Has(i) && m.values[i] == value
      ensures forall j :: 0 <= j < SLOTS && j != i ==> m.Has(j) == Has(j) && m.values[j] == values[j]
    {
      Flag(i, true).(values := values[i := value])
    }

    /** The removers: restore the default and lower the flag. */
    function Remove(i: nat): (m: MetaData)
      requires WellFormed() && i < SLOTS
      ensures m.WellFormed() && !m.Has(i) && m.values[i] == Default(Layout(i).kind)
      ensures forall j :: 0 <= j < SLOTS && j != i ==> m.Has(j) == Has(j) && m.values[j] == values[j]
    {
      Flag(i, false).(values := values[i := Default(Layout(i).kind)])
    }

    function Flag(i: nat, on: bool): (m: MetaData)
      requires |bools1| == 8 && |bools2| == 8 && i < SLOTS
      ensures |m.bools1| == 8 && |m.bools2| == 8 && m.values == values && m.Has(i) == on
      ensures forall j :: 0 <= j < SLOTS && j != i ==> m.Has(j) == Has(j)
    {
      if Layout(i).second then this.(bools2 := bools2[Layout(i).bit := on])
      else this.(bools1 := bools1[Layout(i).bit := on])
    }
  }

  function Defaults(i: nat): (vs: seq<Field>)
    requires i <= SLOTS
    ensures |vs| == SLOTS - i
    ensures forall j :: 0 <= j < |vs| ==> vs[j] == Default(Layout(i + j).kind)
    decreases SLOTS - i
  {
    if i == SLOTS then [] else [Default(Layout(i).kind)] + Defaults(i + 1)
  }

  function Empty(): (m: MetaData)
    ensures m.WellFormed()
  {
    MetaData(OctetToBits(0, 8), OctetToBits(0, 8), Defaults(0))
  }

  /* ----- encoding ----- */

  function EncodeSlots(m: MetaData, i: nat): seq<byte>
    requires m.WellFormed() && i <= SLOTS
    decreases SLOTS - i
  {
    if i == SLOTS then []
    else (if m.Has(i) then Encode(m.values[i]) else []) + EncodeSlots(m, i + 1)
  }

  function EncodeMeta(m: MetaData): seq<byte>
    requires m.WellFormed()
  {
    [FlagOctet(m.bools1), FlagOctet(m.bools2)] + EncodeSlots(m, 0)
  }

  /* ----- decoding ----- */

  function DecodeValue(b: Buffer, pos: nat, kind: Kind): (r: Decoded<Field>)
    requires pos <= |b.bytes|
    ensures r.Ok? ==> pos <= r.next <= |b.bytes| && OfKind(r.value, kind)
  {
    match kind
    case Text =>
      var s := DecodeShort(b, pos);
      if s.OutOfRange? then OutOfRange else Ok(ShortString(s.value), s.next)
    case Octets =>
      var s := Take(b, pos, 1);
      if s.OutOfRange? then OutOfRange else Ok(Number(UOctet, UOctet.Decode(s.value)), s.next)
    case Stamp =>
      var s := Take(b, pos, 8);
      if s.OutOfRange? then OutOfRange else Ok(Number(Timestamp, Timestamp.Decode(s.value)), s.next)
    case Headers =>
      var t := DecodeTable(b, pos);
      if t.OutOfRange? then OutOfRange else Ok(Table(t.value), t.next)
  }

  function DecodeSlots(b: Buffer, pos: nat, m: MetaData, i: nat): (r: Decoded<MetaData>)
    requires pos <= |b.bytes| && |m.bools1| == 8 && |m.bools2| == 8 && |m.values| == SLOTS && i <= SLOTS
    ensures r.Ok? ==> pos <= r.next <= |b.bytes|
    decreases SLOTS - i
  {
    if i == SLOTS then Ok(m, pos)
    else if m.Has(i) then
      var d := DecodeValue(b, pos, Layout(i).kind);
      if d.OutOfRange? then OutOfRange else DecodeSlots(b, d.next, m.(values := m.values[i := d.value]), i + 1)
    else DecodeSlots(b, pos, m, i + 1)
  }

  function DecodeMeta(b: Buffer, pos: nat): (r: Decoded<MetaData>)
    requires pos <= |b.bytes|
    ensures r.Ok? ==> pos + 2 <= r.next <= |b.bytes|
  {
    var flags := Take(b, pos, 2);
    if flags.OutOfRange? then OutOfRange
    else
      var m := MetaData(OctetToBits(flags.value[0], 8), OctetToBits(flags.value[1], 8), Defaults(0));
      DecodeSlots(b, pos + 2, m, 0)
  }

  method DecodeMetaFrom(frame: InBuffer) returns (r: Option<MetaData>)
    requires frame.Valid()
    modifies frame
    ensures frame.Valid()
    ensures Returns(r, frame.skip, DecodeMeta(frame.buffer, old(frame.skip)))
  {
    hide DecodeSlots, OctetToBits, Defaults;
    var first := frame.NextUint8();
    if first.None? { return None; }
    var second := frame.NextUint8();
    if second.None? { return None; }
    var m := MetaData(OctetToBits(first.value, 8), OctetToBits(second.value, 8), Defaults(0));
    assert Take(frame.buffer, old(frame.skip), 2).Ok?;
    r := DecodeSlotsFrom(frame, m);
  }

  method DecodeSlotsFrom(frame: InBuffer, flags: MetaData) returns (r: Option<MetaData>)
    requires frame.Valid() && |flags.bools1| == 8 && |flags.bools2| == 8 && |flags.values| == SLOTS
    modifies frame
    ensures frame.Valid()
    ensures Returns(r, frame.skip, DecodeSlots(frame.buffer, old(frame.skip), flags, 0))
  {
    hide DecodeValue, Layout, MetaData.Has;
    var m := flags;
    for i := 0 to SLOTS
      invariant frame.Valid() && |m.bools1| == 8 && |m.bools2| == 8 && |m.values| == SLOTS
      invariant DecodeSlots(frame.buffer, old(frame.skip), flags, 0) == DecodeSlots(frame.buffer, frame.skip, m, i)
    {
      if m.Has(i) {
        var value := DecodeValueFrom(frame, Layout(i).kind);
        if value.None? { return None; }
        m := m.(values := m.values[i := value.value]);
      }
    }
    r := Some(m);
  }

  method DecodeValueFrom(frame: InBuffer, kind: Kind) returns (r: Option<Field>)
    requires frame.Valid()
    modifies frame
    ensures frame.Valid()
    ensures Returns(r, frame.skip, DecodeValue(frame.buffer, old(frame.skip), kind))
  {
    match kind
    case Text =>
      var s := frame.NextShortString();
      r := if s.Some? then Some(ShortString(s.value)) else None;
    case Octets =>
      var s := frame.NextData(1);
      r := if s.Some? then Some(Number(UOctet, UOctet.Decode(s.value))) else None;
    case Stamp =>
      var s := frame.NextData(8);
      r := if s.Some? then Some(Number(Timestamp, Timestamp.Decode(s.value))) else None;
    case Headers =>
      var t := DecodeTableFrom(frame);
      r := if t.Some? then Some(Table(t.value)) else None;
  }

  /* ----- the size, summed in the order of the flags ----- */

  function SlotSize(m: MetaData, i: nat): nat
    requires m.WellFormed() && i < SLOTS
  {
    if m.Has(i) then Size(m.values[i]) else 0
  }

  function SlotsSize(m: MetaData, i: nat): nat
    requires m.WellFormed() && i <= SLOTS
    decreases SLOTS - i
  {
    if i == SLOTS then 0 else SlotSize(m, i) + SlotsSize(m, i + 1)
  }

  lemma {:induction false} EncodedSlotsSize(m: MetaData, i: nat)
    requires m.WellFormed() && i <= SLOTS
    ensures |EncodeSlots(m, i)| == SlotsSize(m, i)
    decreases SLOTS - i
  {
    if i < SLOTS {
      EncodedSize(m.values[i]);
      EncodedSlotsSize(m, i + 1);
    }
  }

  function MetaSize(m: MetaData): nat
    requires m.WellFormed()
  {
    2 + SlotsSize(m, 0)
  }

  lemma {:induction false} EncodedMetaSize(m: MetaData)
    requires m.WellFormed()
    ensures |EncodeMeta(m)| == MetaSize(m)
  {
    EncodedSlotsSize(m, 0);
  }

  lemma {:induction false} SlotsSizeStep(m: MetaData, i: nat)
    requires m.WellFormed() && i < SLOTS
    ensures SlotsSize(m, i) == SlotSize(m, i) + SlotsSize(m, i + 1)
  {
  }

  lemma {:induction false} NoSlots(m: MetaData)
    requires m.WellFormed()
    ensures SlotsSize(m, SLOTS) == 0
  {
  }

  lemma {:induction false} WrapAdd(total: nat, n: nat)
    ensures (total % 0x1_0000_0000 + n) % 0x1_0000_0000 == (total + n) % 0x1_0000_0000
  {
  }

  /** `MetaData::size` walks the flags from their lowest bit, against the order of the wire, in 32 bits. */
  method SizeOfMeta(m: MetaData) returns (result: nat)
    requires m.WellFormed()
    ensures result == (2 + SlotsSize(m, 0)) % 0x1_0000_0000
  {
    hide MetaData.WellFormed, SlotsSize, SlotSize, MetaSize;
    result := 2;
    ghost var total: nat := 2;
    var i := 8;
    while i > 0
      invariant i <= 8
      invariant total + SlotsSize(m, 8) == 2 + SlotsSize(m, i) && result == total % 0x1_0000_0000
    {
      i := i - 1;
      SlotsSizeStep(m, i);
      WrapAdd(total, SlotSize(m, i));
      total := total + SlotSize(m, i);
      result := (result + SlotSize(m, i)) % 0x1_0000_0000;
    }
    i := SLOTS;
    NoSlots(m);
    while i > 8
      invariant 8 <= i <= SLOTS
      invariant total + SlotsSize(m, 8) == 2 + SlotsSize(m, 0) + SlotsSize(m, i) && result == total % 0x1_0000_0000
    {
      i := i - 1;
      SlotsSizeStep(m, i);
      WrapAdd(total, SlotSize(m, i));
      total := total + SlotSize(m, i);
      result := (result + SlotSize(m, i)) % 0x1_0000_0000;
    }
  }

  /* ----- round trip ----- */

  lemma {:induction false} WordRoundTrip(kind: NumberKind, v: int, b: Buffer, pos: nat)
    requires kind.InRange(v) && pos <= |b.bytes| && At(b.bytes, pos, kind.Encode(v))
    ensures Take(b, pos, kind.Width()).Ok? && kind.Decode(Take(b, pos, kind.Width()).value) == v
  {
    hide ToBigEndian, FromBigEndian, Pow256, At;
    NumberValueRoundTrip(kind, v);
    TakeAt(b, pos, kind.Encode(v));
  }

  lemma {:induction false} ValueRoundTrip(f: Field, kind: Kind, b: Buffer, pos: nat)
    requires OfKind(f, kind) && Valid(f) && Fits(f) && Size(f) < TWO_TO_THE_32
    requires pos <= |b.bytes| && At(b.bytes, pos, Encode(f))
    ensures DecodeValue(b, pos, kind) == Ok(f, pos + Size(f))
  {
    hide At, DecodeShort, DecodeTable, EncodeShort, EncodeEntries, ToBigEndian, FromBigEndian, Take, NumberKind.Encode,
      NumberKind.Decode, NumberKind.InRange;
    match kind
    case Text => ShortRoundTrip(f.text, b, pos);
    case Octets => WordRoundTrip(UOctet, f.number, b, pos);
    case Stamp => WordRoundTrip(Timestamp, f.number, b, pos);
    case Headers => TableRoundTrip(f.entries, b, pos);
  }

  /** What decoding leaves of a property list: the flagged properties, and defaults elsewhere. */
  ghost predicate AgreesFrom(m: MetaData, n: MetaData, i: nat)
    requires m.WellFormed()
  {
    && n.bools1 == m.bools1 && n.bools2 == m.bools2 && |n.values| == SLOTS
    && (forall j :: 0 <= j < i <= SLOTS && m.Has(j) ==> n.values[j] == m.values[j])
    && (forall j :: 0 <= j < SLOTS && (i <= j || !m.Has(j)) ==> n.values[j] == Default(Layout(j).kind))
  }

  lemma {:induction false} SlotAt(m: MetaData, b: Buffer, pos: nat, i: nat)
    requires m.WellFormed() && i < SLOTS && At(b.bytes, pos, EncodeSlots(m, i))
    ensures m.Has(i) ==> At(b.bytes, pos, Encode(m.values[i]))
    ensures At(b.bytes, pos + SlotSize(m, i), EncodeSlots(m, i + 1)) && pos + SlotSize(m, i) <= |b.bytes|
    ensures m.Has(i) ==> SlotSize(m, i) == Size(m.values[i])
    ensures !m.Has(i) ==> SlotSize(m, i) == 0
  {
    hide At, Layout, OfKind, Valid, Encode, Size, MetaData.Has;
    EncodedSize(m.values[i]);
    var piece := if m.Has(i) then Encode(m.values[i]) else [];
    AtSplit(b.bytes, pos, piece, EncodeSlots(m, i + 1));
    AtBound(b.bytes, pos + |piece|, EncodeSlots(m, i + 1));
  }

  lemma {:induction false} SameFlags(m: MetaData, n: MetaData, i: nat)
    requires |m.bools1| == 8 && |m.bools2| == 8 && n.bools1 == m.bools1 && n.bools2 == m.bools2 && i < SLOTS
    ensures n.Has(i) == m.Has(i)
  {
  }

  /** The list with the next property read, if it is flagged. */
  function NextSlot(m: MetaData, n: MetaData, i: nat): MetaData
    requires |m.bools1| == 8 && |m.bools2| == 8 && |m.values| == SLOTS == |n.values| && i < SLOTS
  {
    if m.Has(i) then n.(values := n.values[i := m.values[i]]) else n
  }

  lemma {:induction false} NextAgrees(m: MetaData, n: MetaData, i: nat)
    requires m.WellFormed() && i < SLOTS && AgreesFrom(m, n, i)
    ensures AgreesFrom(m, NextSlot(m, n, i), i + 1)
  {
    hide Default, OfKind, Valid, Layout, MetaData.Has;
  }

  lemma {:induction false} SlotDecoded(m: MetaData, n: MetaData, b: Buffer, pos: nat, i: nat)
    requires m.WellFormed() && m.FlaggedFit() && i < SLOTS && AgreesFrom(m, n, i)
    requires SlotSize(m, i) < TWO_TO_THE_32
    requires pos <= |b.bytes| && At(b.bytes, pos, EncodeSlots(m, i)) && pos + SlotSize(m, i) <= |b.bytes|
    ensures DecodeSlots(b, pos, n, i) == DecodeSlots(b, pos + SlotSize(m, i), NextSlot(m, n, i), i + 1)
  {
    hide DecodeValue, Default, OfKind, Valid, Fits, Encode, EncodeSlots, Size, Layout, At, MetaData.Has;
    SlotAt(m, b, pos, i);
    SameFlags(m, n, i);
    if m.Has(i) {
      ValueRoundTrip(m.values[i], Layout(i).kind, b, pos);
    }
  }

  lemma {:induction false} SlotsRoundTrip(m: MetaData, n: MetaData, b: Buffer, pos: nat, i: nat)
    requires m.WellFormed() && m.FlaggedFit() && i <= SLOTS && AgreesFrom(m, n, i)
    requires SlotsSize(m, i) < TWO_TO_THE_32
    requires pos <= |b.bytes| && At(b.bytes, pos, EncodeSlots(m, i))
    ensures |n.values| == SLOTS && |n.bools1| == 8 && |n.bools2| == 8 && DecodeSlots(b, pos, n, i).Ok?
    ensures var r := DecodeSlots(b, pos, n, i); r.next == pos + SlotsSize(m, i) && AgreesFrom(m, r.value, SLOTS)
    decreases SLOTS - i
  {
    hide DecodeSlots, EncodeSlots, SlotsSize, SlotSize, NextSlot, MetaData.FlaggedFit, Valid, OfKind, Layout, Default,
      MetaData.Has, At;
    AgreesShape(m, n, i);
    if i == SLOTS {
      SlotsEnd(m, n, b, pos);
    } else {
      SlotAt(m, b, pos, i);
      SlotsSizeStep(m, i);
      NextAgrees(m, n, i);
      SlotDecoded(m, n, b, pos, i);
      SlotsRoundTrip(m, NextSlot(m, n, i), b, pos + SlotSize(m, i), i + 1);
    }
  }

  lemma {:induction false} AgreesShape(m: MetaData, n: MetaData, i: nat)
    requires m.WellFormed() && AgreesFrom(m, n, i)
    ensures |m.bools1| == 8 && |m.bools2| == 8 && |m.values| == SLOTS
    ensures |n.bools1| == 8 && |n.bools2| == 8 && |n.values| == SLOTS
  {
  }

  lemma {:induction false} SlotsEnd(m: MetaData, n: MetaData, b: Buffer, pos: nat)
    requires m.WellFormed() && |n.bools1| == 8 && |n.bools2| == 8 && |n.values| == SLOTS && pos <= |b.bytes|
    ensures DecodeSlots(b, pos, n, SLOTS) == Ok(n, pos) && SlotsSize(m, SLOTS) == 0
  {
  }

  /** Wherever an encoded property list stands, decoding gives its flagged properties and defaults. */
  lemma {:induction false} MetaRoundTripAt(m: MetaData, b: Buffer, pos: nat)
    requires m.WellFormed() && m.FlaggedFit() && MetaSize(m) < TWO_TO_THE_32
    requires At(b.bytes, pos, EncodeMeta(m))
    ensures DecodeMeta(b, pos).Ok?
    ensures var r := DecodeMeta(b, pos); r.next == pos + MetaSize(m) && AgreesFrom(m, r.value, SLOTS)
  {
    hide EncodeSlots, DecodeSlots, BitsToOctet, OctetToBits, Take, At, SlotsSize, Defaults, AgreesFrom, Valid, OfKind,
      Layout, MetaData.FlaggedFit;
    var flags := [FlagOctet(m.bools1), FlagOctet(m.bools2)];
    AtSplit(b.bytes, pos, flags, EncodeSlots(m, 0));
    TakeAt(b, pos, flags);
    BitsRoundTrip(m.bools1);
    BitsRoundTrip(m.bools2);
    var n := MetaData(m.bools1, m.bools2, Defaults(0));
    AtBound(b.bytes, pos + 2, EncodeSlots(m, 0));
    DefaultsAgree(m);
    SlotsRoundTrip(m, n, b, pos + 2, 0);
  }

  lemma {:induction false} DefaultsAgree(m: MetaData)
    requires m.WellFormed()
    ensures |m.bools1| == 8 && |m.bools2| == 8 && AgreesFrom(m, MetaData(m.bools1, m.bools2, Defaults(0)), 0)
  {
    hide OfKind, Valid, Default, Layout;
  }

  lemma {:induction false} AtBound(b: seq<byte>, pos: nat, x: seq<byte>)
    requires At(b, pos, x)
    ensures pos + |x| <= |b|
  {
  }

  lemma {:induction false} AgreementIsEquality(m: MetaData, n: MetaData)
    requires m.WellFormed() && AgreesFrom(m, n, SLOTS)
    ensures n == m <==> m.Canonical()
  {
    hide OfKind, Valid, Default;
    if m.Canonical() {
      forall j | 0 <= j < SLOTS ensures n.values[j] == m.values[j] {
        if m.Has(j) {}
      }
      assert n.values == m.values;
    }
  }

  /* ----- what any decoded property list looks like ----- */

  lemma {:induction false} DecodedValueFits(b: Buffer, pos: nat, kind: Kind)
    requires pos <= |b.bytes|
    ensures DecodeValue(b, pos, kind).Ok? ==>
              var f := DecodeValue(b, pos, kind).value; OfKind(f, kind) && Valid(f) && Fits(f)
  {
    if kind == Headers && Take(b, pos, 4).Ok? {
      EntriesAreWellFormed(b, pos + 4, FromBigEndian(Take(b, pos, 4).value), []);
    }
  }

  /** What a property list read from octets looks like: flagged ones fit, the others hold their default. */
  ghost predicate Readable(m: MetaData) {
    m.WellFormed() && m.Canonical() && m.FlaggedFit()
  }

  ghost predicate ReadUpTo(m: MetaData, i: nat) {
    && m.WellFormed()
    && forall j :: 0 <= j < SLOTS ==>
                     if m.Has(j) && j < i then Fits(m.values[j]) else m.values[j] == Default(Layout(j).kind)
  }

  lemma {:induction false} ReadSlot(m: MetaData, i: nat, value: Field)
    requires ReadUpTo(m, i) && i < SLOTS && m.Has(i) && OfKind(value, Layout(i).kind) && Valid(value) && Fits(value)
    ensures ReadUpTo(m.(values := m.values[i := value]), i + 1)
  {
    hide OfKind, Valid, Fits, Default, Layout;
  }

  lemma {:induction false} SkipSlot(m: MetaData, i: nat)
    requires ReadUpTo(m, i) && i < SLOTS && !m.Has(i)
    ensures ReadUpTo(m, i + 1)
  {
    hide OfKind, Valid, Fits, Default, Layout;
  }

  lemma {:induction false} DecodedSlotsRead(b: Buffer, pos: nat, m: MetaData, i: nat)
    requires pos <= |b.bytes| && |m.bools1| == 8 && |m.bools2| == 8 && |m.values| == SLOTS && i <= SLOTS
    requires ReadUpTo(m, i)
    ensures DecodeSlots(b, pos, m, i).Ok? ==> ReadUpTo(DecodeSlots(b, pos, m, i).value, SLOTS)
    decreases SLOTS - i
  {
    hide DecodeValue, ReadUpTo, OfKind, Valid, Fits;
    if i < SLOTS {
      if m.Has(i) {
        var d := DecodeValue(b, pos, Layout(i).kind);
        DecodedValueFits(b, pos, Layout(i).kind);
        if d.Ok? {
          ReadSlot(m, i, d.value);
          DecodedSlotsRead(b, d.next, m.(values := m.values[i := d.value]), i + 1);
        }
      } else {
        SkipSlot(m, i);
        DecodedSlotsRead(b, pos, m, i + 1);
      }
    }
  }

  lemma {:induction false} NothingRead(bools1: seq<bool>, bools2: seq<bool>)
    requires |bools1| == 8 && |bools2| == 8
    ensures ReadUpTo(MetaData(bools1, bools2, Defaults(0)), 0)
  {
    hide Layout, Default, OfKind, Valid, Fits;
  }

  lemma {:induction false} AllRead(m: MetaData)
    requires ReadUpTo(m, SLOTS)
    ensures Readable(m)
  {
    hide OfKind, Valid, Fits, Default, Layout;
  }

  /** Whatever octets are read, the properties are canonical: one without its flag holds its default. */
  lemma {:induction false} DecodedMetaIsCanonical(b: Buffer, pos: nat)
    requires pos <= |b.bytes| && DecodeMeta(b, pos).Ok?
    ensures Readable(DecodeMeta(b, pos).value)
  {
    hide DecodeSlots, OctetToBits, ReadUpTo, Readable;
    var flags := Take(b, pos, 2);
    var m := MetaData(OctetToBits(flags.value[0], 8), OctetToBits(flags.value[1], 8), Defaults(0));
    NothingRead(m.bools1, m.bools2);
    DecodedSlotsRead(b, pos + 2, m, 0);
    AllRead(DecodeMeta(b, pos).value);
  }

  /** An encoded property list survives, wherever it stands, exactly when it is canonical and its flagged ones fit. */
  lemma {:induction false} MetaRoundTripIffAt(m: MetaData, b: Buffer, pos: nat)
    requires m.WellFormed() && MetaSize(m) < TWO_TO_THE_32
    requires pos <= |b.bytes| && At(b.bytes, pos, EncodeMeta(m))
    ensures DecodeMeta(b, pos) == Ok(m, pos + MetaSize(m)) <==> m.Canonical() && m.FlaggedFit()
    ensures DecodeMeta(b, pos).Ok? && DecodeMeta(b, pos).value == m ==> m.Canonical() && m.FlaggedFit()
  {
    hide EncodeMeta, DecodeMeta, OfKind, Valid, Fits, SlotsSize;
    if m.FlaggedFit() {
      MetaRoundTripAt(m, b, pos);
      AgreementIsEquality(m, DecodeMeta(b, pos).value);
    } else if DecodeMeta(b, pos).Ok? && DecodeMeta(b, pos).value == m {
      DecodedMetaIsCanonical(b, pos);
      assert false;
    }
  }

  lemma {:induction false} MetaRoundTripIff(m: MetaData)
    requires m.WellFormed() && MetaSize(m) < TWO_TO_THE_32
    ensures DecodeMeta(Buffer(EncodeMeta(m)), 0) == Ok(m, MetaSize(m)) <==> m.Canonical() && m.FlaggedFit()
  {
    hide EncodeMeta, DecodeMeta, MetaData.WellFormed, SlotsSize;
    assert At(EncodeMeta(m), 0, EncodeMeta(m));
    MetaRoundTripIffAt(m, Buffer(EncodeMeta(m)), 0);
  }

  /** What was read is written in a form that is read the same again. */
  lemma {:induction false} ReadMetaRoundTrips(b: Buffer, pos: nat, m: MetaData, next: nat)
    requires pos <= |b.bytes| && DecodeMeta(b, pos) == Ok(m, next)
    requires m.WellFormed() ==> MetaSize(m) < TWO_TO_THE_32
    ensures Readable(m) && DecodeMeta(Buffer(EncodeMeta(m)), 0) == Ok(m, MetaSize(m))
  {
    hide EncodeMeta, DecodeMeta, MetaData.WellFormed, MetaData.Canonical, MetaData.FlaggedFit, SlotsSize;
    DecodedMetaIsCanonical(b, pos);
    MetaRoundTripIff(m);
  }

  /* ----- setters and removers over whole runs ----- */

  datatype Edit = SetTo(slot: nat, value: Field) | RemoveAt(slot: nat)

  ghost predicate GoodEdit(e: Edit) {
    e.slot < SLOTS && (e.SetTo? ==> OfKind(e.value, Layout(e.slot).kind) && Valid(e.value) && Fits(e.value))
  }

  ghost function Apply(m: MetaData, edits: seq<Edit>): (r: MetaData)
    requires m.WellFormed() && forall e :: e in edits ==> GoodEdit(e)
    ensures r.WellFormed()
    decreases |edits|
  {
    if edits == [] then m
    else
      assert GoodEdit(edits[0]);
      Apply(match edits[0] case SetTo(i, v) => m.Set(i, v) case RemoveAt(i) => m.Remove(i), edits[1..])
  }

  lemma {:induction false} EditsKeepCanonical(m: MetaData, edits: seq<Edit>)
    requires m.WellFormed() && forall e :: e in edits ==> GoodEdit(e)
    requires m.Canonical() && m.FlaggedFit()
    ensures Apply(m, edits).Canonical() && Apply(m, edits).FlaggedFit()
    decreases |edits|
  {
    hide OfKind, Valid, Fits, MetaData.Has, MetaData.Set, MetaData.Remove;
    if edits != [] {
      assert GoodEdit(edits[0]);
      var m' := match edits[0] case SetTo(i, v) => m.Set(i, v) case RemoveAt(i) => m.Remove(i);
      EditsKeepCanonical(m', edits[1..]);
    }
  }

  /** Properties that only setters and removers have touched always survive the wire. */
  lemma {:induction false} EditedMetaRoundTrips(edits: seq<Edit>)
    requires forall e :: e in edits ==> GoodEdit(e)
    requires MetaSize(Apply(Empty(), edits)) < TWO_TO_THE_32
    ensures var m := Apply(Empty(), edits); DecodeMeta(Buffer(EncodeMeta(m)), 0) == Ok(m, MetaSize(m))
  {
    hide EncodeMeta, DecodeMeta, Apply, GoodEdit, MetaSize, Empty;
    EmptyFits();
    EditsKeepCanonical(Empty(), edits);
    MetaRoundTripIff(Apply(Empty(), edits));
  }

  lemma {:induction false} EmptyFits()
    ensures Empty().Canonical() && Empty().FlaggedFit()
  {
    NothingRead(OctetToBits(0, 8), OctetToBits(0, 8));
    AllUnflagged(Empty());
  }

  lemma {:induction false} AllUnflagged(m: MetaData)
    requires ReadUpTo(m, 0)
    ensures m.Canonical() && m.FlaggedFit()
  {
  }
}
