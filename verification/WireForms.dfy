/**
 The forms on the wire, octet by octet: every tag, number, flag and frame with the values that stand in the
 protocol (sections 4.2.5.5, 4.2.6.1 and 2.3.5 of AMQP 0-9-1), for the reader and for the writer.
 */
module WireForms {
  import opened Bytes
  import opened Options
  import opened FieldCodec
  import opened FieldTheorems

  /* ----- numbers ----- */

  /** The number that stands at an offset, most significant octet first. */
  function ReadAt(b: seq<byte>, pos: nat, width: nat): nat
    requires width in {1, 2, 4, 8} && pos + width <= |b|
  {
    if width == 1 then b[pos]
    else if width == 2 then Two(b[pos], b[pos + 1])
    else if width == 4 then Four(b[pos], b[pos + 1], b[pos + 2], b[pos + 3])
    else Four(b[pos], b[pos + 1], b[pos + 2], b[pos + 3]) * 0x1_0000_0000
         + Four(b[pos + 4], b[pos + 5], b[pos + 6], b[pos + 7])
  }

  /** Two's complement: the first octet has the sign. */
  function ReadSigned(b: seq<byte>, pos: nat, width: nat): int
    requires width in {1, 2, 4, 8} && pos + width <= |b|
  {
    var n := ReadAt(b, pos, width);
    if b[pos] < 128 then n
    else if width == 1 then n - 0x100
    else if width == 2 then n - 0x1_0000
    else if width == 4 then n - 0x1_0000_0000
    else n - 0x1_0000_0000_0000_0000
  }

  lemma {:induction false} EightOctets(s: seq<byte>)
    requires |s| == 8
    ensures FromBigEndian(s) == Four(s[0], s[1], s[2], s[3]) * 0x1_0000_0000 + Four(s[4], s[5], s[6], s[7])
  {
    hide Pow256, FromBigEndian;
    FourOctets(s[0], s[1], s[2], s[3]);
    var t := [s[0], s[1], s[2], s[3]];
    LastOctet(t, s[4]);
    LastOctet(t + [s[4]], s[5]);
    LastOctet(t + [s[4]] + [s[5]], s[6]);
    LastOctet(t + [s[4]] + [s[5]] + [s[6]], s[7]);
    assert s == t + [s[4]] + [s[5]] + [s[6]] + [s[7]];
  }

  lemma {:induction false} OctetsAreRead(b: seq<byte>, pos: nat, width: nat)
    requires width in {1, 2, 4, 8} && pos + width <= |b|
    ensures FromBigEndian(b[pos..pos + width]) == ReadAt(b, pos, width)
  {
    hide FromBigEndian, Two, Four;
    var s := b[pos..pos + width];
    if width == 1 {
      OneOctet(b[pos]);
      assert s == [b[pos]];
    } else if width == 2 {
      TwoOctets(b[pos], b[pos + 1]);
      assert s == [b[pos], b[pos + 1]];
    } else if width == 4 {
      FourOctets(b[pos], b[pos + 1], b[pos + 2], b[pos + 3]);
      assert s == [b[pos], b[pos + 1], b[pos + 2], b[pos + 3]];
    } else {
      EightOctets(s);
    }
  }

  /** The sign is in the first octet. */
  lemma {:induction false} SignIsFirst(b: seq<byte>, pos: nat, width: nat)
    requires width in {1, 2, 4, 8} && pos + width <= |b|
    ensures FromTwosComplement(ReadAt(b, pos, width), width) == ReadSigned(b, pos, width)
  {
  }

  /** What a decoder returns for a number of some width behind the tag. */
  ghost predicate ReadsNumber(b: Buffer, pos: nat, kind: NumberKind, width: nat, signed: bool)
    requires pos < |b.bytes| && width in {1, 2, 4, 8}
  {
    DecodeField(b, pos)
    == if |b.bytes| < pos + 1 + width then OutOfRange
       else Ok(Some(Number(kind, if signed then ReadSigned(b.bytes, pos + 1, width)
                                 else ReadAt(b.bytes, pos + 1, width))),
               pos + 1 + width)
  }

  lemma {:induction false} NumberIsRead(b: Buffer, pos: nat, kind: NumberKind)
    requires pos < |b.bytes| && b.bytes[pos] == kind.Tag()
    ensures ReadsNumber(b, pos, kind, kind.Width(), kind.Signed())
  {
    hide FromBigEndian, FromTwosComplement, ReadAt, ReadSigned;
    if |b.bytes| >= pos + 1 + kind.Width() {
      OctetsAreRead(b.bytes, pos + 1, kind.Width());
      SignIsFirst(b.bytes, pos + 1, kind.Width());
    }
  }

  /** The nine numeric tags: 'b', 'B', 'U', 'u', 'I', 'i', 'L', 'l' and 'T', in any octets at any offset. */
  lemma {:induction false} NumbersOnTheWire(b: Buffer, pos: nat)
    requires pos < |b.bytes|
    ensures b.bytes[pos] == 98 ==> ReadsNumber(b, pos, Octet, 1, true)
    ensures b.bytes[pos] == 66 ==> ReadsNumber(b, pos, UOctet, 1, false)
    ensures b.bytes[pos] == 85 ==> ReadsNumber(b, pos, Short, 2, true)
    ensures b.bytes[pos] == 117 ==> ReadsNumber(b, pos, UShort, 2, false)
    ensures b.bytes[pos] == 73 ==> ReadsNumber(b, pos, Long, 4, true)
    ensures b.bytes[pos] == 105 ==> ReadsNumber(b, pos, ULong, 4, false)
    ensures b.bytes[pos] == 76 ==> ReadsNumber(b, pos, LongLong, 8, true)
    ensures b.bytes[pos] == 108 ==> ReadsNumber(b, pos, ULongLong, 8, false)
    ensures b.bytes[pos] == 84 ==> ReadsNumber(b, pos, Timestamp, 8, false)
  {
    hide ReadsNumber;
    if b.bytes[pos] == 98 { NumberIsRead(b, pos, Octet); }
    if b.bytes[pos] == 66 { NumberIsRead(b, pos, UOctet); }
    if b.bytes[pos] == 85 { NumberIsRead(b, pos, Short); }
    if b.bytes[pos] == 117 { NumberIsRead(b, pos, UShort); }
    if b.bytes[pos] == 73 { NumberIsRead(b, pos, Long); }
    if b.bytes[pos] == 105 { NumberIsRead(b, pos, ULong); }
    if b.bytes[pos] == 76 { NumberIsRead(b, pos, LongLong); }
    if b.bytes[pos] == 108 { NumberIsRead(b, pos, ULongLong); }
    if b.bytes[pos] == 84 { NumberIsRead(b, pos, Timestamp); }
  }

  /* ----- the other tags ----- */

  /** Octets behind the tag and what the field makes of them. */
  ghost predicate ReadsOctets(b: Buffer, pos: nat, start: nat, size: nat, make: seq<byte> -> Field)
    requires pos < |b.bytes|
  {
    DecodeField(b, pos)
    == if |b.bytes| < start + size then OutOfRange else Ok(Some(make(b.bytes[start..start + size])), start + size)
  }

  /** 't', 'f', 'd' and 'V': one octet, four, eight and none. */
  lemma {:induction false} PlainOnTheWire(b: Buffer, pos: nat)
    requires pos < |b.bytes|
    ensures b.bytes[pos] == 116 ==>
              ReadsOctets(b, pos, pos + 1, 1, (s: seq<byte>) => if |s| == 1 then Boolean(s[0]) else Void)
    ensures b.bytes[pos] == 102 ==> ReadsOctets(b, pos, pos + 1, 4, (s: seq<byte>) => Float(s))
    ensures b.bytes[pos] == 100 ==> ReadsOctets(b, pos, pos + 1, 8, (s: seq<byte>) => Double(s))
    ensures b.bytes[pos] == 86 ==> DecodeField(b, pos) == Ok(Some(Void), pos + 1)
  {
  }

  /** 'D': an octet with the places, and four with the digits. */
  lemma {:induction false} DecimalOnTheWire(b: Buffer, pos: nat)
    requires pos < |b.bytes| && b.bytes[pos] == 68
    ensures DecodeField(b, pos)
            == if |b.bytes| < pos + 6 then OutOfRange
               else Ok(Some(Decimal(b.bytes[pos + 1], ReadAt(b.bytes, pos + 2, 4))), pos + 6)
  {
    hide FromBigEndian, ReadAt;
    if |b.bytes| >= pos + 6 {
      OctetsAreRead(b.bytes, pos + 2, 4);
      assert b.bytes[pos + 1..pos + 6][1..] == b.bytes[pos + 2..pos + 6];
    }
  }

  /** 's': a length of one octet, and as many octets of text. */
  lemma {:induction false} ShortStringOnTheWire(b: Buffer, pos: nat)
    requires pos < |b.bytes| && b.bytes[pos] == 115
    ensures |b.bytes| == pos + 1 ==> DecodeField(b, pos) == OutOfRange
    ensures |b.bytes| > pos + 1 ==>
              ReadsOctets(b, pos, pos + 2, b.bytes[pos + 1], (s: seq<byte>) => ShortString(s))
  {
  }

  /** 'S': a length of four octets, and as many octets of text. */
  lemma {:induction false} LongStringOnTheWire(b: Buffer, pos: nat)
    requires pos < |b.bytes| && b.bytes[pos] == 83
    ensures |b.bytes| < pos + 5 ==> DecodeField(b, pos) == OutOfRange
    ensures |b.bytes| >= pos + 5 ==>
              ReadsOctets(b, pos, pos + 5, ReadAt(b.bytes, pos + 1, 4), (s: seq<byte>) => LongString(s))
  {
    hide FromBigEndian, ReadAt;
    if |b.bytes| >= pos + 5 { OctetsAreRead(b.bytes, pos + 1, 4); }
  }

  predicate KnownTag(tag: byte) {
    tag in {98, 66, 85, 117, 73, 105, 76, 108, 84, 116, 102, 100, 68, 115, 83, 65, 70, 86}
  }

  /** Any other tag is no field, and nothing behind it is read. */
  lemma {:induction false} OtherTags(b: Buffer, pos: nat)
    requires pos < |b.bytes| && !KnownTag(b.bytes[pos])
    ensures DecodeField(b, pos) == Ok(None, pos + 1)
  {
  }

  /* ----- arrays and tables ----- */

  /** 'A': a length of four octets, then items of a tag and a value each. */
  lemma {:induction false} ArrayOnTheWire(b: Buffer, pos: nat, items: seq<Field>)
    requires pos + 5 <= |b.bytes| && b.bytes[pos] == 65
    requires ValidItems(items) && FitsItems(items) && ItemsSize(items) < TWO_TO_THE_32
    requires ReadAt(b.bytes, pos + 1, 4) == ItemsSize(items) && At(b.bytes, pos + 5, EncodeItems(items))
    ensures DecodeField(b, pos) == Ok(Some(Array(items)), pos + 5 + ItemsSize(items))
  {
    hide FromBigEndian, ReadAt, ReadItems, EncodeItems, ItemsSize, At;
    OctetsAreRead(b.bytes, pos + 1, 4);
    ItemsRoundTrip(items, [], b, pos + 5);
    assert [] + items == items;
  }

  /**
   'F': a length of four octets, then entries of a name, a tag and a value each, in any order. Every name
   has the value that stands behind it last.
   */
  lemma {:induction false} TableOnTheWire(b: Buffer, pos: nat, es: seq<Entry>, name: seq<byte>)
    requires pos + 5 <= |b.bytes| && b.bytes[pos] == 70
    requires ValidEntries(es) && FitsEntries(es) && EntriesSize(es) < TWO_TO_THE_32
    requires ReadAt(b.bytes, pos + 1, 4) == EntriesSize(es) && At(b.bytes, pos + 5, EncodeEntries(es))
    ensures var r := DecodeField(b, pos);
            && r.Ok? && r.next == pos + 5 + EntriesSize(es) && r.value.Some? && r.value.value.Table?
            && Sorted(r.value.value.entries) && Lookup(r.value.value.entries, name) == LastNamed(es, name)
  {
    hide FromBigEndian, ReadAt, ReadEntries, EncodeEntries, EntriesSize, At, InsertAll, Lookup, LastNamed;
    OctetsAreRead(b.bytes, pos + 1, 4);
    EntriesAreAssigned(es, [], b, pos + 5);
    LastAssignmentWins([], es, name);
    NotFound(name);
  }

  lemma {:induction false} NotFound(name: seq<byte>)
    ensures Lookup([], name) == None
  {
  }

  /* ----- writing ----- */

  /** The octets of a number, most significant first; a negative one in two's complement. */
  function Spell(v: int, width: nat): seq<byte>
    requires width in {1, 2, 4, 8}
    decreases width
  {
    if width == 1 then [v % 0x100]
    else if width == 2 then [v / 0x100 % 0x100, v % 0x100]
    else if width == 4 then [v / 0x100 / 0x100 / 0x100 % 0x100, v / 0x100 / 0x100 % 0x100, v / 0x100 % 0x100, v % 0x100]
    else Spell(v / 0x100 / 0x100 / 0x100 / 0x100, 4) + Spell(v, 4)
  }

  lemma {:induction false} WriteStep(v: nat, width: nat)
    requires width > 0
    ensures ToBigEndian(v, width) == ToBigEndian(v / 0x100, width - 1) + [v % 0x100]
  {
  }

  lemma {:induction false} WrittenFour(v: nat, width: nat)
    requires width >= 4
    ensures ToBigEndian(v, width) == ToBigEndian(v / 0x100 / 0x100 / 0x100 / 0x100, width - 4) + Spell(v, 4)
  {
    hide ToBigEndian;
    WriteStep(v, width);
    WriteStep(v / 0x100, width - 1);
    WriteStep(v / 0x100 / 0x100, width - 2);
    WriteStep(v / 0x100 / 0x100 / 0x100, width - 3);
  }

  lemma {:induction false} NothingWritten(v: nat)
    ensures ToBigEndian(v, 0) == []
  {
  }

  lemma {:induction false} OctetsAreWritten(v: nat, width: nat)
    requires width in {1, 2, 4, 8}
    ensures ToBigEndian(v, width) == Spell(v, width)
  {
    hide ToBigEndian;
    if width == 1 {
      WriteStep(v, 1);
      NothingWritten(v / 0x100);
    } else if width == 2 {
      WriteStep(v, 2);
      WriteStep(v / 0x100, 1);
      NothingWritten(v / 0x100 / 0x100);
    } else {
      WrittenFour(v, width);
      var high := v / 0x100 / 0x100 / 0x100 / 0x100;
      if width == 8 {
        WrittenFour(high, 4);
        NothingWritten(high / 0x100 / 0x100 / 0x100 / 0x100);
      } else {
        NothingWritten(high);
      }
    }
  }

  lemma {:induction false} Complement(v: int, width: nat)
    requires width in {1, 2, 4, 8} && 0 <= v + Pow256(width) && v < 0
    ensures Spell(v + Pow256(width), width) == Spell(v, width)
  {
    if width == 1 {
      Wraps(v, 1);
    } else if width == 2 {
      Wraps(v, 0x100);
      Wraps(v / 0x100, 1);
    } else if width == 4 {
      WrapsFour(v, 1);
    } else {
      WrapsFour(v, 0x1_0000_0000);
      WrapsFour(v / 0x100 / 0x100 / 0x100 / 0x100, 1);
    }
  }

  lemma {:induction false} Wraps(v: int, n: nat)
    ensures (v + n * 0x100) / 0x100 == v / 0x100 + n && (v + n * 0x100) % 0x100 == v % 0x100
  {
  }

  lemma {:induction false} WrapsFour(v: int, n: nat)
    ensures Spell(v + n * 0x1_0000_0000, 4) == Spell(v, 4)
    ensures (v + n * 0x1_0000_0000) / 0x100 / 0x100 / 0x100 / 0x100 == v / 0x100 / 0x100 / 0x100 / 0x100 + n
  {
    Wraps(v, n * 0x100_0000);
    Wraps(v / 0x100, n * 0x1_0000);
    Wraps(v / 0x100 / 0x100, n * 0x100);
    Wraps(v / 0x100 / 0x100 / 0x100, n);
  }

  /** The tag, and the number behind it. */
  ghost predicate Writes(tag: byte, kind: NumberKind, v: int, width: nat)
    requires width in {1, 2, 4, 8}
  {
    Valid(Number(kind, v)) && EncodeTagged(Number(kind, v)) == [tag] + Spell(v, width)
  }

  lemma {:induction false} NumberIsWritten(kind: NumberKind, v: int)
    requires kind.InRange(v)
    ensures Writes(kind.Tag(), kind, v, kind.Width())
  {
    hide ToBigEndian, Spell;
    NumberTagged(kind, v);
    var w := kind.Width();
    OctetsAreWritten(ToTwosComplement(v, w), w);
    if v < 0 { Complement(v, w); }
    assert kind.Encode(v) == Spell(v, w);
  }

  lemma {:induction false} NumberTagged(kind: NumberKind, v: int)
    requires kind.InRange(v)
    ensures Valid(Number(kind, v)) && EncodeTagged(Number(kind, v)) == [kind.Tag()] + kind.Encode(v)
  {
    hide NumberKind.Encode;
  }

  /** 'b', 'U', 'I' and 'L', written. */
  lemma {:induction false} SignedAreWritten(v: int)
    ensures -0x80 <= v < 0x80 ==> Writes(98, Octet, v, 1)
    ensures -0x8000 <= v < 0x8000 ==> Writes(85, Short, v, 2)
    ensures -0x8000_0000 <= v < 0x8000_0000 ==> Writes(73, Long, v, 4)
    ensures -0x8000_0000_0000_0000 <= v < 0x8000_0000_0000_0000 ==> Writes(76, LongLong, v, 8)
  {
    hide Writes;
    if Octet.InRange(v) { NumberIsWritten(Octet, v); }
    if Short.InRange(v) { NumberIsWritten(Short, v); }
    if Long.InRange(v) { NumberIsWritten(Long, v); }
    if LongLong.InRange(v) { NumberIsWritten(LongLong, v); }
  }

  /** 'B', 'u', 'i', 'l' and 'T', written. */
  lemma {:induction false} UnsignedAreWritten(v: nat)
    ensures v < 0x100 ==> Writes(66, UOctet, v, 1)
    ensures v < 0x1_0000 ==> Writes(117, UShort, v, 2)
    ensures v < 0x1_0000_0000 ==> Writes(105, ULong, v, 4)
    ensures v < 0x1_0000_0000_0000_0000 ==> Writes(108, ULongLong, v, 8) && Writes(84, Timestamp, v, 8)
  {
    hide Writes;
    if UOctet.InRange(v) { NumberIsWritten(UOctet, v); }
    if UShort.InRange(v) { NumberIsWritten(UShort, v); }
    if ULong.InRange(v) { NumberIsWritten(ULong, v); }
    if ULongLong.InRange(v) { NumberIsWritten(ULongLong, v); }
    if Timestamp.InRange(v) { NumberIsWritten(Timestamp, v); }
  }

  /** The other fields that nest nothing, written. */
  lemma {:induction false} ScalarsAreWritten(bits: byte, raw: seq<byte>, places: byte, digits: nat, text: seq<byte>)
    requires digits < TWO_TO_THE_32
    ensures EncodeTagged(Boolean(bits)) == [116, bits]
    ensures |raw| == 4 ==> EncodeTagged(Float(raw)) == [102] + raw
    ensures |raw| == 8 ==> EncodeTagged(Double(raw)) == [100] + raw
    ensures EncodeTagged(Decimal(places, digits)) == [68, places] + Spell(digits, 4)
    ensures EncodeTagged(ShortString(text)) == [115, |text| % 0x100] + text
    ensures EncodeTagged(LongString(text)) == [83] + Spell(|text|, 4) + text
    ensures EncodeTagged(Void) == [86]
  {
    hide ToBigEndian, Spell;
    OctetsAreWritten(digits, 4);
    OctetsAreWritten(|text|, 4);
  }

  /** An array: the length of what follows, and its items with their tags, in order. */
  lemma {:induction false} ArrayIsWritten(items: seq<Field>)
    requires ValidItems(items)
    ensures EncodeTagged(Array(items)) == [65] + Spell(|EncodeItems(items)|, 4) + EncodeItems(items)
    ensures EncodeItems([]) == []
    ensures forall i :: 0 <= i < |items| ==> Valid(items[i])
    ensures items != [] ==>
              ValidItems(items[1..]) && EncodeItems(items) == EncodeTagged(items[0]) + EncodeItems(items[1..])
  {
    hide ToBigEndian, Spell;
    EncodedItemsSize(items);
    OctetsAreWritten(ItemsSize(items), 4);
  }

  /** A table: the length of what follows, and for every entry a short string, a tag and a value. */
  lemma {:induction false} TableIsWritten(es: seq<Entry>)
    requires Sorted(es) && ValidEntries(es)
    ensures EncodeTagged(Table(es)) == [70] + Spell(|EncodeEntries(es)|, 4) + EncodeEntries(es)
    ensures EncodeEntries([]) == []
    ensures forall i :: 0 <= i < |es| ==> Valid(es[i].value)
    ensures es != [] ==> ValidEntries(es[1..])
                         && EncodeEntries(es)
                            == [|es[0].name| % 0x100] + es[0].name + EncodeTagged(es[0].value) + EncodeEntries(es[1..])
  {
    hide ToBigEndian, Spell, EncodeTagged;
    EncodedEntriesSize(es);
    OctetsAreWritten(EntriesSize(es), 4);
    TableTagged(es);
  }

  lemma {:induction false} TableTagged(es: seq<Entry>)
    requires Sorted(es) && ValidEntries(es)
    ensures EncodeTagged(Table(es)) == [70] + (ToBigEndian(EntriesSize(es), 4) + EncodeEntries(es))
  {
  }
}
