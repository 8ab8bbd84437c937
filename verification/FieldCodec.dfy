/**
 The field values of AMQP 0-9-1 (section 4.2.5.5): what they are, what they encode to, and
 what decoding arbitrary octets yields. Everything here is a function on values; module
 FieldStreams holds the loops that the program runs and proves them equal to these functions.
 */
module FieldCodec {
  import opened Bytes
  import opened Options

  /** The octets a decoder reads from. */
  datatype Buffer = Buffer(bytes: seq<byte>)

  /** A decoded value and the offset after it, or the "frame out of range" exception. */
  datatype Decoded<+T> = Ok(value: T, next: nat) | OutOfRange

  /* ----- field values ----- */

  datatype NumberKind = Octet | UOctet | Short | UShort | Long | ULong | LongLong | ULongLong | Timestamp {
    function Width(): (w: nat)
      ensures w in {1, 2, 4, 8}
    {
      match this
      case Octet | UOctet => 1
      case Short | UShort => 2
      case Long | ULong => 4
      case LongLong | ULongLong | Timestamp => 8
    }

    predicate Signed() {
      Octet? || Short? || Long? || LongLong?
    }

    function Tag(): byte {
      match this
      case Octet => 98 /* 'b' */
      case UOctet => 66 /* 'B' */
      case Short => 85 /* 'U' */
      case UShort => 117 /* 'u' */
      case Long => 73 /* 'I' */
      case ULong => 105 /* 'i' */
      case LongLong => 76 /* 'L' */
      case ULongLong => 108 /* 'l' */
      case Timestamp => 84 /* 'T' */
    }

    predicate InRange(v: int) {
      if Signed() then 0 <= 2 * v + Pow256(Width()) && 2 * v < Pow256(Width()) else 0 <= v < Pow256(Width())
    }

    function Encode(v: int): seq<byte>
      requires InRange(v)
    {
      ToBigEndian(ToTwosComplement(v, Width()), Width())
    }

    function Decode(s: seq<byte>): (v: int)
      requires |s| == Width()
      ensures InRange(v)
    {
      var u := FromBigEndian(s);
      if Signed() then FromTwosComplement(u, Width()) else u
    }
  }

  datatype Entry = Entry(name: seq<byte>, value: Field)

  /** A table keeps its entries in the order of an ordered map, by name. */
  datatype Field =
    | Boolean(bits: byte)
    | Number(kind: NumberKind, number: int)
    | Float(raw: seq<byte>)
    | Double(raw: seq<byte>)
    | Decimal(places: byte, digits: nat)
    | ShortString(text: seq<byte>)
    | LongString(text: seq<byte>)
    | Array(items: seq<Field>)
    | Table(entries: seq<Entry>)
    | Void

  function Tag(f: Field): byte {
    match f
    case Boolean(_) => 116 /* 't' */
    case Number(kind, _) => kind.Tag()
    case Float(_) => 102 /* 'f' */
    case Double(_) => 100 /* 'd' */
    case Decimal(_, _) => 68 /* 'D' */
    case ShortString(_) => 115 /* 's' */
    case LongString(_) => 83 /* 'S' */
    case Array(_) => 65 /* 'A' */
    case Table(_) => 70 /* 'F' */
    case Void => 86 /* 'V' */
  }

  function KindOf(tag: byte): (k: Option<NumberKind>)
    ensures k.Some? ==> k.value.Tag() == tag
    ensures forall kind: NumberKind :: kind.Tag() == tag ==> k == Some(kind)
  {
    if tag == 98 /* 'b' */ then Some(Octet)
    else if tag == 66 /* 'B' */ then Some(UOctet)
    else if tag == 85 /* 'U' */ then Some(Short)
    else if tag == 117 /* 'u' */ then Some(UShort)
    else if tag == 73 /* 'I' */ then Some(Long)
    else if tag == 105 /* 'i' */ then Some(ULong)
    else if tag == 76 /* 'L' */ then Some(LongLong)
    else if tag == 108 /* 'l' */ then Some(ULongLong)
    else if tag == 84 /* 'T' */ then Some(Timestamp)
    else None
  }

  /* ----- the order of table names ----- */

  predicate Less(a: seq<byte>, b: seq<byte>) {
    b != [] && (a == [] || a[0] < b[0] || (a[0] == b[0] && Less(a[1..], b[1..])))
  }

  lemma {:induction false} LessIsStrictTotalOrder(a: seq<byte>, b: seq<byte>, c: seq<byte>)
    ensures !Less(a, a)
    ensures a == b || Less(a, b) || Less(b, a)
    ensures Less(a, b) && Less(b, c) ==> Less(a, c)
  {
    if a != [] {
      LessIsStrictTotalOrder(a[1..], if b == [] then [] else b[1..], if c == [] then [] else c[1..]);
      if b != [] && a[0] == b[0] && a[1..] == b[1..] {
        assert a == [a[0]] + a[1..] && b == [b[0]] + b[1..];
      }
    }
  }

  /** How many octets two names have in common in front. */
  function Common(a: seq<byte>, b: seq<byte>): (k: nat)
    ensures k <= |a| && k <= |b| && a[..k] == b[..k]
    ensures k < |a| && k < |b| ==> a[k] != b[k]
  {
    if a == [] || b == [] || a[0] != b[0] then 0
    else
      assert forall k: nat :: k <= |a| - 1 && k <= |b| - 1 ==>
               a[..k + 1] == [a[0]] + a[1..][..k] && b[..k + 1] == [b[0]] + b[1..][..k];
      1 + Common(a[1..], b[1..])
  }

  /** The first octet that differs decides, and a name comes before those that continue it. */
  lemma {:induction false} LessAtFirstDifference(a: seq<byte>, b: seq<byte>)
    ensures var k := Common(a, b); Less(a, b) <==> k < |b| && (k == |a| || a[k] < b[k])
  {
    if a != [] && b != [] && a[0] == b[0] { LessAtFirstDifference(a[1..], b[1..]); }
  }

  ghost predicate Sorted(es: seq<Entry>) {
    forall i, j :: 0 <= i < j < |es| ==> Less(es[i].name, es[j].name)
  }

  /** Assignment `_fields[name] = value` on the ordered map. */
  function Insert(es: seq<Entry>, name: seq<byte>, value: Field): (r: seq<Entry>)
  {
    if es == [] then [Entry(name, value)]
    else if es[0].name == name then [Entry(name, value)] + es[1..]
    else if Less(name, es[0].name) then [Entry(name, value)] + es
    else [es[0]] + Insert(es[1..], name, value)
  }

  predicate Has(es: seq<Entry>, name: seq<byte>) {
    exists i :: 0 <= i < |es| && es[i].name == name
  }

  /* ----- well-formed values, and values whose short strings fit their one-octet length ----- */

  ghost predicate Valid(f: Field)
    decreases f, 1
  {
    match f
    case Boolean(_) => true
    case Number(kind, v) => kind.InRange(v)
    case Float(raw) => |raw| == 4
    case Double(raw) => |raw| == 8
    case Decimal(_, digits) => digits < TWO_TO_THE_32
    case ShortString(_) => true
    case LongString(_) => true
    case Array(items) => ValidItems(items)
    case Table(entries) => Sorted(entries) && ValidEntries(entries)
    case Void => true
  }

  ghost predicate ValidItems(items: seq<Field>)
    decreases items, 0
  {
    forall i :: 0 <= i < |items| ==> Valid(items[i])
  }

  ghost predicate ValidEntries(entries: seq<Entry>)
    decreases entries, 0
  {
    forall i :: 0 <= i < |entries| ==> Valid(entries[i].value)
  }

  predicate Fits(f: Field)
    decreases f, 1
  {
    match f
    case ShortString(text) => |text| <= 255
    case Array(items) => FitsItems(items)
    case Table(entries) => FitsEntries(entries)
    case _ => true
  }

  predicate FitsItems(items: seq<Field>)
    decreases items, 0
  {
    forall i :: 0 <= i < |items| ==> Fits(items[i])
  }

  predicate FitsEntries(entries: seq<Entry>)
    decreases entries, 0
  {
    forall i :: 0 <= i < |entries| ==> |entries[i].name| <= 255 && Fits(entries[i].value)
  }

  /* ----- size and encoding ----- */

  function Size(f: Field): (n: nat)
    decreases f, 1
  {
    match f
    case Boolean(_) => 1
    case Number(kind, _) => kind.Width()
    case Float(_) => 4
    case Double(_) => 8
    case Decimal(_, _) => 5
    case ShortString(text) => 1 + |text|
    case LongString(text) => 4 + |text|
    case Array(items) => 4 + ItemsSize(items)
    case Table(entries) => 4 + EntriesSize(entries)
    case Void => 0
  }

  function ItemsSize(items: seq<Field>): nat
    decreases items, 0
  {
    if items == [] then 0 else 1 + Size(items[0]) + ItemsSize(items[1..])
  }

  function EntrySize(e: Entry): nat
    decreases e, 2
  {
    1 + |e.name| + 1 + Size(e.value)
  }

  function EntriesSize(entries: seq<Entry>): nat
    decreases entries, 0
  {
    if entries == [] then 0 else EntrySize(entries[0]) + EntriesSize(entries[1..])
  }

  /** A short string writes its length cast to one octet, and then all of its text. */
  function EncodeShort(text: seq<byte>): seq<byte> {
    [|text| % 256] + text
  }

  function Encode(f: Field): seq<byte>
    requires Valid(f)
    decreases f, 1
  {
    match f
    case Boolean(bits) => [bits]
    case Number(kind, v) => kind.Encode(v)
    case Float(raw) => raw
    case Double(raw) => raw
    case Decimal(places, digits) => [places] + ToBigEndian(digits, 4)
    case ShortString(text) => EncodeShort(text)
    case LongString(text) => ToBigEndian(|text|, 4) + text
    case Array(items) => ToBigEndian(ItemsSize(items), 4) + EncodeItems(items)
    case Table(entries) => ToBigEndian(EntriesSize(entries), 4) + EncodeEntries(entries)
    case Void => []
  }

  function EncodeItems(items: seq<Field>): seq<byte>
    requires ValidItems(items)
    decreases items, 0
  {
    if items == [] then [] else EncodeTagged(items[0]) + EncodeItems(items[1..])
  }

  function EncodeTagged(f: Field): seq<byte>
    requires Valid(f)
    decreases f, 2
  {
    [Tag(f)] + Encode(f)
  }

  function EncodeEntry(e: Entry): seq<byte>
    requires Valid(e.value)
    decreases e, 3
  {
    EncodeShort(e.name) + EncodeTagged(e.value)
  }

  function EncodeEntries(entries: seq<Entry>): seq<byte>
    requires ValidEntries(entries)
    decreases entries, 0
  {
    if entries == [] then []
    else EncodeEntry(entries[0]) + EncodeEntries(entries[1..])
  }

  /** `size()` is the length of what `fill()` writes, for every value, however long. */
  lemma {:induction false} EncodedSize(f: Field)
    requires Valid(f)
    ensures |Encode(f)| == Size(f)
    decreases f, 1
  {
    match f
    case Array(items) => EncodedItemsSize(items);
    case Table(entries) => EncodedEntriesSize(entries);
    case _ =>
  }

  lemma {:induction false} EncodedItemsSize(items: seq<Field>)
    requires ValidItems(items)
    ensures |EncodeItems(items)| == ItemsSize(items)
    decreases items, 0
  {
    if items != [] {
      EncodedSize(items[0]);
      EncodedItemsSize(items[1..]);
    }
  }

  lemma {:induction false} EncodedEntriesSize(entries: seq<Entry>)
    requires ValidEntries(entries)
    ensures |EncodeEntries(entries)| == EntriesSize(entries)
    decreases entries, 0
  {
    if entries != [] {
      EncodedEntrySize(entries[0]);
      EncodedEntriesSize(entries[1..]);
    }
  }

  lemma {:induction false} EncodedEntrySize(e: Entry)
    requires Valid(e.value)
    ensures |EncodeEntry(e)| == EntrySize(e)
    decreases e, 2
  {
    EncodedSize(e.value);
  }

  /* ----- decoding arbitrary octets ----- */

  /** The bounds check in front of every read. */
  function Take(b: Buffer, pos: nat, n: nat): (r: Decoded<seq<byte>>)
    requires pos <= |b.bytes|
    ensures r.Ok? <==> |b.bytes| - pos >= n
    ensures r.Ok? ==> r.next == pos + n && |r.value| == n
  {
    if |b.bytes| - pos >= n then Ok(b.bytes[pos..pos + n], pos + n) else OutOfRange
  }

  function DecodeShort(b: Buffer, pos: nat): (r: Decoded<seq<byte>>)
    requires pos <= |b.bytes|
    ensures r.Ok? ==> |r.value| <= 255 && r.next == pos + 1 + |r.value| <= |b.bytes|
  {
    var length := Take(b, pos, 1);
    if length.OutOfRange? then OutOfRange else Take(b, pos + 1, length.value[0])
  }

  function DecodeLong(b: Buffer, pos: nat): (r: Decoded<seq<byte>>)
    requires pos <= |b.bytes|
    ensures r.Ok? ==> r.next == pos + 4 + |r.value| <= |b.bytes|
  {
    var length := Take(b, pos, 4);
    if length.OutOfRange? then OutOfRange else Take(b, pos + 4, FromBigEndian(length.value))
  }

  /** The fields without nesting; `None` is an unknown tag, for which nothing more is read. */
  function DecodeScalar(b: Buffer, pos: nat, tag: byte): (r: Decoded<Option<Field>>)
    requires pos <= |b.bytes|
    ensures r.Ok? ==> pos <= r.next <= |b.bytes|
    ensures r.Ok? && r.value.Some? ==>
              var f := r.value.value;
              !f.Array? && !f.Table? && Tag(f) == tag && Valid(f) && Fits(f) && r.next == pos + Size(f)
    ensures r.Ok? && r.value.None? ==> r.next == pos
  {
    if KindOf(tag).Some? then
      var kind := KindOf(tag).value;
      var s := Take(b, pos, kind.Width());
      if s.OutOfRange? then OutOfRange else Ok(Some(Number(kind, kind.Decode(s.value))), s.next)
    else if tag == 116 /* 't' */ then
      var s := Take(b, pos, 1);
      if s.OutOfRange? then OutOfRange else Ok(Some(Boolean(s.value[0])), s.next)
    else if tag == 102 /* 'f' */ then
      var s := Take(b, pos, 4);
      if s.OutOfRange? then OutOfRange else Ok(Some(Float(s.value)), s.next)
    else if tag == 100 /* 'd' */ then
      var s := Take(b, pos, 8);
      if s.OutOfRange? then OutOfRange else Ok(Some(Double(s.value)), s.next)
    else if tag == 68 /* 'D' */ then
      var s := Take(b, pos, 5);
      if s.OutOfRange? then OutOfRange else Ok(Some(Decimal(s.value[0], FromBigEndian(s.value[1..]))), s.next)
    else if tag == 115 /* 's' */ then
      var s := DecodeShort(b, pos);
      if s.OutOfRange? then OutOfRange else Ok(Some(ShortString(s.value)), s.next)
    else if tag == 83 /* 'S' */ then
      var s := DecodeLong(b, pos);
      if s.OutOfRange? then OutOfRange else Ok(Some(LongString(s.value)), s.next)
    else if tag == 86 /* 'V' */ then Ok(Some(Void), pos)
    else Ok(None, pos)
  }

  /** A tag octet and the field it announces. */
  function DecodeField(b: Buffer, pos: nat): (r: Decoded<Option<Field>>)
    requires pos <= |b.bytes|
    ensures r.Ok? ==> pos < r.next <= |b.bytes|
    decreases |b.bytes| - pos, 1
  {
    var t := Take(b, pos, 1);
    if t.OutOfRange? then OutOfRange
    else if b.bytes[pos] == 65 /* 'A' */ then
      var r := DecodeArray(b, pos + 1);
      if r.OutOfRange? then OutOfRange else Ok(Some(Array(r.value)), r.next)
    else if b.bytes[pos] == 70 /* 'F' */ then
      var r := DecodeTable(b, pos + 1);
      if r.OutOfRange? then OutOfRange else Ok(Some(Table(r.value)), r.next)
    else DecodeScalar(b, pos + 1, b.bytes[pos])
  }

  function DecodeArray(b: Buffer, pos: nat): (r: Decoded<seq<Field>>)
    requires pos <= |b.bytes|
    ensures r.Ok? ==> pos + 4 <= r.next <= |b.bytes|
    decreases |b.bytes| - pos, 0
  {
    var n := Take(b, pos, 4);
    if n.OutOfRange? then OutOfRange else ReadItems(b, pos + 4, FromBigEndian(n.value), [])
  }

  function DecodeTable(b: Buffer, pos: nat): (r: Decoded<seq<Entry>>)
    requires pos <= |b.bytes|
    ensures r.Ok? ==> pos + 4 <= r.next <= |b.bytes|
    decreases |b.bytes| - pos, 0
  {
    var n := Take(b, pos, 4);
    if n.OutOfRange? then OutOfRange else ReadEntries(b, pos + 4, FromBigEndian(n.value), [])
  }

  /** A subtraction on the unsigned 32-bit counter. */
  function Less32(left: nat, n: nat): (r: nat)
    ensures r < TWO_TO_THE_32
  {
    (left - n) % 0x1_0000_0000
  }

  function ReadItems(b: Buffer, pos: nat, left: nat, acc: seq<Field>): (r: Decoded<seq<Field>>)
    requires pos <= |b.bytes|
    ensures r.Ok? ==> pos <= r.next <= |b.bytes|
    decreases |b.bytes| - pos, 2
  {
    if left == 0 then Ok(acc, pos)
    else
      var d := DecodeField(b, pos);
      if d.OutOfRange? then OutOfRange
      else if d.value.None? then ReadItems(b, d.next, Less32(left, 1), acc)
      else ReadItems(b, d.next, Less32(Less32(left, 1), Size(d.value.value)), acc + [d.value.value])
  }

  function ReadEntries(b: Buffer, pos: nat, left: nat, acc: seq<Entry>): (r: Decoded<seq<Entry>>)
    requires pos <= |b.bytes|
    ensures r.Ok? ==> pos <= r.next <= |b.bytes|
    decreases |b.bytes| - pos, 2
  {
    if left == 0 then Ok(acc, pos)
    else
      var name := DecodeShort(b, pos);
      if name.OutOfRange? then OutOfRange
      else
        var d := DecodeField(b, name.next);
        var left' := Less32(left, 1 + |name.value| + 1);
        if d.OutOfRange? then OutOfRange
        else if d.value.None? then ReadEntries(b, d.next, left', acc)
        else ReadEntries(b, d.next, Less32(left', Size(d.value.value)), Insert(acc, name.value, d.value.value))
  }
}
