/**
 What the field codec guarantees: decoded values are well formed, encoding then decoding gives
 the value back exactly when its short strings fit, and a decoder consumes exactly what the
 length prefix declares when what is nested in it is clean.
 */
module FieldTheorems {
  import opened Bytes
  import opened Options
  import opened FieldCodec

  /* ----- the ordered map ----- */

  /** The names present after an insertion, and where the entries come from. */
  lemma {:induction false} InsertMembers(es: seq<Entry>, name: seq<byte>, value: Field)
    ensures forall e :: e in Insert(es, name, value) ==> e in es || e == Entry(name, value)
    ensures forall e :: e in es && e.name != name ==> e in Insert(es, name, value)
    ensures Entry(name, value) in Insert(es, name, value)
  {
    if es != [] && es[0].name != name && !Less(name, es[0].name) {
      InsertMembers(es[1..], name, value);
      assert es == [es[0]] + es[1..];
    }
  }

  lemma {:induction false} InsertKeepsOrder(es: seq<Entry>, name: seq<byte>, value: Field)
    requires Sorted(es)
    ensures Sorted(Insert(es, name, value))
  {
    var r := Insert(es, name, value);
    if es != [] {
      LessIsStrictTotalOrder(name, es[0].name, []);
      if es[0].name == name {
      } else if Less(name, es[0].name) {
        forall j | 1 <= j < |es| ensures Less(name, es[j].name) {
          LessIsStrictTotalOrder(name, es[0].name, es[j].name);
        }
      } else {
        var rest := Insert(es[1..], name, value);
        InsertKeepsOrder(es[1..], name, value);
        InsertMembers(es[1..], name, value);
        forall i | 0 <= i < |rest| ensures Less(es[0].name, rest[i].name) {
          assert rest[i] in rest;
          if rest[i] in es[1..] {
            var k :| 0 <= k < |es[1..]| && es[1..][k] == rest[i];
            assert es[k + 1] == rest[i];
          }
        }
      }
    }
  }

  lemma {:induction false} HasSplit(es: seq<Entry>, n: seq<byte>)
    requires es != []
    ensures Has(es, n) <==> es[0].name == n || Has(es[1..], n)
  {
    if Has(es, n) && es[0].name != n {
      var i :| 0 <= i < |es| && es[i].name == n;
      assert es[1..][i - 1].name == n;
    }
    if Has(es[1..], n) {
      var i :| 0 <= i < |es[1..]| && es[1..][i].name == n;
      assert es[i + 1].name == n;
    }
  }

  lemma {:induction false} InsertKeepsWellFormed(es: seq<Entry>, name: seq<byte>, value: Field)
    requires Valid(Table(es)) && Fits(Table(es)) && Valid(value) && Fits(value) && |name| <= 255
    ensures Valid(Table(Insert(es, name, value))) && Fits(Table(Insert(es, name, value)))
  {
    InsertKeepsOrder(es, name, value);
    InsertMembers(es, name, value);
    var r := Insert(es, name, value);
    forall i | 0 <= i < |r| ensures Valid(r[i].value) && Fits(r[i].value) && |r[i].name| <= 255 {
      assert r[i] in r;
      if r[i] in es {
        var k :| 0 <= k < |es| && es[k] == r[i];
      }
    }
  }

  lemma {:induction false} InsertLast(es: seq<Entry>, name: seq<byte>, value: Field)
    requires forall i :: 0 <= i < |es| ==> Less(es[i].name, name)
    ensures Insert(es, name, value) == es + [Entry(name, value)]
  {
    if es != [] {
      LessIsStrictTotalOrder(es[0].name, name, es[0].name);
      InsertLast(es[1..], name, value);
    }
  }

  /** The value of a name, if it has one. */
  function Lookup(es: seq<Entry>, name: seq<byte>): Option<Field> {
    if es == [] then None else if es[0].name == name then Some(es[0].value) else Lookup(es[1..], name)
  }

  /** An assignment gives its name the value, and leaves every other name as it is. */
  lemma {:induction false} InsertIsAssignment(es: seq<Entry>, name: seq<byte>, value: Field, other: seq<byte>)
    requires Sorted(es)
    ensures Lookup(Insert(es, name, value), other) == if other == name then Some(value) else Lookup(es, other)
    decreases |es|
  {
    if es != [] {
      if es[0].name == name {
        assert ([Entry(name, value)] + es[1..])[1..] == es[1..];
      } else if Less(name, es[0].name) {
        assert ([Entry(name, value)] + es)[1..] == es;
      } else {
        InsertIsAssignment(es[1..], name, value, other);
        assert ([es[0]] + Insert(es[1..], name, value))[1..] == Insert(es[1..], name, value);
      }
    } else {
      assert Lookup([], other) == None;
    }
  }

  /** Assignments one after the other. */
  function InsertAll(acc: seq<Entry>, es: seq<Entry>): seq<Entry>
    decreases |es|
  {
    if es == [] then acc else InsertAll(Insert(acc, es[0].name, es[0].value), es[1..])
  }

  /** The value a name is assigned last. */
  function LastNamed(es: seq<Entry>, name: seq<byte>): Option<Field> {
    if es == [] then None
    else if es[|es| - 1].name == name then Some(es[|es| - 1].value)
    else LastNamed(es[..|es| - 1], name)
  }

  lemma {:induction false} LastNamedFront(es: seq<Entry>, name: seq<byte>)
    requires es != []
    ensures LastNamed(es, name)
         == if LastNamed(es[1..], name).Some? then LastNamed(es[1..], name)
            else if es[0].name == name then Some(es[0].value) else None
    decreases |es|
  {
    var n := |es| - 1;
    if n == 0 {
      assert es[..0] == [] && LastNamed(es[1..], name) == None && LastNamed([], name) == None;
    } else {
      LastNamedFront(es[..n], name);
      assert es[..n][1..] == es[1..][..n - 1] && es[1..][n - 1] == es[n];
    }
  }

  /** A map that was assigned entries is ordered, and every name has the value it was assigned last. */
  lemma {:induction false} LastAssignmentWins(acc: seq<Entry>, es: seq<Entry>, name: seq<byte>)
    requires Sorted(acc)
    ensures Sorted(InsertAll(acc, es))
    ensures Lookup(InsertAll(acc, es), name)
         == if LastNamed(es, name).Some? then LastNamed(es, name) else Lookup(acc, name)
    decreases |es|
  {
    hide Insert, Lookup, LastNamed, Sorted;
    if es != [] {
      InsertKeepsOrder(acc, es[0].name, es[0].value);
      InsertIsAssignment(acc, es[0].name, es[0].value, name);
      LastAssignmentWins(Insert(acc, es[0].name, es[0].value), es[1..], name);
      LastNamedFront(es, name);
    } else {
      NothingNamed(name);
    }
  }

  lemma {:induction false} NothingNamed(name: seq<byte>)
    ensures LastNamed([], name) == None
  {
  }

  lemma {:induction false} InsertSorted(acc: seq<Entry>, es: seq<Entry>)
    requires Sorted(acc + es)
    ensures InsertAll(acc, es) == acc + es
    decreases |es|
  {
    hide Insert;
    if es == [] {
      assert acc + es == acc;
    } else {
      forall i | 0 <= i < |acc| ensures Less(acc[i].name, es[0].name) {
        assert (acc + es)[i] == acc[i] && (acc + es)[|acc|] == es[0];
      }
      InsertLast(acc, es[0].name, es[0].value);
      assert Entry(es[0].name, es[0].value) == es[0] && acc + [es[0]] + es[1..] == acc + es;
      InsertSorted(acc + [es[0]], es[1..]);
    }
  }

  /* ----- decoded values are well formed ----- */

  lemma {:induction false} DecodedIsWellFormed(b: Buffer, pos: nat)
    requires pos <= |b.bytes|
    ensures var r := DecodeField(b, pos);
            r.Ok? && r.value.Some? ==> Valid(r.value.value) && Fits(r.value.value) && Tag(r.value.value) == b.bytes[pos]
    decreases |b.bytes| - pos, 1
  {
    if pos < |b.bytes| && b.bytes[pos] == 65 /* 'A' */ {
      var n := Take(b, pos + 1, 4);
      if n.Ok? { ItemsAreWellFormed(b, pos + 5, FromBigEndian(n.value), []); }
    } else if pos < |b.bytes| && b.bytes[pos] == 70 /* 'F' */ {
      var n := Take(b, pos + 1, 4);
      if n.Ok? { EntriesAreWellFormed(b, pos + 5, FromBigEndian(n.value), []); }
    }
  }

  lemma {:induction false} ItemsAreWellFormed(b: Buffer, pos: nat, left: nat, acc: seq<Field>)
    requires pos <= |b.bytes|
    requires Valid(Array(acc)) && Fits(Array(acc))
    ensures var r := ReadItems(b, pos, left, acc);
            r.Ok? ==> Valid(Array(r.value)) && Fits(Array(r.value))
    decreases |b.bytes| - pos, 2
  {
    if left > 0 {
      DecodedIsWellFormed(b, pos);
      var d := DecodeField(b, pos);
      if d.Ok? {
        if d.value.None? {
          ItemsAreWellFormed(b, d.next, Less32(left, 1), acc);
        } else {
          ItemsAreWellFormed(b, d.next, Less32(Less32(left, 1), Size(d.value.value)), acc + [d.value.value]);
        }
      }
    }
  }

  lemma {:induction false} EntriesAreWellFormed(b: Buffer, pos: nat, left: nat, acc: seq<Entry>)
    requires pos <= |b.bytes|
    requires Valid(Table(acc)) && Fits(Table(acc))
    ensures var r := ReadEntries(b, pos, left, acc);
            r.Ok? ==> Valid(Table(r.value)) && Fits(Table(r.value))
    decreases |b.bytes| - pos, 2
  {
    if left > 0 {
      var name := DecodeShort(b, pos);
      if name.Ok? {
        DecodedIsWellFormed(b, name.next);
        var d := DecodeField(b, name.next);
        var left' := Less32(left, 1 + |name.value| + 1);
        if d.Ok? {
          if d.value.None? {
            EntriesAreWellFormed(b, d.next, left', acc);
          } else {
            InsertKeepsWellFormed(acc, name.value, d.value.value);
            EntriesAreWellFormed(b, d.next, Less32(left', Size(d.value.value)), Insert(acc, name.value, d.value.value));
          }
        }
      }
    }
  }

  /* ----- round trip ----- */

  lemma {:induction false} EntriesTail(es: seq<Entry>)
    requires ValidEntries(es) && FitsEntries(es) && es != []
    ensures Valid(es[0].value) && Fits(es[0].value) && |es[0].name| <= 255
    ensures ValidEntries(es[1..]) && FitsEntries(es[1..])
  {
    hide Valid, Fits;
  }

  lemma {:induction false} ItemsTail(items: seq<Field>)
    requires ValidItems(items) && FitsItems(items) && items != []
    ensures Valid(items[0]) && Fits(items[0]) && ValidItems(items[1..]) && FitsItems(items[1..])
  {
    hide Valid, Fits;
  }

  lemma {:induction false} TakeAt(b: Buffer, pos: nat, x: seq<byte>)
    requires At(b.bytes, pos, x)
    ensures Take(b, pos, |x|) == Ok(x, pos + |x|)
  {
    assert b.bytes[pos..pos + |x|] == x;
  }

  lemma {:induction false} ShortRoundTrip(text: seq<byte>, b: Buffer, pos: nat)
    requires |text| <= 255 && At(b.bytes, pos, EncodeShort(text))
    ensures DecodeShort(b, pos) == Ok(text, pos + 1 + |text|)
  {
    AtSplit(b.bytes, pos, [|text| % 256], text);
    TakeAt(b, pos, [|text| % 256]);
    TakeAt(b, pos + 1, text);
  }

  lemma {:induction false} LengthRoundTrip(n: nat, body: seq<byte>, b: Buffer, pos: nat)
    requires n < TWO_TO_THE_32 && At(b.bytes, pos, ToBigEndian(n, 4) + body)
    ensures Take(b, pos, 4).Ok? && FromBigEndian(Take(b, pos, 4).value) == n
    ensures At(b.bytes, pos + 4, body)
  {
    AtSplit(b.bytes, pos, ToBigEndian(n, 4), body);
    TakeAt(b, pos, ToBigEndian(n, 4));
    BigEndianRoundTrip(n, 4);
  }

  lemma {:induction false} NumberValueRoundTrip(kind: NumberKind, v: int)
    requires kind.InRange(v)
    ensures |kind.Encode(v)| == kind.Width() && kind.Decode(kind.Encode(v)) == v
  {
    hide ToBigEndian, FromBigEndian;
    BigEndianRoundTrip(ToTwosComplement(v, kind.Width()), kind.Width());
  }

  lemma {:induction false} NumberRoundTrip(kind: NumberKind, v: int, b: Buffer, pos: nat)
    requires kind.InRange(v) && At(b.bytes, pos, kind.Encode(v))
    ensures DecodeScalar(b, pos, kind.Tag()) == Ok(Some(Number(kind, v)), pos + kind.Width())
  {
    hide At, Take, NumberKind.Encode, NumberKind.Decode, NumberKind.InRange, NumberKind.Width, NumberKind.Tag;
    TakeAt(b, pos, kind.Encode(v));
    NumberValueRoundTrip(kind, v);
  }

  lemma {:induction false} DecimalRoundTrip(places: byte, digits: nat, b: Buffer, pos: nat)
    requires digits < TWO_TO_THE_32 && At(b.bytes, pos, [places] + ToBigEndian(digits, 4))
    ensures DecodeScalar(b, pos, 68 /* 'D' */) == Ok(Some(Decimal(places, digits)), pos + 5)
  {
    BigEndianRoundTrip(digits, 4);
    TakeAt(b, pos, [places] + ToBigEndian(digits, 4));
    assert ([places] + ToBigEndian(digits, 4))[1..] == ToBigEndian(digits, 4);
  }

  lemma {:induction false} ShortFieldRoundTrip(text: seq<byte>, b: Buffer, pos: nat)
    requires |text| <= 255 && At(b.bytes, pos, EncodeShort(text))
    ensures DecodeScalar(b, pos, 115 /* 's' */) == Ok(Some(ShortString(text)), pos + 1 + |text|)
  {
    hide EncodeShort, DecodeShort, At;
    ShortRoundTrip(text, b, pos);
  }

  lemma {:induction false} LongRoundTrip(text: seq<byte>, b: Buffer, pos: nat)
    requires |text| < TWO_TO_THE_32 && At(b.bytes, pos, ToBigEndian(|text|, 4) + text)
    ensures DecodeLong(b, pos) == Ok(text, pos + 4 + |text|)
  {
    hide At, FromBigEndian, ToBigEndian;
    LengthRoundTrip(|text|, text, b, pos);
    TakeAt(b, pos + 4, text);
  }

  lemma {:induction false} LongFieldRoundTrip(text: seq<byte>, b: Buffer, pos: nat)
    requires |text| < TWO_TO_THE_32 && At(b.bytes, pos, ToBigEndian(|text|, 4) + text)
    ensures DecodeScalar(b, pos, 83 /* 'S' */) == Ok(Some(LongString(text)), pos + 4 + |text|)
  {
    hide ToBigEndian, DecodeLong, At;
    LongRoundTrip(text, b, pos);
  }

  lemma {:induction false} PlainRoundTrip(f: Field, b: Buffer, pos: nat)
    requires f.Boolean? || f.Float? || f.Double? || f.Void?
    requires Valid(f) && At(b.bytes, pos, Encode(f))
    ensures DecodeScalar(b, pos, Tag(f)) == Ok(Some(f), pos + Size(f))
  {
    hide At, Take;
    TakeAt(b, pos, Encode(f));
  }

  lemma {:induction false} ScalarRoundTrip(f: Field, b: Buffer, pos: nat)
    requires Valid(f) && Fits(f) && Size(f) < TWO_TO_THE_32 && !f.Array? && !f.Table?
    requires At(b.bytes, pos, Encode(f))
    ensures DecodeScalar(b, pos, Tag(f)) == Ok(Some(f), pos + Size(f))
  {
    hide DecodeScalar, At, ToBigEndian, EncodeShort;
    if f.Number? {
      NumberRoundTrip(f.kind, f.number, b, pos);
    } else if f.ShortString? {
      ShortFieldRoundTrip(f.text, b, pos);
    } else if f.LongString? {
      LongFieldRoundTrip(f.text, b, pos);
    } else if f.Decimal? {
      DecimalRoundTrip(f.places, f.digits, b, pos);
    } else {
      PlainRoundTrip(f, b, pos);
    }
  }

  lemma {:induction false} TagAt(f: Field, b: Buffer, pos: nat)
    requires At(b.bytes, pos, [Tag(f)])
    ensures pos < |b.bytes| && b.bytes[pos] == Tag(f)
  {
    assert b.bytes[pos + 0] == [Tag(f)][0];
  }

  /** Wherever an encoded field stands in a buffer, decoding there gives the field back. */
  lemma {:induction false} RoundTripAt(f: Field, b: Buffer, pos: nat)
    requires Valid(f) && Fits(f) && Size(f) < TWO_TO_THE_32
    requires At(b.bytes, pos, EncodeTagged(f))
    ensures DecodeField(b, pos) == Ok(Some(f), pos + 1 + Size(f))
    decreases f, 1
  {
    hide At, ReadItems, ReadEntries, DecodeScalar, Fits;
    AtSplit(b.bytes, pos, [Tag(f)], Encode(f));
    TagAt(f, b, pos);
    if f.Array? {
      ArrayRoundTrip(f.items, b, pos + 1);
    } else if f.Table? {
      TableRoundTrip(f.entries, b, pos + 1);
    } else {
      ScalarRoundTrip(f, b, pos + 1);
    }
  }

  lemma {:induction false} ArrayRoundTrip(items: seq<Field>, b: Buffer, pos: nat)
    requires Valid(Array(items)) && Fits(Array(items)) && ItemsSize(items) < TWO_TO_THE_32
    requires At(b.bytes, pos, ToBigEndian(ItemsSize(items), 4) + EncodeItems(items))
    ensures DecodeArray(b, pos) == Ok(items, pos + 4 + ItemsSize(items))
    decreases items, 2
  {
    hide At, ReadItems, EncodeItems, ToBigEndian, FromBigEndian, ItemsSize;
    LengthRoundTrip(ItemsSize(items), EncodeItems(items), b, pos);
    ItemsRoundTrip(items, [], b, pos + 4);
    assert [] + items == items;
  }

  lemma {:induction false} TableRoundTrip(entries: seq<Entry>, b: Buffer, pos: nat)
    requires Valid(Table(entries)) && Fits(Table(entries)) && EntriesSize(entries) < TWO_TO_THE_32
    requires At(b.bytes, pos, ToBigEndian(EntriesSize(entries), 4) + EncodeEntries(entries))
    ensures DecodeTable(b, pos) == Ok(entries, pos + 4 + EntriesSize(entries))
    decreases entries, 3
  {
    hide At, ReadEntries, EncodeEntries, ToBigEndian, FromBigEndian, EntriesSize;
    LengthRoundTrip(EntriesSize(entries), EncodeEntries(entries), b, pos);
    EntriesRoundTrip(entries, b, pos + 4);
  }

  lemma {:induction false} Less32Exact(left: nat, n: nat)
    requires n <= left < TWO_TO_THE_32
    ensures Less32(left, n) == left - n
  {
  }

  lemma {:induction false} ReadItemsStep(b: Buffer, pos: nat, left: nat, acc: seq<Field>, f: Field, next: nat)
    requires pos <= |b.bytes| && DecodeField(b, pos) == Ok(Some(f), next) && 1 + Size(f) <= left < TWO_TO_THE_32
    ensures ReadItems(b, pos, left, acc) == ReadItems(b, next, left - (1 + Size(f)), acc + [f])
  {
    hide DecodeField, Size;
    Less32Exact(left, 1);
    Less32Exact(left - 1, Size(f));
  }

  lemma {:induction false} ReadEntriesStep(b: Buffer, pos: nat, left: nat, acc: seq<Entry>, e: Entry, next: nat)
    requires pos + 1 + |e.name| <= |b.bytes| && DecodeShort(b, pos) == Ok(e.name, pos + 1 + |e.name|)
    requires DecodeField(b, pos + 1 + |e.name|) == Ok(Some(e.value), next)
    requires EntrySize(e) <= left < TWO_TO_THE_32
    ensures ReadEntries(b, pos, left, acc) == ReadEntries(b, next, left - EntrySize(e), Insert(acc, e.name, e.value))
  {
    hide DecodeField, DecodeShort, Size, Insert;
    Less32Exact(left, 1 + |e.name| + 1);
    Less32Exact(left - (1 + |e.name| + 1), Size(e.value));
  }

  lemma {:induction false} ItemsSplit(items: seq<Field>, b: Buffer, pos: nat, n: nat)
    requires ValidItems(items)
    requires items != [] && n == |EncodeTagged(items[0])| && At(b.bytes, pos, EncodeItems(items))
    ensures At(b.bytes, pos, EncodeTagged(items[0]))
    ensures At(b.bytes, pos + n, EncodeItems(items[1..]))
  {
    AtSplit(b.bytes, pos, EncodeTagged(items[0]), EncodeItems(items[1..]));
  }

  lemma {:induction false} NoItems(b: Buffer, pos: nat, acc: seq<Field>)
    requires pos <= |b.bytes|
    ensures ItemsSize([]) == 0 && ReadItems(b, pos, 0, acc) == Ok(acc, pos)
  {
  }

  lemma {:induction false} FirstItem(items: seq<Field>, acc: seq<Field>, b: Buffer, pos: nat)
    requires ValidItems(items) && FitsItems(items) && items != []
    requires ItemsSize(items) < TWO_TO_THE_32
    requires At(b.bytes, pos, EncodeItems(items))
    ensures At(b.bytes, pos + 1 + Size(items[0]), EncodeItems(items[1..]))
    ensures pos + 1 + Size(items[0]) <= |b.bytes|
    ensures ReadItems(b, pos, ItemsSize(items), acc)
         == ReadItems(b, pos + 1 + Size(items[0]), ItemsSize(items[1..]), acc + [items[0]])
    decreases items, 0
  {
    hide *;
    ItemsTail(items);
    TaggedSize(items[0]);
    ItemsSizeSplit(items);
    ItemsSplit(items, b, pos, 1 + Size(items[0]));
    RoundTripAt(items[0], b, pos);
    ReadItemsStep(b, pos, ItemsSize(items), acc, items[0], pos + 1 + Size(items[0]));
  }

  lemma {:induction false} TaggedSize(f: Field)
    requires Valid(f)
    ensures |EncodeTagged(f)| == 1 + Size(f)
  {
    EncodedSize(f);
  }

  lemma {:induction false} ItemsSizeSplit(items: seq<Field>)
    requires items != []
    ensures ItemsSize(items) == 1 + Size(items[0]) + ItemsSize(items[1..])
  {
  }

  lemma {:induction false} EntriesSizeSplit(es: seq<Entry>)
    requires es != []
    ensures EntriesSize(es) == EntrySize(es[0]) + EntriesSize(es[1..])
  {
  }

  lemma {:induction false} ItemsRoundTrip(items: seq<Field>, acc: seq<Field>, b: Buffer, pos: nat)
    requires ValidItems(items) && FitsItems(items)
    requires ItemsSize(items) < TWO_TO_THE_32
    requires At(b.bytes, pos, EncodeItems(items)) && pos <= |b.bytes|
    ensures ReadItems(b, pos, ItemsSize(items), acc) == Ok(acc + items, pos + ItemsSize(items))
    decreases items, 1
  {
    hide *;
    if items == [] {
      NoItems(b, pos, acc);
      assert acc + items == acc;
    } else {
      ItemsTail(items);
      ItemsSizeSplit(items);
      FirstItem(items, acc, b, pos);
      ItemsRoundTrip(items[1..], acc + [items[0]], b, pos + 1 + Size(items[0]));
      assert acc + [items[0]] + items[1..] == acc + items;
    }
  }

  lemma {:induction false} EntryRoundTrip(e: Entry, b: Buffer, pos: nat)
    requires Valid(e.value) && Fits(e.value) && |e.name| <= 255 && Size(e.value) < TWO_TO_THE_32
    requires At(b.bytes, pos, EncodeEntry(e))
    ensures DecodeShort(b, pos) == Ok(e.name, pos + 1 + |e.name|)
    ensures DecodeField(b, pos + 1 + |e.name|) == Ok(Some(e.value), pos + EntrySize(e))
    decreases e, 2
  {
    AtSplit(b.bytes, pos, EncodeShort(e.name), EncodeTagged(e.value));
    ShortRoundTrip(e.name, b, pos);
    RoundTripAt(e.value, b, pos + 1 + |e.name|);
  }

  /** One entry is read and assigned. */
  lemma {:induction false} EntryStep(e: Entry, left: nat, acc: seq<Entry>, b: Buffer, pos: nat)
    requires Valid(e.value) && Fits(e.value) && |e.name| <= 255
    requires EntrySize(e) <= left < TWO_TO_THE_32
    requires At(b.bytes, pos, EncodeEntry(e))
    ensures pos + EntrySize(e) <= |b.bytes|
    ensures ReadEntries(b, pos, left, acc)
         == ReadEntries(b, pos + EntrySize(e), left - EntrySize(e), Insert(acc, e.name, e.value))
    decreases e, 3
  {
    hide ReadEntries, DecodeField, DecodeShort, Insert, Encode;
    EntryRoundTrip(e, b, pos);
    ReadEntriesStep(b, pos, left, acc, e, pos + EntrySize(e));
  }

  lemma {:induction false} EntriesSplit(es: seq<Entry>, b: Buffer, pos: nat, n: nat)
    requires ValidEntries(es)
    requires es != [] && n == |EncodeEntry(es[0])| && At(b.bytes, pos, EncodeEntries(es))
    ensures At(b.bytes, pos, EncodeEntry(es[0]))
    ensures At(b.bytes, pos + n, EncodeEntries(es[1..]))
  {
    AtSplit(b.bytes, pos, EncodeEntry(es[0]), EncodeEntries(es[1..]));
  }

  lemma {:induction false} NoEntries(b: Buffer, pos: nat, acc: seq<Entry>)
    requires pos <= |b.bytes|
    ensures EntriesSize([]) == 0 && ReadEntries(b, pos, 0, acc) == Ok(acc, pos)
  {
  }

  lemma {:induction false} FirstEntry(es: seq<Entry>, acc: seq<Entry>, b: Buffer, pos: nat)
    requires ValidEntries(es) && FitsEntries(es) && es != []
    requires EntriesSize(es) < TWO_TO_THE_32
    requires At(b.bytes, pos, EncodeEntries(es))
    ensures At(b.bytes, pos + EntrySize(es[0]), EncodeEntries(es[1..]))
    ensures pos + EntrySize(es[0]) <= |b.bytes|
    ensures ReadEntries(b, pos, EntriesSize(es), acc)
         == ReadEntries(b, pos + EntrySize(es[0]), EntriesSize(es[1..]), Insert(acc, es[0].name, es[0].value))
    decreases es, 0
  {
    hide *;
    EntriesTail(es);
    EntriesSizeSplit(es);
    EncodedEntrySize(es[0]);
    EntriesSplit(es, b, pos, EntrySize(es[0]));
    EntryStep(es[0], EntriesSize(es), acc, b, pos);
  }

  /** Entries that are read in any order, names repeated or not, are assigned one after the other. */
  lemma {:induction false} EntriesAreAssigned(es: seq<Entry>, acc: seq<Entry>, b: Buffer, pos: nat)
    requires ValidEntries(es) && FitsEntries(es)
    requires EntriesSize(es) < TWO_TO_THE_32
    requires At(b.bytes, pos, EncodeEntries(es)) && pos <= |b.bytes|
    ensures ReadEntries(b, pos, EntriesSize(es), acc) == Ok(InsertAll(acc, es), pos + EntriesSize(es))
    decreases es, 1
  {
    hide *;
    InsertStep(acc, es);
    if es == [] {
      NoEntries(b, pos, acc);
    } else {
      EntriesTail(es);
      EntriesSizeSplit(es);
      FirstEntry(es, acc, b, pos);
      EntriesAreAssigned(es[1..], Insert(acc, es[0].name, es[0].value), b, pos + EntrySize(es[0]));
    }
  }

  lemma {:induction false} InsertStep(acc: seq<Entry>, es: seq<Entry>)
    ensures InsertAll(acc, es)
         == if es == [] then acc else InsertAll(Insert(acc, es[0].name, es[0].value), es[1..])
  {
  }

  /** What is written in the order of the map is read back as it was. */
  lemma {:induction false} EntriesRoundTrip(es: seq<Entry>, b: Buffer, pos: nat)
    requires ValidEntries(es) && FitsEntries(es) && Sorted(es)
    requires EntriesSize(es) < TWO_TO_THE_32
    requires At(b.bytes, pos, EncodeEntries(es)) && pos <= |b.bytes|
    ensures ReadEntries(b, pos, EntriesSize(es), []) == Ok(es, pos + EntriesSize(es))
    decreases es, 2
  {
    hide ReadEntries, EncodeEntries, EntriesSize, At, InsertAll, Valid, Fits;
    EntriesAreAssigned(es, [], b, pos);
    assert [] + es == es;
    InsertSorted([], es);
  }

  /** The round trip holds exactly for the values whose short strings fit one length octet. */
  lemma {:induction false} RoundTripIffFits(f: Field)
    requires Valid(f) && Size(f) < TWO_TO_THE_32
    ensures DecodeField(Buffer(EncodeTagged(f)), 0) == Ok(Some(f), 1 + Size(f)) <==> Fits(f)
  {
    var b := Buffer(EncodeTagged(f));
    EncodedSize(f);
    if Fits(f) {
      assert At(b.bytes, 0, b.bytes);
      RoundTripAt(f, b, 0);
    }
    DecodedIsWellFormed(b, 0);
  }

  /* ----- exact consumption ----- */

  /** No repeated names and no unknown tags, in the field at `pos` or in what is nested in it. */
  ghost predicate Clean(b: Buffer, pos: nat)
    requires pos <= |b.bytes| && DecodeField(b, pos).Ok?
    decreases |b.bytes| - pos, 1
  {
    if b.bytes[pos] == 65 /* 'A' */ then
      assert DecodeArray(b, pos + 1).Ok?;
      ItemsClean(b, pos + 5, FromBigEndian(Take(b, pos + 1, 4).value), [], true)
    else if b.bytes[pos] == 70 /* 'F' */ then
      assert DecodeTable(b, pos + 1).Ok?;
      EntriesClean(b, pos + 5, FromBigEndian(Take(b, pos + 1, 4).value), [], true)
    else DecodeField(b, pos).value.Some?
  }

  /** `strict` asks for the array itself to be clean, otherwise only for what is nested in it. */
  ghost predicate ItemsClean(b: Buffer, pos: nat, left: nat, acc: seq<Field>, strict: bool)
    requires pos <= |b.bytes| && ReadItems(b, pos, left, acc).Ok?
    decreases |b.bytes| - pos, 2
  {
    left > 0 ==>
      var d := DecodeField(b, pos);
      if d.value.None? then !strict && ItemsClean(b, d.next, Less32(left, 1), acc, strict)
      else
        && Clean(b, pos)
        && ItemsClean(b, d.next, Less32(Less32(left, 1), Size(d.value.value)), acc + [d.value.value], strict)
  }

  ghost predicate EntriesClean(b: Buffer, pos: nat, left: nat, acc: seq<Entry>, strict: bool)
    requires pos <= |b.bytes| && ReadEntries(b, pos, left, acc).Ok?
    decreases |b.bytes| - pos, 2
  {
    left > 0 ==>
      var name := DecodeShort(b, pos);
      var d := DecodeField(b, name.next);
      var left' := Less32(left, 1 + |name.value| + 1);
      if d.value.None? then !strict && EntriesClean(b, d.next, left', acc, strict)
      else
        && Clean(b, name.next)
        && (strict ==> !Has(acc, name.value))
        && EntriesClean(b, d.next, Less32(left', Size(d.value.value)), Insert(acc, name.value, d.value.value), strict)
  }

  /** What the loop subtracts from its counter in total, without the wrap-around. */
  ghost function ItemsTotal(b: Buffer, pos: nat, left: nat, acc: seq<Field>): nat
    requires pos <= |b.bytes| && ReadItems(b, pos, left, acc).Ok?
    decreases |b.bytes| - pos
  {
    if left == 0 then 0
    else
      var d := DecodeField(b, pos);
      if d.value.None? then 1 + ItemsTotal(b, d.next, Less32(left, 1), acc)
      else 1 + Size(d.value.value)
           + ItemsTotal(b, d.next, Less32(Less32(left, 1), Size(d.value.value)), acc + [d.value.value])
  }

  ghost function EntriesTotal(b: Buffer, pos: nat, left: nat, acc: seq<Entry>): nat
    requires pos <= |b.bytes| && ReadEntries(b, pos, left, acc).Ok?
    decreases |b.bytes| - pos
  {
    if left == 0 then 0
    else
      var name := DecodeShort(b, pos);
      var d := DecodeField(b, name.next);
      var left' := Less32(left, 1 + |name.value| + 1);
      if d.value.None? then 1 + |name.value| + 1 + EntriesTotal(b, d.next, left', acc)
      else 1 + |name.value| + 1 + Size(d.value.value)
           + EntriesTotal(b, d.next, Less32(left', Size(d.value.value)), Insert(acc, name.value, d.value.value))
  }

  lemma {:induction false} Less32Twice(left: nat, a: nat, n: nat)
    ensures Less32(Less32(left, a), n) == Less32(left, a + n)
  {
    var q := (left - a) / TWO_TO_THE_32;
    var x := left - a - n;
    assert Less32(left, a) - n == x - q * TWO_TO_THE_32;
    assert (x - q * TWO_TO_THE_32) % TWO_TO_THE_32 == x % TWO_TO_THE_32;
  }

  lemma {:induction false} NothingCounted()
    ensures Less32(0, 0) == 0
  {
  }

  lemma {:induction false} ItemsTotalIsCounter(b: Buffer, pos: nat, left: nat, acc: seq<Field>)
    requires pos <= |b.bytes| && ReadItems(b, pos, left, acc).Ok? && left < TWO_TO_THE_32
    ensures Less32(left, ItemsTotal(b, pos, left, acc)) == 0
    decreases |b.bytes| - pos
  {
    hide DecodeField, Size, Less32;
    NothingCounted();
    if left > 0 {
      var d := DecodeField(b, pos);
      if d.value.None? {
        ItemsTotalIsCounter(b, d.next, Less32(left, 1), acc);
        Less32Twice(left, 1, ItemsTotal(b, d.next, Less32(left, 1), acc));
      } else {
        var n := Size(d.value.value);
        Less32Twice(left, 1, n);
        ItemsTotalIsCounter(b, d.next, Less32(left, 1 + n), acc + [d.value.value]);
        Less32Twice(left, 1 + n, ItemsTotal(b, d.next, Less32(left, 1 + n), acc + [d.value.value]));
      }
    }
  }

  lemma {:induction false} EntriesTotalIsCounter(b: Buffer, pos: nat, left: nat, acc: seq<Entry>)
    requires pos <= |b.bytes| && ReadEntries(b, pos, left, acc).Ok? && left < TWO_TO_THE_32
    ensures Less32(left, EntriesTotal(b, pos, left, acc)) == 0
    decreases |b.bytes| - pos
  {
    hide DecodeField, DecodeShort, Size, Less32, Insert;
    NothingCounted();
    if left > 0 {
      var name := DecodeShort(b, pos);
      var d := DecodeField(b, name.next);
      var h := 1 + |name.value| + 1;
      if d.value.None? {
        EntriesTotalIsCounter(b, d.next, Less32(left, h), acc);
        Less32Twice(left, h, EntriesTotal(b, d.next, Less32(left, h), acc));
      } else {
        var n, acc' := Size(d.value.value), Insert(acc, name.value, d.value.value);
        Less32Twice(left, h, n);
        EntriesTotalIsCounter(b, d.next, Less32(left, h + n), acc');
        Less32Twice(left, h + n, EntriesTotal(b, d.next, Less32(left, h + n), acc'));
      }
    }
  }

  /** Inserting adds the size of the entry, unless it replaces one. */
  lemma {:induction false} InsertSize(es: seq<Entry>, name: seq<byte>, value: Field)
    requires Sorted(es)
    ensures EntriesSize(Insert(es, name, value)) <= EntriesSize(es) + 1 + |name| + 1 + Size(value)
    ensures EntriesSize(Insert(es, name, value)) == EntriesSize(es) + 1 + |name| + 1 + Size(value) <==> !Has(es, name)
  {
    if es != [] {
      HasSplit(es, name);
      if es[0].name == name {
        assert ([Entry(name, value)] + es[1..])[1..] == es[1..];
      } else if Less(name, es[0].name) {
        assert ([Entry(name, value)] + es)[1..] == es;
        if Has(es, name) {
          var i :| 0 <= i < |es| && es[i].name == name;
          LessIsStrictTotalOrder(name, es[0].name, name);
          LessIsStrictTotalOrder(name, name, name);
        }
      } else {
        InsertSize(es[1..], name, value);
        assert ([es[0]] + Insert(es[1..], name, value))[1..] == Insert(es[1..], name, value);
      }
    }
  }

  /** A decoded field reports at most the octets it was read from, and exactly those when it is clean. */
  lemma {:induction false} SizeIffClean(b: Buffer, pos: nat)
    requires pos <= |b.bytes| < TWO_TO_THE_32
    requires DecodeField(b, pos).Ok?
    ensures var d := DecodeField(b, pos);
            && (Clean(b, pos) ==> d.value.Some?)
            && (d.value.Some? ==>
                  && 1 + Size(d.value.value) <= d.next - pos
                  && (1 + Size(d.value.value) == d.next - pos <==> Clean(b, pos)))
    decreases |b.bytes| - pos, 1
  {
    var d := DecodeField(b, pos);
    if b.bytes[pos] == 65 /* 'A' */ {
      var left := FromBigEndian(Take(b, pos + 1, 4).value);
      ItemsSized(b, pos + 5, left, []);
      assert ItemsSize([]) == 0;
    } else if b.bytes[pos] == 70 /* 'F' */ {
      var left := FromBigEndian(Take(b, pos + 1, 4).value);
      EntriesSized(b, pos + 5, left, []);
      assert EntriesSize([]) == 0;
    }
  }

  lemma {:induction false} ItemsSizeAppend(items: seq<Field>, f: Field)
    ensures ItemsSize(items + [f]) == ItemsSize(items) + 1 + Size(f)
  {
    if items == [] {
      assert items + [f] == [f];
    } else {
      ItemsSizeAppend(items[1..], f);
      assert (items + [f])[1..] == items[1..] + [f];
    }
  }

  /** What the loop counts is at most what it reads, and the same when what is nested is clean. */
  lemma {:induction false} ItemsCounted(b: Buffer, pos: nat, left: nat, acc: seq<Field>)
    requires pos <= |b.bytes| < TWO_TO_THE_32 && ReadItems(b, pos, left, acc).Ok?
    ensures var r, total := ReadItems(b, pos, left, acc), ItemsTotal(b, pos, left, acc);
            total <= r.next - pos && (total == r.next - pos <==> ItemsClean(b, pos, left, acc, false))
    decreases |b.bytes| - pos
  {
    hide DecodeField, Size, Less32, Clean;
    if left > 0 {
      SizeIffClean(b, pos);
      var d := DecodeField(b, pos);
      if d.value.None? {
        ItemsCounted(b, d.next, Less32(left, 1), acc);
        UnknownTagIsOneOctet(b, pos);
      } else {
        ItemsCounted(b, d.next, Less32(Less32(left, 1), Size(d.value.value)), acc + [d.value.value]);
      }
    }
  }

  /** What the items report is at most what was read, and the same when all is clean. */
  lemma {:induction false} ItemsSized(b: Buffer, pos: nat, left: nat, acc: seq<Field>)
    requires pos <= |b.bytes| < TWO_TO_THE_32 && ReadItems(b, pos, left, acc).Ok?
    ensures var r := ReadItems(b, pos, left, acc);
            && ItemsSize(r.value) - ItemsSize(acc) <= r.next - pos
            && (ItemsSize(r.value) - ItemsSize(acc) == r.next - pos <==> ItemsClean(b, pos, left, acc, true))
    decreases |b.bytes| - pos, 2
  {
    hide DecodeField, Size, Less32, Clean, ItemsSize;
    if left > 0 {
      SizeIffClean(b, pos);
      var d := DecodeField(b, pos);
      if d.value.None? {
        ItemsSized(b, d.next, Less32(left, 1), acc);
        UnknownTagIsOneOctet(b, pos);
      } else {
        ItemsSizeAppend(acc, d.value.value);
        ItemsSized(b, d.next, Less32(Less32(left, 1), Size(d.value.value)), acc + [d.value.value]);
      }
    }
  }

  lemma {:induction false} UnknownTagIsOneOctet(b: Buffer, pos: nat)
    requires pos <= |b.bytes| && DecodeField(b, pos).Ok? && DecodeField(b, pos).value.None?
    ensures DecodeField(b, pos).next == pos + 1
  {
  }

  lemma {:induction false} EntriesCounted(b: Buffer, pos: nat, left: nat, acc: seq<Entry>)
    requires pos <= |b.bytes| < TWO_TO_THE_32 && ReadEntries(b, pos, left, acc).Ok?
    ensures var r, total := ReadEntries(b, pos, left, acc), EntriesTotal(b, pos, left, acc);
            total <= r.next - pos && (total == r.next - pos <==> EntriesClean(b, pos, left, acc, false))
    decreases |b.bytes| - pos
  {
    hide DecodeField, DecodeShort, Size, Less32, Clean, Insert, Has;
    if left > 0 {
      var name := DecodeShort(b, pos);
      SizeIffClean(b, name.next);
      var d := DecodeField(b, name.next);
      var left' := Less32(left, 1 + |name.value| + 1);
      if d.value.None? {
        EntriesCounted(b, d.next, left', acc);
        UnknownTagIsOneOctet(b, name.next);
      } else {
        EntriesCounted(b, d.next, Less32(left', Size(d.value.value)), Insert(acc, name.value, d.value.value));
      }
    }
  }

  lemma {:induction false} EntriesSized(b: Buffer, pos: nat, left: nat, acc: seq<Entry>)
    requires pos <= |b.bytes| < TWO_TO_THE_32 && ReadEntries(b, pos, left, acc).Ok? && Sorted(acc)
    ensures var r := ReadEntries(b, pos, left, acc);
            && EntriesSize(r.value) - EntriesSize(acc) <= r.next - pos
            && (EntriesSize(r.value) - EntriesSize(acc) == r.next - pos <==> EntriesClean(b, pos, left, acc, true))
    decreases |b.bytes| - pos, 2
  {
    hide DecodeField, DecodeShort, Size, Less32, Clean, Insert, Has, EntriesSize, Sorted;
    if left > 0 {
      var name := DecodeShort(b, pos);
      SizeIffClean(b, name.next);
      var d := DecodeField(b, name.next);
      var left' := Less32(left, 1 + |name.value| + 1);
      if d.value.None? {
        EntriesSized(b, d.next, left', acc);
        UnknownTagIsOneOctet(b, name.next);
      } else {
        InsertSize(acc, name.value, d.value.value);
        InsertKeepsOrder(acc, name.value, d.value.value);
        EntriesSized(b, d.next, Less32(left', Size(d.value.value)), Insert(acc, name.value, d.value.value));
      }
    }
  }

  lemma {:induction false} CounterIsTotal(left: nat, total: nat)
    requires left < TWO_TO_THE_32 && total < TWO_TO_THE_32 && Less32(left, total) == 0
    ensures total == left
  {
  }

  /** An array that decodes consumed its declared length exactly when what is nested in it is clean. */
  lemma {:induction false} ArrayConsumesDeclaredIffClean(b: Buffer, pos: nat)
    requires pos <= |b.bytes| < TWO_TO_THE_32 && DecodeArray(b, pos).Ok?
    ensures var declared := FromBigEndian(b.bytes[pos..pos + 4]);
            && 4 + declared <= DecodeArray(b, pos).next - pos
            && (4 + declared == DecodeArray(b, pos).next - pos <==> ItemsClean(b, pos + 4, declared, [], false))
  {
    hide ItemsClean, ReadItems, ItemsTotal, FromBigEndian, Less32;
    var declared := FromBigEndian(b.bytes[pos..pos + 4]);
    ItemsCounted(b, pos + 4, declared, []);
    ItemsTotalIsCounter(b, pos + 4, declared, []);
    CounterIsTotal(declared, ItemsTotal(b, pos + 4, declared, []));
  }

  /** The same for a table: repeated names or unknown tags at its own level do no harm. */
  lemma {:induction false} TableConsumesDeclaredIffClean(b: Buffer, pos: nat)
    requires pos <= |b.bytes| < TWO_TO_THE_32 && DecodeTable(b, pos).Ok?
    ensures var declared := FromBigEndian(b.bytes[pos..pos + 4]);
            && 4 + declared <= DecodeTable(b, pos).next - pos
            && (4 + declared == DecodeTable(b, pos).next - pos <==> EntriesClean(b, pos + 4, declared, [], false))
  {
    hide EntriesClean, ReadEntries, EntriesTotal, FromBigEndian, Less32;
    var declared := FromBigEndian(b.bytes[pos..pos + 4]);
    EntriesCounted(b, pos + 4, declared, []);
    EntriesTotalIsCounter(b, pos + 4, declared, []);
    CounterIsTotal(declared, EntriesTotal(b, pos + 4, declared, []));
  }
}
