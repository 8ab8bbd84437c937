/**
 The field codec as the program runs it: reads that advance the offset of a shared input
 buffer, decode loops driven by an unsigned 32-bit counter, and `fill` loops that append to an
 output buffer. Every method is proved equal to the function of module FieldCodec it carries out.
 */
module FieldStreams {
  import opened Bytes
  import opened Options
  import opened FieldCodec

  /** What a read reports: the value and the new offset, or nothing when the read throws. */
  ghost predicate Returns<T>(r: Option<T>, skip: nat, d: Decoded<T>) {
    match d
    case Ok(value, next) => r == Some(value) && skip == next
    case OutOfRange => r == None
  }

  class InBuffer {
    const buffer: Buffer
    var skip: nat

    ghost predicate Valid()
      reads this
    {
      skip <= |buffer.bytes|
    }

    constructor (buffer: Buffer)
      ensures Valid() && this.buffer == buffer && skip == 0
    {
      this.buffer := buffer;
      skip := 0;
    }

    /** The bounds check, the copy, and the advance of the offset. */
    method NextData(size: nat) returns (r: Option<seq<byte>>)
      requires Valid()
      modifies this
      ensures Valid()
      ensures Returns(r, skip, Take(buffer, old(skip), size))
    {
      if |buffer.bytes| - skip >= size {
        r := Some(buffer.bytes[skip..skip + size]);
        skip := skip + size;
      } else {
        r := None;
      }
    }

    method NextUint8() returns (r: Option<byte>)
      requires Valid()
      modifies this
      ensures Valid()
      ensures r.Some? <==> old(skip) < |buffer.bytes|
      ensures r.Some? ==> r.value == buffer.bytes[old(skip)] && skip == old(skip) + 1
    {
      var data := NextData(1);
      r := if data.Some? then Some(data.value[0]) else None;
    }

    method NextUint32() returns (r: Option<nat>)
      requires Valid()
      modifies this
      ensures Valid()
      ensures r.Some? <==> |buffer.bytes| - old(skip) >= 4
      ensures r.Some? ==> skip == old(skip) + 4 && r.value == FromBigEndian(Take(buffer, old(skip), 4).value)
    {
      var data := NextData(4);
      r := if data.Some? then Some(FromBigEndian(data.value)) else None;
    }

    method NextShortString() returns (r: Option<seq<byte>>)
      requires Valid()
      modifies this
      ensures Valid()
      ensures Returns(r, skip, DecodeShort(buffer, old(skip)))
    {
      var size := NextUint8();
      if size.None? { return None; }
      r := NextData(size.value);
    }
  }

  /** A field by its tag: a nested constructor call, or a scalar read. */
  method DecodeFieldFrom(frame: InBuffer) returns (r: Option<Option<Field>>)
    requires frame.Valid()
    modifies frame
    ensures frame.Valid()
    ensures Returns(r, frame.skip, DecodeField(frame.buffer, old(frame.skip)))
    decreases |frame.buffer.bytes| - frame.skip, 1
  {
    var tag := frame.NextUint8();
    if tag.None? { return None; }
    if tag.value == 65 /* 'A' */ {
      var items := DecodeArrayFrom(frame);
      r := if items.Some? then Some(Some(Array(items.value))) else None;
    } else if tag.value == 70 /* 'F' */ {
      var entries := DecodeTableFrom(frame);
      r := if entries.Some? then Some(Some(Table(entries.value))) else None;
    } else {
      var d := DecodeScalar(frame.buffer, frame.skip, tag.value);
      if d.OutOfRange? { return None; }
      frame.skip := d.next;
      r := Some(d.value);
    }
  }

  method DecodeArrayFrom(frame: InBuffer) returns (r: Option<seq<Field>>)
    requires frame.Valid()
    modifies frame
    ensures frame.Valid()
    ensures Returns(r, frame.skip, DecodeArray(frame.buffer, old(frame.skip)))
    decreases |frame.buffer.bytes| - frame.skip, 0
  {
    hide DecodeField, DecodeShort, Size, Less32, Insert;
    var charsToRead := frame.NextUint32();
    if charsToRead.None? { return None; }
    var left, fields := charsToRead.value, [];
    while left > 0
      invariant frame.Valid() && old(frame.skip) + 4 <= frame.skip
      invariant DecodeArray(frame.buffer, old(frame.skip)) == ReadItems(frame.buffer, frame.skip, left, fields)
      decreases |frame.buffer.bytes| - frame.skip
    {
      left := Less32(left, 1);
      var field := DecodeFieldFrom(frame);
      if field.None? { return None; }
      if field.value.Some? {
        left := Less32(left, Size(field.value.value));
        fields := fields + [field.value.value];
      }
    }
    r := Some(fields);
  }

  method DecodeTableFrom(frame: InBuffer) returns (r: Option<seq<Entry>>)
    requires frame.Valid()
    modifies frame
    ensures frame.Valid()
    ensures Returns(r, frame.skip, DecodeTable(frame.buffer, old(frame.skip)))
    decreases |frame.buffer.bytes| - frame.skip, 0
  {
    hide DecodeField, DecodeShort, Size, Less32, Insert;
    var bytesToRead := frame.NextUint32();
    if bytesToRead.None? { return None; }
    var left, fields := bytesToRead.value, [];
    while left > 0
      invariant frame.Valid() && old(frame.skip) + 4 <= frame.skip
      invariant DecodeTable(frame.buffer, old(frame.skip)) == ReadEntries(frame.buffer, frame.skip, left, fields)
      decreases |frame.buffer.bytes| - frame.skip
    {
      var name := frame.NextShortString();
      if name.None? { return None; }
      left := Less32(left, 1 + |name.value| + 1);
      var field := DecodeFieldFrom(frame);
      if field.None? { return None; }
      if field.value.Some? {
        left := Less32(left, Size(field.value.value));
        fields := Insert(fields, name.value, field.value.value);
      }
    }
    r := Some(fields);
  }

  /* ----- writing ----- */

  /** An output buffer, as the sequence of pieces handed to `append`. */
  class OutBuffer {
    var pieces: seq<seq<byte>>

    constructor ()
      ensures pieces == []
    {
      pieces := [];
    }

    ghost function Bytes(): seq<byte>
      reads this
    {
      Flatten(pieces)
    }

    method Append(data: seq<byte>)
      modifies this
      ensures Bytes() == old(Bytes()) + data
    {
      FlattenAppend(pieces, [data]);
      FlattenOne(data);
      pieces := pieces + [data];
    }
  }

  /** `Array::size`, by its loop. */
  method SizeOfItems(items: seq<Field>) returns (size: nat)
    ensures size == Size(Array(items))
  {
    size := 4;
    for i := 0 to |items|
      invariant size + ItemsSize(items[i..]) == 4 + ItemsSize(items)
    {
      assert items[i..][1..] == items[i + 1..];
      size := size + 1 + Size(items[i]);
    }
  }

  /** `Table::size`, by its loop. */
  method SizeOfEntries(entries: seq<Entry>) returns (size: nat)
    ensures size == Size(Table(entries))
  {
    size := 4;
    for i := 0 to |entries|
      invariant size + EntriesSize(entries[i..]) == 4 + EntriesSize(entries)
    {
      assert entries[i..][1..] == entries[i + 1..];
      size := size + (1 + |entries[i].name|) + 1 + Size(entries[i].value);
    }
  }

  method FillField(buffer: OutBuffer, f: Field)
    requires Valid(f)
    modifies buffer
    ensures buffer.Bytes() == old(buffer.Bytes()) + Encode(f)
    decreases f, 1
  {
    if f.Array? {
      FillArray(buffer, f.items);
    } else if f.Table? {
      FillTable(buffer, f.entries);
    } else {
      buffer.Append(Encode(f));
    }
  }

  lemma {:induction false} ItemAt(items: seq<Field>, i: nat)
    requires i < |items| && ValidItems(items)
    ensures ValidItems(items[i..]) && ValidItems(items[i + 1..]) && Valid(items[i])
    ensures EncodeItems(items[i..]) == EncodeTagged(items[i]) + EncodeItems(items[i + 1..])
  {
    hide Valid, EncodeTagged;
    assert items[i..][1..] == items[i + 1..];
  }

  lemma {:induction false} EntryAt(entries: seq<Entry>, i: nat)
    requires i < |entries| && ValidEntries(entries)
    ensures ValidEntries(entries[i..]) && ValidEntries(entries[i + 1..]) && Valid(entries[i].value)
    ensures EncodeEntries(entries[i..]) == EncodeEntry(entries[i]) + EncodeEntries(entries[i + 1..])
  {
    hide Valid, EncodeEntry;
    assert entries[i..][1..] == entries[i + 1..];
  }

  method FillArray(buffer: OutBuffer, items: seq<Field>)
    requires Valid(Array(items))
    modifies buffer
    ensures buffer.Bytes() == old(buffer.Bytes()) + Encode(Array(items))
    decreases items, 0
  {
    hide Size, ItemsSize, EncodeItems, EncodeTagged, ToBigEndian;
    var size := SizeOfItems(items);
    assert size == 4 + ItemsSize(items) by { ArraySize(items); }
    buffer.Append(ToBigEndian(size - 4, 4));
    assert items[0..] == items && items[|items|..] == [];
    NothingLeft();
    for i := 0 to |items|
      invariant ValidItems(items[i..])
      invariant buffer.Bytes() + EncodeItems(items[i..]) == old(buffer.Bytes()) + Encode(Array(items))
    {
      ItemAt(items, i);
      FillTagged(buffer, items[i]);
    }
  }

  lemma {:induction false} ArraySize(items: seq<Field>)
    ensures Size(Array(items)) == 4 + ItemsSize(items)
  {
  }

  lemma {:induction false} TableSize(entries: seq<Entry>)
    ensures Size(Table(entries)) == 4 + EntriesSize(entries)
  {
  }

  lemma {:induction false} NothingLeft()
    ensures ValidItems([]) && EncodeItems([]) == []
    ensures ValidEntries([]) && EncodeEntries([]) == []
  {
  }

  method FillTagged(buffer: OutBuffer, f: Field)
    requires Valid(f)
    modifies buffer
    ensures buffer.Bytes() == old(buffer.Bytes()) + EncodeTagged(f)
    decreases f, 2
  {
    hide Encode, Tag;
    buffer.Append([Tag(f)]);
    FillField(buffer, f);
  }

  method FillTable(buffer: OutBuffer, entries: seq<Entry>)
    requires Valid(Table(entries))
    modifies buffer
    ensures buffer.Bytes() == old(buffer.Bytes()) + Encode(Table(entries))
    decreases entries, 0
  {
    hide Size, EntriesSize, EncodeEntries, EncodeEntry, ToBigEndian, Sorted;
    var size := SizeOfEntries(entries);
    assert size == 4 + EntriesSize(entries) by { TableSize(entries); }
    buffer.Append(ToBigEndian(size - 4, 4));
    assert entries[0..] == entries && entries[|entries|..] == [];
    NothingLeft();
    for i := 0 to |entries|
      invariant ValidEntries(entries[i..])
      invariant buffer.Bytes() + EncodeEntries(entries[i..]) == old(buffer.Bytes()) + Encode(Table(entries))
    {
      EntryAt(entries, i);
      FillEntry(buffer, entries[i]);
    }
  }

  method FillEntry(buffer: OutBuffer, e: Entry)
    requires Valid(e.value)
    modifies buffer
    ensures buffer.Bytes() == old(buffer.Bytes()) + EncodeEntry(e)
    decreases e, 3
  {
    hide Encode, EncodeTagged;
    buffer.Append([|e.name| % 256]);
    buffer.Append(e.name);
    FillTagged(buffer, e.value);
  }
}
