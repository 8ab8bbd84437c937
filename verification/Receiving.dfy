/**
 The receiving side of a TCP connection. Reads are capped at the number of octets the connection
 expects, so every call to `parse` consumes nothing or everything, and the input buffer may drop
 what was consumed without moving what is left.
 */
module Receiving {
  import opened Bytes
  import opened Options
  import opened Framing

  /** The input buffer: allocated octets, of which the first `size` are in use. */
  class TcpInBuffer {
    var data: array<byte>
    var size: nat

    ghost predicate Valid()
      reads this
    {
      size <= data.Length
    }

    ghost function Contents(): seq<byte>
      reads this, data
      requires Valid()
    {
      data[..size]
    }

    constructor (capacity: nat)
      ensures Valid() && fresh(data) && data.Length == capacity && Contents() == []
    {
      data := new byte[capacity](_ => 0);
      size := 0;
    }

    /** `read` stored some octets behind those in use. */
    method ReceiveFrom(incoming: seq<byte>)
      requires Valid() && size + |incoming| <= data.Length
      modifies this`size, data
      ensures Valid()
      ensures Contents() == old(Contents()) + incoming
    {
      forall i | 0 <= i < |incoming| {
        data[size + i] := incoming[i];
      }
      size := size + |incoming|;
      assert data[..size] == old(data[..size]) + incoming;
    }

    /** Only the size changes: this forgets the first `n` octets only if that is none or all of them. */
    method Shrink(n: nat)
      requires Valid() && (n == 0 || n == size)
      modifies this`size
      ensures Valid()
      ensures Contents() == old(Contents())[n..]
    {
      size := size - n;
    }

    method Reallocate(capacity: nat)
      requires Valid() && size <= capacity
      modifies this`data
      ensures Valid() && fresh(data) && data.Length == capacity && size == old(size)
      ensures Contents() == old(Contents())
    {
      var bigger := new byte[capacity](_ => 0);
      forall i | 0 <= i < size {
        bigger[i] := data[i];
      }
      data := bigger;
    }
  }

  /** What is buffered is no whole frame, and the connection expects the octets it still needs. */
  ghost predicate Awaits(maxFrame: nat, contents: seq<byte>, expected: nat) {
    && maxFrame >= 8
    && (if contents == [] then expected == HEADER else Find(maxFrame, contents) == Partial(expected))
  }

  lemma {:induction false} AwaitsBounds(maxFrame: nat, contents: seq<byte>, expected: nat)
    requires Awaits(maxFrame, contents, expected)
    ensures |contents| < expected <= maxFrame
  {
  }

  /** Where the octets read end before or at the expected number, there is at most the one frame. */
  lemma {:induction false} FindAwaited(maxFrame: nat, contents: seq<byte>, expected: nat, incoming: seq<byte>)
    requires Awaits(maxFrame, contents, expected)
    requires contents + incoming != [] && |incoming| <= expected - |contents|
    ensures var f := Find(maxFrame, contents + incoming);
            && (f.Whole? ==> f.size == |contents + incoming|)
            && (f.Partial? ==> Awaits(maxFrame, contents + incoming, f.need))
  {
    var x := contents + incoming;
    if |contents| >= HEADER {
      assert x[3..7] == contents[3..7];
    }
  }

  lemma {:induction false} ParseWhole(link: Link, d: Dispatcher, bytes: seq<byte>)
    requires link.maxFrame >= 8 && Tunes(d) && bytes != []
    requires Find(link.maxFrame, bytes).Whole? && Find(link.maxFrame, bytes).size == |bytes|
    ensures var frame := Find(link.maxFrame, bytes).frame;
            var effect := d(link.handled, frame);
            && (effect.Throws? ==> ParseLoop(link, d, bytes) == Parsed(link.(broken := true), 0, None))
            && (!effect.Throws? ==>
                  && (effect.Tuned? ==> effect.max >= 8)
                  && ParseLoop(link, d, bytes) == Parsed(Handle(link, effect, frame), |bytes|, Some(HEADER))
                  && (!link.closed ==> Deframe(link, d, bytes) == (Handle(link, effect, frame), |bytes|)))
  {
    hide Find;
    assert bytes[|bytes|..] == [];
  }

  /** All or nothing: on such octets `parse` handles one frame that is all of them, or none at all. */
  lemma {:induction false} AllOrNothing(
    link: Link, d: Dispatcher, contents: seq<byte>, expected: nat, incoming: seq<byte>)
    requires link.maxFrame >= 8 && Tunes(d) && link.Open()
    requires Awaits(link.maxFrame, contents, expected) && |incoming| <= expected - |contents|
    ensures var bytes := contents + incoming;
            var r := Parse(link, d, bytes);
            && (r.processed == 0 || r.processed == |bytes|)
            && (r.link.Open() ==> r.expects.Some? && Awaits(r.link.maxFrame, bytes[r.processed..], r.expects.value))
            && (r.processed == 0 ==> r.link.maxFrame == link.maxFrame)
            && Deframe(link, d, bytes) == (r.link, r.processed)
  {
    hide Find, Tunes;
    var bytes := contents + incoming;
    assert bytes[0..] == bytes && bytes[|bytes|..] == [];
    if bytes == [] { return; }
    FindAwaited(link.maxFrame, contents, expected, incoming);
    if Find(link.maxFrame, bytes).Whole? { ParseWhole(link, d, bytes); }
  }

  const START: Link := Link(4096, false, false, [])

  /**
   The connection is where the reference is after all the octets received, and an open one holds
   the octets the reference left and awaits the rest of their frame.
   */
  ghost predicate Tracks(d: Dispatcher, received: seq<byte>, link: Link, contents: seq<byte>, expected: nat) {
    && Tunes(d) && link.maxFrame >= 8
    && (!link.Open() ==> Deframe(START, d, received).0 == link)
    && (link.Open() ==>
          && Awaits(link.maxFrame, contents, expected)
          && |contents| <= |received|
          && Deframe(START, d, received) == (link, |received| - |contents|)
          && contents == received[|received| - |contents|..])
  }

  lemma {:induction false} ReadTracks(
    d: Dispatcher, received: seq<byte>, link: Link, contents: seq<byte>, expected: nat, incoming: seq<byte>)
    requires Tracks(d, received, link, contents, expected) && link.Open()
    requires |incoming| <= expected - |contents|
    ensures |contents| < expected <= link.maxFrame
    ensures var bytes := contents + incoming;
            var r := Parse(link, d, bytes);
            && (r.processed == 0 || r.processed == |bytes|)
            && (r.processed == 0 ==> r.link.maxFrame == link.maxFrame)
            && Tracks(d, received + incoming, r.link, bytes[r.processed..],
                      if r.expects.Some? then r.expects.value else expected)
  {
    hide Awaits, Find, Parse, Deframe;
    AwaitsBounds(link.maxFrame, contents, expected);
    AllOrNothing(link, d, contents, expected, incoming);
    DeframeSplits(START, d, received, incoming);
    var k := |received| - |contents|;
    var bytes := contents + incoming;
    var r := Parse(link, d, bytes);
    assert (received + incoming)[k..] == bytes && received[k..] + incoming == bytes;
    assert (received + incoming)[k + r.processed..] == bytes[r.processed..];
  }

  lemma {:induction false} TracksBounds(
    d: Dispatcher, received: seq<byte>, link: Link, contents: seq<byte>, expected: nat)
    requires Tracks(d, received, link, contents, expected) && link.Open()
    ensures |contents| < expected <= link.maxFrame
  {
    AwaitsBounds(link.maxFrame, contents, expected);
  }

  /**
   The reading half of a connected TCP state. `received` records every octet read while the
   connection was open.
   */
  class TcpReader {
    var buffer: TcpInBuffer
    var connection: Connection
    ghost var received: seq<byte>

    ghost predicate Valid()
      reads this, buffer, connection, buffer.data
    {
      && buffer.Valid() && connection.Valid()
      && (connection.View().Open() ==> buffer.data.Length == connection.maxFrame)
      && Tracks(connection.dispatcher, received, connection.View(), buffer.Contents(), connection.expected)
    }

    constructor (dispatcher: Dispatcher)
      requires Tunes(dispatcher)
      ensures Valid() && received == [] && connection.View().Open() && connection.dispatcher == dispatcher
      ensures fresh(buffer) && fresh(buffer.data) && fresh(connection)
    {
      buffer := new TcpInBuffer(4096);
      connection := new Connection(dispatcher);
      received := [];
    }

    /**
     The socket is readable and delivered `incoming`, perhaps nothing, within what is expected and not yet there.
     Afterwards the buffer of an open connection holds what it held and the new octets, or nothing.
     */
    method ProcessReadable(incoming: seq<byte>)
      requires Valid() && connection.View().Open()
      requires |incoming| <= connection.expected - buffer.size
      modifies this`received, buffer, buffer.data, connection
      ensures Valid()
      ensures buffer == old(buffer) && connection == old(connection)
      ensures buffer.data == old(buffer.data) || fresh(buffer.data)
      ensures received == old(received) + incoming
      ensures connection.View().Open() ==>
                buffer.Contents() == [] || buffer.Contents() == old(buffer.Contents()) + incoming
      ensures connection.View().Open() ==> buffer.size < connection.expected <= buffer.data.Length
    {
      hide Tracks, Parse, Tunes;
      var d, expected := connection.dispatcher, connection.expected;
      ReadTracks(d, received, connection.View(), buffer.Contents(), expected, incoming);
      buffer.ReceiveFrom(incoming);
      var processed := connection.ParseBuffer(buffer.data[..buffer.size]);
      buffer.Shrink(processed);
      if connection.View().Open() && connection.maxFrame != buffer.data.Length {
        buffer.Reallocate(connection.maxFrame);
      }
      received := received + incoming;
      if connection.View().Open() {
        TracksBounds(d, received, connection.View(), buffer.Contents(), connection.expected);
      }
    }
  }
}
