/**
 The application's own connection handler: a fixed buffer in front of `parse` that may grow once, and
 a buffer in front of the socket.
 */
module ConnectionHandler {
  import opened Bytes
  import opened Framing
  import opened Receiving

  const IN_BUFFER_SIZE: nat := 8 * 1024 * 1024
  const OUT_BUFFER_SIZE: nat := 1024 * 1024
  /** Written with an octal 024 in the source. */
  const TEMP_BUFFER_SIZE: nat := 1 * 20 * 1024

  class Buffer {
    var data: array<byte>
    var use: nat

    ghost predicate Valid()
      reads this
    {
      use <= data.Length
    }

    ghost function Contents(): (r: seq<byte>)
      reads this, data
      requires Valid()
      ensures |r| == use
    {
      data[..use]
    }

    constructor (size: nat)
      ensures Valid() && fresh(data) && data.Length == size && Contents() == []
    {
      data := new byte[size](_ => 0);
      use := 0;
    }

    function AvailableSize(): nat
      reads this
      requires Valid()
    {
      data.Length - use
    }

    /** As much as there is room for. */
    method Write(bytes: seq<byte>) returns (n: nat)
      requires Valid()
      modifies this`use, data
      ensures Valid() && n == if |bytes| < old(AvailableSize()) then |bytes| else old(AvailableSize())
      ensures Contents() == old(Contents()) + bytes[..n]
    {
      if use == data.Length { return 0; }
      var available := data.Length - use;
      n := if |bytes| < available then |bytes| else available;
      forall i | 0 <= i < n {
        data[use + i] := bytes[i];
      }
      use := use + n;
      assert data[..use] == old(data[..use]) + bytes[..n];
    }

    method Resize(size: nat)
      requires Valid() && use <= size
      modifies this`data
      ensures Valid() && fresh(data) && data.Length == size && Contents() == old(Contents())
    {
      var a := new byte[size](_ => 0);
      forall i | 0 <= i < use {
        a[i] := data[i];
      }
      data := a;
    }

    method ShiftLeft(count: nat)
      requires Valid() && count <= use
      modifies this`use, data
      ensures Valid() && Contents() == old(Contents())[count..]
    {
      if count == 0 || use == 0 { return; }
      use := use - count;
      if use > 0 {
        forall i | 0 <= i < use {
          data[i] := data[i + count];
        }
      }
      assert data[..use] == old(data[..use])[count..];
    }
  }

  lemma {:induction false} FeedSnoc(
    link: Link, d: Dispatcher, pending: seq<byte>, chunks: seq<seq<byte>>, last: seq<byte>)
    requires link.maxFrame >= 8 && Tunes(d)
    ensures var r := Feed(link, d, pending, chunks);
            var p := Parse(r.0, d, r.1 + last);
            Feed(link, d, pending, chunks + [last]) == (p.link, (r.1 + last)[p.processed..])
    decreases |chunks|
  {
    hide Parse;
    if chunks == [] {
      assert chunks + [last] == [last] && [last][1..] == [];
    } else {
      var p := Parse(link, d, pending + chunks[0]);
      assert (chunks + [last])[1..] == chunks[1..] + [last];
      FeedSnoc(p.link, d, (pending + chunks[0])[p.processed..], chunks[1..], last);
    }
  }

  /** The size of a buffer that has handed on `count` octets, and whether it is still grown. */
  function Shrunk(length: nat, resized: bool, count: nat): (nat, bool)
    requires count <= length
  {
    if !resized || count == 0 then (length, resized)
    else if length - count > IN_BUFFER_SIZE then (length - count, true)
    else (IN_BUFFER_SIZE, false)
  }

  /**
   The reading half. `before` was received before there was a connection, `chunks` since, and
   `consumed` is what `parse` has taken.
   */
  class Reader {
    var input: Buffer
    var resized: bool
    var connection: Connection
    var attached: bool
    ghost var before: seq<byte>
    ghost var chunks: seq<seq<byte>>
    ghost var consumed: seq<byte>

    /** The buffer is at its normal size, or somewhat above it and flagged. */
    ghost predicate Sized()
      reads this, input
    {
      && input.Valid()
      && (if resized then IN_BUFFER_SIZE < input.data.Length <= IN_BUFFER_SIZE + TEMP_BUFFER_SIZE
          else input.data.Length == IN_BUFFER_SIZE)
    }

    /** Nothing is lost, and the connection is where presenting every chunk behind what is pending leads. */
    ghost predicate Valid()
      reads this, input, connection, input.data
    {
      && Sized() && connection.Valid()
      && consumed + input.Contents() == before + Flatten(chunks)
      && (connection.View(), input.Contents()) == Feed(START, connection.dispatcher, before, chunks)
      && (!attached ==> chunks == [])
    }

    constructor (dispatcher: Dispatcher)
      requires Tunes(dispatcher)
      ensures Valid() && before == [] && chunks == [] && !attached && !resized && connection.dispatcher == dispatcher
      ensures fresh(input) && fresh(input.data) && fresh(connection)
    {
      input := new Buffer(IN_BUFFER_SIZE);
      resized, attached, before, chunks, consumed := false, false, [], [], [];
      connection := new Connection(dispatcher);
    }

    method Attach()
      requires Valid()
      modifies this`attached
      ensures Valid() && attached
    {
      attached := true;
    }

    /** Room for what was read: the buffer grows once, and the second time the connection is given up. */
    method MakeRoom(n: nat) returns (ok: bool)
      requires Sized() && n <= TEMP_BUFFER_SIZE
      modifies this`resized, input`data
      ensures Sized() && input.Contents() == old(input.Contents()) && input.use == old(input.use)
      ensures input.data == old(input.data) || fresh(input.data)
      ensures ok <==> !old(resized) || n <= old(input.data.Length) - old(input.use)
      ensures ok ==> n <= input.AvailableSize()
      ensures !ok ==> resized && input.data == old(input.data)
      ensures ok && n <= old(input.data.Length) - old(input.use) ==>
                input.data == old(input.data) && resized == old(resized)
      ensures ok && n > old(input.data.Length) - old(input.use) ==> input.data.Length - input.use == n && resized
    {
      var available := input.AvailableSize();
      if available < n {
        if resized { return false; }
        input.Resize(IN_BUFFER_SIZE + n - available);
        resized := true;
      }
      return true;
    }

    /** After `count` octets have gone, a grown buffer gives up as many octets, down to its normal size. */
    method GiveBack(count: nat)
      requires Sized() && input.use + count <= input.data.Length
      modifies this`resized, input`data
      ensures Sized() && input.Contents() == old(input.Contents())
      ensures input.data == old(input.data) || fresh(input.data)
      ensures (input.data.Length, resized) == Shrunk(old(input.data.Length), old(resized), count)
    {
      if resized && count > 0 {
        var rest := input.data.Length - count;
        if rest > IN_BUFFER_SIZE {
          input.Resize(rest);
        } else {
          input.Resize(IN_BUFFER_SIZE);
          resized := false;
        }
      }
    }

    /** `parse` sees all that is buffered, with `chunk` at its end. */
    method ParseInput(ghost held: seq<byte>, ghost chunk: seq<byte>)
      requires Sized() && connection.Valid() && attached
      requires input.Contents() == held + chunk && consumed + held == before + Flatten(chunks)
      requires (connection.View(), held) == Feed(START, connection.dispatcher, before, chunks)
      modifies this`resized, this`chunks, this`consumed, input, input.data, connection
      ensures Valid() && chunks == old(chunks) + [chunk]
      ensures before + Flatten(chunks) == old(before + Flatten(chunks)) + chunk
      ensures input.data == old(input.data) || fresh(input.data)
      ensures input.use <= old(input.use)
      ensures (input.data.Length, resized) == Shrunk(old(input.data.Length), old(resized), old(input.use) - input.use)
    {
      hide Parse, Feed, Flatten;
      FeedSnoc(START, connection.dispatcher, before, chunks, chunk);
      FlattenSnoc(chunks, chunk);
      var count := connection.ParseBuffer(input.data[..input.use]);
      input.ShiftLeft(count);
      Conserved(consumed, held, chunk, count, before, Flatten(chunks));
      consumed := consumed + (held + chunk)[..count];
      chunks := chunks + [chunk];
      GiveBack(count);
    }

    /** One round of the loop. It fails only when a grown buffer is too small once more. */
    method ReadChunk(chunk: seq<byte>) returns (ok: bool)
      requires Valid() && 0 < |chunk| <= TEMP_BUFFER_SIZE
      modifies this`resized, this`before, this`chunks, this`consumed, input, input.data, connection
      ensures Valid()
      ensures input.data == old(input.data) || fresh(input.data)
      ensures ok <==> !old(resized) || |chunk| <= old(input.data.Length) - old(input.use)
      ensures before + Flatten(chunks) == old(before + Flatten(chunks)) + if ok then chunk else []
      ensures !ok ==> resized
      ensures attached && ok ==> before == old(before) && chunks == old(chunks) + [chunk]
    {
      hide Parse, Feed, Flatten;
      ghost var held := input.Contents();
      ok := MakeRoom(|chunk|);
      if !ok { return; }
      var n := input.Write(chunk);
      assert chunk[..n] == chunk;
      if attached && input.use > 0 {
        ParseInput(held, chunk);
      } else {
        Appended(START, connection.dispatcher, consumed, held, chunk, before);
        before := before + chunk;
      }
    }

    method HandleReadyRead(available: seq<byte>) returns (ok: bool)
      requires Valid()
      modifies this`resized, this`before, this`chunks, this`consumed, input, input.data, connection
      ensures Valid()
      ensures ok ==> before + Flatten(chunks) == old(before + Flatten(chunks)) + available
      ensures !ok ==> resized
    {
      hide Feed, Flatten;
      var rest := available;
      while |rest| > 0
        invariant Valid()
        invariant input.data == old(input.data) || fresh(input.data)
        invariant before + Flatten(chunks) + rest == old(before + Flatten(chunks)) + available
        decreases |rest|
      {
        var n := if |rest| < TEMP_BUFFER_SIZE then |rest| else TEMP_BUFFER_SIZE;
        assert rest == rest[..n] + rest[n..];
        ok := ReadChunk(rest[..n]);
        if !ok { return false; }
        rest := rest[n..];
      }
      return true;
    }
  }

  /** The writing half. A socket that is offered octets takes some of them, any number. */
  class Writer {
    var output: Buffer
    ghost var written: seq<byte>

    ghost predicate Valid()
      reads this, output
    {
      output.Valid() && output.data.Length == OUT_BUFFER_SIZE
    }

    constructor ()
      ensures Valid() && written == [] && output.Contents() == []
    {
      output := new Buffer(OUT_BUFFER_SIZE);
      written := [];
    }

    /** The socket takes at least one octet when it is offered some; otherwise the loop below would not end. */
    method SendDataFromBuffer()
      requires Valid()
      modifies this`written, output`use, output.data
      ensures Valid() && written + output.Contents() == old(written + output.Contents())
      ensures old(output.use) > 0 ==> output.use < old(output.use)
      ensures |written| == |old(written)| + old(output.use) - output.use
    {
      if output.use == 0 { return; }
      ghost var before := output.Contents();
      var n: nat :| 0 < n <= output.use;
      written := written + before[..n];
      output.ShiftLeft(n);
      assert before == before[..n] + before[n..];
    }

    /** Data larger than the buffer goes through it in pieces; nothing is lost or reordered. */
    method OnData(data: seq<byte>)
      requires Valid()
      modifies this`written, output`use, output.data
      ensures Valid() && written + output.Contents() == old(written + output.Contents()) + data
      ensures data != [] ==> |written| > |old(written)|
    {
      var done: nat := 0;
      while done < |data|
        invariant Valid() && done <= |data|
        invariant written + output.Contents() == old(written + output.Contents()) + data[..done]
        invariant |written| >= |old(written)| && (done > 0 ==> |written| > |old(written)|)
        decreases |data| - done, output.use
      {
        ghost var before := output.Contents();
        var n := output.Write(data[done..]);
        Forwarded(written, before, old(written + output.Contents()), data, done, n);
        done := done + n;
        SendDataFromBuffer();
      }
    }
  }

  lemma {:induction false} Forwarded(
    written: seq<byte>, held: seq<byte>, start: seq<byte>, data: seq<byte>, done: nat, n: nat)
    requires done + n <= |data| && written + held == start + data[..done]
    ensures written + (held + data[done..][..n]) == start + data[..done + n]
  {
    assert written + (held + data[done..][..n]) == (written + held) + data[done..][..n];
    assert data[..done + n] == data[..done] + data[done..][..n];
  }

  lemma {:induction false} Conserved(consumed: seq<byte>, held: seq<byte>, chunk: seq<byte>, count: nat,
                                     before: seq<byte>, flat: seq<byte>)
    requires consumed + held == before + flat && count <= |held + chunk|
    ensures (consumed + (held + chunk)[..count]) + (held + chunk)[count..] == before + (flat + chunk)
    ensures before + (flat + chunk) == (before + flat) + chunk
  {
    var all := held + chunk;
    assert (consumed + all[..count]) + all[count..] == consumed + all;
    assert consumed + all == (consumed + held) + chunk;
  }

  /** Without a connection, octets pile up. */
  lemma {:induction false} Appended(
    link: Link, d: Dispatcher, consumed: seq<byte>, held: seq<byte>, chunk: seq<byte>, before: seq<byte>)
    requires link.maxFrame >= 8 && Tunes(d)
    requires consumed + held == before + Flatten<byte>([])
    ensures consumed + (held + chunk) == (before + chunk) + Flatten<byte>([])
    ensures (before + chunk) + Flatten<byte>([]) == (before + Flatten<byte>([])) + chunk
    ensures Feed(link, d, before, []) == (link, before) && Feed(link, d, before + chunk, []) == (link, before + chunk)
  {
    assert consumed + (held + chunk) == (consumed + held) + chunk;
  }
}
