/**
 The sending side of a TCP connection: a queue of chunks with a partly sent head, and the state that
 writes to the socket, waits for it to become writable, and shuts it down.
 */
module Sending {
  import opened Bytes

  /** The kernel takes any number of the octets it is offered, or reports an error. */
  class Socket {
    ghost var written: seq<byte>
    ghost var shut: bool
    /** What was offered in every write, and how the kernel answered. */
    ghost var offered: seq<seq<byte>>
    ghost var answers: seq<int>

    constructor ()
      ensures written == [] && !shut && offered == [] && answers == []
    {
      written, shut, offered, answers := [], false, [], [];
    }

    /** `sendmsg` and `send`, on vectors of octets. */
    method Write(vectors: seq<seq<byte>>) returns (result: int)
      requires !shut
      modifies this`written, this`offered, this`answers
      ensures offered == old(offered) + [Flatten(vectors)] && answers == old(answers) + [result]
      ensures result <= |Flatten(vectors)|
      ensures written == old(written) + Flatten(vectors)[..if result < 0 then 0 else result]
    {
      result :| result <= |Flatten(vectors)|;
      offered, answers := offered + [Flatten(vectors)], answers + [result];
      written := written + Flatten(vectors)[..if result < 0 then 0 else result];
    }

    method Shutdown()
      modifies this`shut
      ensures shut
    {
      shut := true;
    }
  }

  /* ----- chunks ----- */

  lemma {:induction false} FlattenTake<T>(chunks: seq<seq<T>>, count: nat)
    requires count <= |chunks|
    ensures Flatten(chunks[..count]) <= Flatten(chunks)
  {
    FlattenAppend(chunks[..count], chunks[count..]);
    assert chunks[..count] + chunks[count..] == chunks;
  }

  /** The first chunks, without the octets of the head that are skipped. */
  function Vectors(chunks: seq<seq<byte>>, skip: nat, count: nat): seq<seq<byte>>
    requires chunks == [] || skip <= |chunks[0]|
  {
    var n := if |chunks| < count then |chunks| else count;
    if n == 0 then [] else [chunks[0][skip..]] + chunks[1..n]
  }

  /** What is offered to the kernel stands at the front of the buffer. */
  lemma {:induction false} VectorsLead(chunks: seq<seq<byte>>, skip: nat, count: nat)
    requires chunks == [] || skip <= |chunks[0]|
    requires skip <= |Flatten(chunks)|
    ensures Flatten(Vectors(chunks, skip, count)) <= Flatten(chunks)[skip..]
  {
    hide Flatten;
    var n := if |chunks| < count then |chunks| else count;
    if n == 0 {
      FlattenNothing<byte>();
    } else {
      var head, rest := chunks[0][skip..], chunks[1..n];
      FlattenFront(chunks);
      FlattenFront([head] + rest);
      assert ([head] + rest)[1..] == rest && chunks[1..][..n - 1] == rest;
      FlattenTake(chunks[1..], n - 1);
      assert Flatten(chunks)[skip..] == head + Flatten(chunks[1..]);
    }
  }

  lemma {:induction false} SomethingBuffered(chunks: seq<seq<byte>>)
    ensures |Flatten(chunks)| > 0 ==> chunks != []
  {
  }

  /* ----- the output buffer ----- */

  class TcpOutBuffer {
    var buffers: seq<seq<byte>>
    var skip: nat
    var size: nat

    ghost predicate Valid()
      reads this
    {
      && (if buffers == [] then skip == 0 else skip <= |buffers[0]|)
      && skip <= |Flatten(buffers)| && size == |Flatten(buffers)| - skip
    }

    ghost function Contents(): (r: seq<byte>)
      reads this
      requires Valid()
      ensures |r| == size
    {
      Flatten(buffers)[skip..]
    }

    constructor ()
      ensures Valid() && Contents() == []
    {
      buffers, skip, size := [], 0, 0;
    }

    method Add(chunk: seq<byte>)
      requires Valid()
      modifies this
      ensures Valid() && Contents() == old(Contents()) + chunk
    {
      hide Flatten;
      FlattenNothing<byte>();
      FlattenSnoc(buffers, chunk);
      buffers := buffers + [chunk];
      size := size + |chunk|;
    }

    /** Chunks of no octets are removed on the way, so the loop ends. */
    method Shrink(n: nat)
      requires Valid()
      modifies this
      ensures Valid() && Contents() == old(Contents())[if n < old(size) then n else old(size)..]
    {
      hide Flatten;
      FlattenNothing<byte>();
      if n >= size {
        buffers, skip, size := [], 0, 0;
        return;
      }
      var toRemove: nat := n;
      while toRemove > 0
        invariant Valid() && toRemove <= n && (toRemove > 0 ==> toRemove < size)
        invariant n - toRemove <= old(size) && Contents() == old(Contents())[n - toRemove..]
        decreases toRemove, |buffers|
      {
        assert buffers != [];
        FlattenFront(buffers);
        ghost var before := Contents();
        var bytes := |buffers[0]| - skip;
        if toRemove >= bytes {
          assert Flatten(buffers[1..]) == before[bytes..];
          size := size - bytes;
          skip := 0;
          toRemove := toRemove - bytes;
          buffers := buffers[1..];
          assert Contents() == before[bytes..];
        } else {
          assert before[toRemove..] == Flatten(buffers)[skip + toRemove..];
          skip := skip + toRemove;
          size := size - toRemove;
          toRemove := 0;
        }
      }
    }

    method Fill(count: nat) returns (vectors: seq<seq<byte>>)
      requires Valid() && count > 0
      ensures vectors == Vectors(buffers, skip, count)
    {
      vectors := [];
      for i := 0 to |buffers|
        invariant vectors == Vectors(buffers, skip, i) && i < count
      {
        vectors := vectors + [if i == 0 then buffers[i][skip..] else buffers[i]];
        assert i > 0 ==> buffers[1..i + 1] == buffers[1..i] + [buffers[i]];
        if i + 1 >= count { return; }
      }
    }

    /** One write: what the socket takes of the vectors leaves the buffer. */
    method WriteSome(socket: Socket, vectors: seq<seq<byte>>) returns (result: int)
      requires Valid() && !socket.shut && vectors == Vectors(buffers, skip, 64)
      modifies this, socket`written, socket`offered, socket`answers
      ensures Valid()
      ensures socket.offered == old(socket.offered) + [Flatten(vectors)]
      ensures socket.answers == old(socket.answers) + [result]
      ensures socket.written + Contents() == old(socket.written + Contents())
      ensures if result > 0 then size == old(size) - result else size == old(size)
    {
      hide Flatten;
      VectorsLead(buffers, skip, 64);
      ghost var before, offered := Contents(), Flatten(vectors);
      result := socket.Write(vectors);
      if result > 0 {
        assert before == offered[..result] + before[result..];
        Shrink(result);
      }
    }

    /**
     What the socket takes has left the buffer, from the front; the result counts it, or is an error. The
     loop writes until the buffer is empty or a write takes nothing.
     */
    method SendTo(socket: Socket) returns (total: int)
      requires Valid() && (size > 0 ==> !socket.shut)
      modifies this, socket`written, socket`offered, socket`answers
      ensures Valid() && size <= old(size)
      ensures socket.written + Contents() == old(socket.written + Contents())
      ensures old(socket.answers) <= socket.answers
      ensures forall i :: |old(socket.answers)| <= i < |socket.answers| - 1 ==> socket.answers[i] > 0
      ensures size > 0 ==> |socket.answers| > |old(socket.answers)| && socket.answers[|socket.answers| - 1] <= 0
      ensures total == if size < old(size) || socket.answers == old(socket.answers) then old(size) - size
                       else socket.answers[|socket.answers| - 1]
      ensures total > 0 ==> total == old(size) - size
      ensures total <= 0 ==> size == old(size)
    {
      hide Flatten;
      total := 0;
      while size > 0
        invariant Valid() && 0 <= total == old(size) - size
        invariant socket.written + Contents() == old(socket.written + Contents())
        invariant old(socket.answers) <= socket.answers
        invariant forall i :: |old(socket.answers)| <= i < |socket.answers| ==> socket.answers[i] > 0
        invariant size == old(size) ==> socket.answers == old(socket.answers)
        decreases size
      {
        var vectors := Fill(64);
        SomethingBuffered(buffers);
        if |vectors| == 0 { break; }
        var result := WriteSome(socket, vectors);
        if result <= 0 { return if total > 0 then total else result; }
        total := total + result;
      }
    }
  }

  /* ----- the connected state ----- */

  /**
   A connected TCP state, without what it reads. `accepted` records what `send` was given before
   the close; `watching` is whether the socket is monitored for writability.
   */
  class TcpConnected {
    const socket: Socket
    var out: TcpOutBuffer
    var closed: bool
    var watching: bool
    ghost var accepted: seq<byte>

    ghost predicate Valid()
      reads this, socket, out
    {
      && out.Valid()
      && socket.written + out.Contents() == accepted
      && (watching <==> out.size > 0)
      && (socket.shut <==> closed && out.size == 0)
    }

    /** The connection is established: what was sent before goes out first. */
    constructor (socket: Socket, out: TcpOutBuffer)
      requires out.Valid() && !socket.shut && socket.written == []
      modifies socket`written, socket`offered, socket`answers, out
      ensures Valid() && this.socket == socket && this.out == out && !closed
      ensures accepted == old(out.Contents())
    {
      this.socket, this.out, closed, accepted := socket, out, false, out.Contents();
      new;
      if out.size > 0 {
        var _ := out.SendTo(socket);
      }
      watching := out.size > 0;
    }

    /** The socket is writable. The state ends when that was a fatal error. */
    method ProcessWritable(fatal: bool) returns (alive: bool)
      requires Valid()
      modifies this`watching, socket, out
      ensures out.Valid() && accepted == old(accepted) && closed == old(closed)
      ensures socket.written + out.Contents() == accepted && old(socket.written) <= socket.written
      ensures alive ==> Valid()
      ensures out.size > 0 ==> |socket.answers| > |old(socket.answers)| && socket.answers[|socket.answers| - 1] <= 0
      ensures !alive <==> fatal && |socket.answers| > |old(socket.answers)| && socket.answers[|socket.answers| - 1] < 0
                          && socket.written == old(socket.written)
    {
      var result := out.SendTo(socket);
      WrittenGrows(old(socket.written), old(out.Contents()), socket.written, out.Contents());
      if result < 0 && fatal { return false; }
      if out.size > 0 { return true; }
      if closed { socket.Shutdown(); }
      watching := false;
      return true;
    }

    method Send(buffer: seq<byte>)
      requires Valid()
      modifies this`watching, this`accepted, socket`written, socket`offered, socket`answers, out
      ensures Valid() && closed == old(closed)
      ensures socket.offered == old(socket.offered) + if closed || old(out.size) > 0 then [] else [buffer]
      ensures accepted == old(accepted) + if closed then [] else buffer
      ensures old(socket.written) <= socket.written && (closed ==> socket.written == old(socket.written))
    {
      if closed { return; }
      accepted := accepted + buffer;
      if out.size > 0 {
        out.Add(buffer);
        return;
      }
      FlattenOne(buffer);
      var result := socket.Write([buffer]);
      var bytes := if result < 0 then 0 else result;
      assert buffer == buffer[..bytes] + buffer[bytes..];
      if bytes >= |buffer| { return; }
      out.Add(buffer[bytes..]);
      watching := true;
    }

    method Close()
      requires Valid()
      modifies this`closed, this`watching, socket`shut
      ensures Valid() && closed && accepted == old(accepted) && socket.written == old(socket.written)
    {
      if closed { return; }
      closed := true;
      if out.size > 0 { return; }
      socket.Shutdown();
      watching := false;
    }
  }

  lemma {:induction false} WrittenGrows(w: seq<byte>, c: seq<byte>, x: seq<byte>, d: seq<byte>)
    requires w + c == x + d && |d| <= |c|
    ensures w <= x
  {
    assert (w + c)[..|w|] == w && (x + d)[..|x|] == x;
    assert w == (x + d)[..|w|] == x[..|w|];
  }
}
