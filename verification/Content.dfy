/** Publishing: one message becomes a method frame, a header and as many body frames as it takes. */
module Content {
  import opened Bytes

  datatype Frame = Publish | Header(bodySize: nat) | Body(payload: seq<byte>)

  /** The octets a body frame adds to its payload. */
  const OVERHEAD: nat := 8

  function TotalSize(payload: seq<byte>): nat {
    |payload| + OVERHEAD
  }

  /** The body in pieces of the maximum payload; only the last may be shorter. */
  function Chunks(body: seq<byte>, maxPayload: nat): (r: seq<seq<byte>>)
    requires maxPayload > 0 || body == []
    decreases |body|
  {
    if body == [] then []
    else if |body| <= maxPayload then [body]
    else [body[..maxPayload]] + Chunks(body[maxPayload..], maxPayload)
  }

  function Bodies(chunks: seq<seq<byte>>): (r: seq<Frame>)
    ensures |r| == |chunks|
  {
    seq(|chunks|, i requires 0 <= i < |chunks| => Body(chunks[i]))
  }

  function Published(body: seq<byte>, maxPayload: nat): (r: seq<Frame>)
    requires maxPayload > 0 || body == []
    ensures |r| >= 2
  {
    [Publish, Header(|body|)] + Bodies(Chunks(body, maxPayload))
  }

  /** The pieces are the body again, none is empty, each fits, and all but the last are full. */
  lemma {:induction false} ChunksAreTheBody(body: seq<byte>, maxPayload: nat)
    requires maxPayload > 0 || body == []
    ensures var c := Chunks(body, maxPayload);
            && Flatten(c) == body
            && (forall i :: 0 <= i < |c| ==> 0 < |c[i]| <= maxPayload && (i < |c| - 1 ==> |c[i]| == maxPayload))
    decreases |body|
  {
    if |body| > maxPayload {
      ChunksAreTheBody(body[maxPayload..], maxPayload);
      var c := Chunks(body, maxPayload);
      assert c[1..] == Chunks(body[maxPayload..], maxPayload);
      assert body == body[..maxPayload] + body[maxPayload..];
      forall i | 0 <= i < |c| ensures 0 < |c[i]| <= maxPayload && (i < |c| - 1 ==> |c[i]| == maxPayload) {
        if i > 0 { assert c[i] == c[1..][i - 1]; }
      }
    } else if body != [] {
      FlattenOne(body);
    }
  }

  /** What is left of the body is cut like a body of its own. */
  lemma {:induction false} ChunkStep(body: seq<byte>, sent: nat, size: nat, maxPayload: nat)
    requires maxPayload > 0 && sent < |body| && size == if maxPayload < |body| - sent then maxPayload else |body| - sent
    ensures Chunks(body[sent..], maxPayload) == [body[sent..sent + size]] + Chunks(body[sent + size..], maxPayload)
  {
    assert body[sent..][..size] == body[sent..sent + size];
    assert body[sent..][size..] == body[sent + size..];
    assert [body[sent..]] + [] == [body[sent..]];
    if size == |body| - sent {
      assert body[sent..sent + size] == body[sent..];
    }
  }

  /** The frames still to come, one body frame later. */
  lemma {:induction false} PublishStep(frames: seq<Frame>, body: seq<byte>, sent: nat, size: nat, maxPayload: nat)
    requires maxPayload > 0 && sent < |body| && size == if maxPayload < |body| - sent then maxPayload else |body| - sent
    ensures frames + Bodies(Chunks(body[sent..], maxPayload))
            == (frames + [Body(body[sent..sent + size])]) + Bodies(Chunks(body[sent + size..], maxPayload))
  {
    hide Chunks;
    ChunkStep(body, sent, size, maxPayload);
    var rest := Chunks(body[sent + size..], maxPayload);
    assert Bodies([body[sent..sent + size]] + rest) == [Body(body[sent..sent + size])] + Bodies(rest);
  }

  lemma {:induction false} PublishEnds(frames: seq<Frame>, maxPayload: nat)
    ensures frames + Bodies(Chunks([], maxPayload)) == frames
  {
  }

  /** No body frame exceeds the maximum frame size. */
  lemma {:induction false} PublishedFits(body: seq<byte>, maxPayload: nat)
    requires maxPayload > 0 || body == []
    ensures forall f :: f in Published(body, maxPayload) && f.Body? ==>
                          0 < |f.payload| && TotalSize(f.payload) <= maxPayload + OVERHEAD
  {
    hide Chunks;
    ChunksAreTheBody(body, maxPayload);
    var chunks := Chunks(body, maxPayload);
    forall f | f in Published(body, maxPayload) && f.Body?
      ensures 0 < |f.payload| && TotalSize(f.payload) <= maxPayload + OVERHEAD
    {
      var i :| 0 <= i < |chunks| && f == Body(chunks[i]);
    }
  }

  /** The octets the loop of `publish` has left after some turns. */
  function Left(size: nat, maxPayload: nat, turns: nat): nat {
    if turns == 0 then size
    else
      var left := Left(size, maxPayload, turns - 1);
      left - if maxPayload < left then maxPayload else left
  }

  /** The loop ends exactly if there is nothing to send or room in a frame; otherwise it sends empty frames forever. */
  lemma {:induction false} PublishEndsIff(body: seq<byte>, maxPayload: nat)
    ensures (exists turns: nat :: Left(|body|, maxPayload, turns) == 0) <==> body == [] || maxPayload > 0
  {
    hide Left;
    if maxPayload > 0 {
      LeftShrinks(|body|, maxPayload, |body|);
    } else {
      forall turns: nat ensures Left(|body|, maxPayload, turns) == |body| {
        LeftStays(|body|, turns);
      }
      assert body == [] ==> Left(|body|, maxPayload, 0) == 0;
    }
  }

  lemma {:induction false} LeftShrinks(size: nat, maxPayload: nat, turns: nat)
    requires maxPayload > 0 && turns <= size
    ensures Left(size, maxPayload, turns) <= size - turns
  {
    if turns > 0 { LeftShrinks(size, maxPayload, turns - 1); }
  }

  lemma {:induction false} LeftStays(size: nat, turns: nat)
    ensures Left(size, 0, turns) == size
  {
    if turns > 0 { LeftStays(size, turns - 1); }
  }

  /** `publish` on a usable channel that takes every frame. */
  method PublishFrames(body: seq<byte>, maxFrame: nat) returns (frames: seq<Frame>)
    requires maxFrame > OVERHEAD || (maxFrame == OVERHEAD && body == [])
    ensures frames == Published(body, maxFrame - OVERHEAD)
    ensures forall f :: f in frames && f.Body? ==> TotalSize(f.payload) <= maxFrame
  {
    hide Chunks, Bodies;
    PublishedFits(body, maxFrame - OVERHEAD);
    frames := [Publish];
    frames := frames + [Header(|body|)];
    assert body[0..] == body;
    PublishEnds(frames, maxFrame - OVERHEAD);
    if |body| == 0 { return; }
    var maxPayload := maxFrame - OVERHEAD;
    var bytesSent: nat, bytesLeft: nat := 0, |body|;
    while bytesLeft > 0
      invariant bytesSent + bytesLeft == |body|
      invariant frames + Bodies(Chunks(body[bytesSent..], maxPayload)) == Published(body, maxPayload)
      decreases bytesLeft
    {
      var size := if maxPayload < bytesLeft then maxPayload else bytesLeft;
      PublishStep(frames, body, bytesSent, size, maxPayload);
      frames := frames + [Body(body[bytesSent..bytesSent + size])];
      bytesSent := bytesSent + size;
      bytesLeft := bytesLeft - size;
    }
    assert body[bytesSent..] == [];
    PublishEnds(frames, maxPayload);
  }
}
