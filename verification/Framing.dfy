/**
 Incremental framing: cutting a stream of octets into frames, one `parse` call at a time.

 What a frame does to the connection is left to a dispatcher, a function of the frames handled
 so far and of the new one, so that every result holds for every connection. The maximum frame
 size is at least the eight octets of an empty frame throughout.
 */
module Framing {
  import opened Bytes
  import opened Options

  datatype Frame = Frame(kind: byte, channel: nat, payload: seq<byte>)

  /** The effect of processing a frame: nothing, a new maximum at Tune, a closed connection, an exception. */
  datatype Effect = Keep | Tuned(max: nat) | Closes | Throws

  type Dispatcher = (seq<Frame>, Frame) -> Effect

  const HEADER: nat := 7
  const END_OF_FRAME: byte := 206

  ghost predicate Tunes(d: Dispatcher) {
    forall h, f :: d(h, f).Tuned? ==> d(h, f).max >= 8
  }

  /**
   The connection as `parse` sees it, with the frames it has handled. An exception is reported, which
   makes the link `broken`; unlike a closed state that does not stop later calls.
   */
  datatype Link = Link(maxFrame: nat, closed: bool, broken: bool, handled: seq<Frame>) {
    predicate Open() { !closed && !broken }
  }

  datatype Found = Partial(need: nat) | Broken | Whole(frame: Frame, size: nat)

  /** After a call: the link, the octets processed, and the number of octets expected next, if that was set. */
  datatype Parsed = Parsed(link: Link, processed: nat, expects: Option<nat>)

  function PayloadSize(bytes: seq<byte>): nat
    requires |bytes| >= HEADER
  {
    FromBigEndian(bytes[3..7])
  }

  /** `ReceivedFrame`: the frame at the front of the octets, if all of it is there. */
  function Find(maxFrame: nat, bytes: seq<byte>): (r: Found)
    requires maxFrame >= 8
    ensures r.Whole? ==> 8 <= r.size <= |bytes| && r.size <= maxFrame
    ensures r.Partial? ==> |bytes| < r.need && 7 <= r.need <= maxFrame
    ensures r.Partial? ==> (r.need == 7 <==> |bytes| < 7)
  {
    if |bytes| < HEADER then Partial(HEADER)
    else
      var size := PayloadSize(bytes);
      if size > maxFrame - 8 then Broken
      else if |bytes| < size + 8 then Partial(size + 8)
      else if bytes[size + 7] != END_OF_FRAME then Broken
      else Whole(Frame(bytes[0], FromBigEndian(bytes[1..3]), bytes[7..size + 7]), size + 8)
  }

  /** Processing a whole frame, unless that throws. */
  function Handle(link: Link, effect: Effect, frame: Frame): (r: Link)
    requires !effect.Throws? && link.maxFrame >= 8 && (effect.Tuned? ==> effect.max >= 8)
    ensures r.maxFrame >= 8
  {
    link.(maxFrame := if effect.Tuned? then effect.max else link.maxFrame, closed := link.closed || effect.Closes?,
    handled := link.handled + [frame])
  }

  /** The loop of `parse`. It does not look at the state of the connection between two frames. */
  function ParseLoop(link: Link, d: Dispatcher, bytes: seq<byte>): (r: Parsed)
    requires link.maxFrame >= 8 && Tunes(d)
    ensures r.link.maxFrame >= 8 && r.processed <= |bytes|
    decreases |bytes|
  {
    if bytes == [] then Parsed(link, 0, Some(HEADER))
    else
      match Find(link.maxFrame, bytes)
      case Partial(need) => Parsed(link, 0, Some(need))
      case Broken => Parsed(link.(broken := true), 0, None)
      case Whole(frame, size) =>
        var effect := d(link.handled, frame);
        if effect.Throws? then Parsed(link.(broken := true), 0, None)
        else
          var r := ParseLoop(Handle(link, effect, frame), d, bytes[size..]);
          r.(processed := size + r.processed)
  }

  function Parse(link: Link, d: Dispatcher, bytes: seq<byte>): (r: Parsed)
    requires link.maxFrame >= 8 && Tunes(d)
    ensures r.link.maxFrame >= 8 && r.processed <= |bytes|
  {
    if link.closed then Parsed(link, 0, None) else ParseLoop(link, d, bytes)
  }

  /* ----- the connection object ----- */

  /** The loop of `parse` entered with `processed` octets behind it. */
  ghost function ParseFrom(link: Link, d: Dispatcher, buffer: seq<byte>, processed: nat): Parsed
    requires link.maxFrame >= 8 && Tunes(d) && processed <= |buffer|
  {
    var r := ParseLoop(link, d, buffer[processed..]);
    r.(processed := processed + r.processed)
  }

  lemma {:induction false} LoopStep(link: Link, d: Dispatcher, buffer: seq<byte>, processed: nat)
    requires link.maxFrame >= 8 && Tunes(d) && processed < |buffer|
    ensures var found := Find(link.maxFrame, buffer[processed..]);
            var here := ParseFrom(link, d, buffer, processed);
            match found
            case Partial(need) => here == Parsed(link, processed, Some(need))
            case Broken => here == Parsed(link.(broken := true), processed, None)
            case Whole(frame, size) =>
              var effect := d(link.handled, frame);
              && 0 < size <= |buffer| - processed
              && (effect.Tuned? ==> effect.max >= 8)
              && (if effect.Throws? then here == Parsed(link.(broken := true), processed, None)
                  else here == ParseFrom(Handle(link, effect, frame), d, buffer, processed + size))
  {
    var found := Find(link.maxFrame, buffer[processed..]);
    if found.Whole? {
      assert buffer[processed..][found.size..] == buffer[processed + found.size..];
    }
  }

  lemma {:induction false} LoopEnds(link: Link, d: Dispatcher, buffer: seq<byte>)
    requires link.maxFrame >= 8 && Tunes(d)
    ensures ParseFrom(link, d, buffer, |buffer|) == Parsed(link, |buffer|, Some(HEADER))
    ensures ParseLoop(link, d, buffer) == ParseFrom(link, d, buffer, 0)
  {
    assert buffer[0..] == buffer;
  }

  class Connection {
    const dispatcher: Dispatcher
    var maxFrame: nat
    var closed: bool
    var broken: bool
    var handled: seq<Frame>
    var expected: nat

    ghost predicate Valid()
      reads this
    {
      maxFrame >= 8 && Tunes(dispatcher)
    }

    function View(): Link
      reads this
    {
      Link(maxFrame, closed, broken, handled)
    }

    constructor (dispatcher: Dispatcher)
      requires Tunes(dispatcher)
      ensures Valid() && this.dispatcher == dispatcher
      ensures View() == Link(4096, false, false, []) && expected == HEADER
    {
      this.dispatcher := dispatcher;
      maxFrame, closed, broken, handled, expected := 4096, false, false, [], HEADER;
    }

    method ParseBuffer(buffer: seq<byte>) returns (processed: nat)
      requires Valid()
      modifies this
      ensures Valid()
      ensures var r := Parse(old(View()), dispatcher, buffer);
              && View() == r.link && processed == r.processed
              && expected == (if r.expects.Some? then r.expects.value else old(expected))
    {
      hide Find, ParseLoop, ParseFrom, Tunes;
      processed := 0;
      if closed { return; }
      LoopEnds(View(), dispatcher, buffer);
      while processed < |buffer|
        invariant Valid() && processed <= |buffer| && expected == old(expected)
        invariant ParseLoop(old(View()), dispatcher, buffer) == ParseFrom(View(), dispatcher, buffer, processed)
        decreases |buffer| - processed
      {
        var found := Find(maxFrame, buffer[processed..]);
        LoopStep(View(), dispatcher, buffer, processed);
        if found.Partial? {
          expected := found.need;
          return;
        }
        if found.Broken? || dispatcher(handled, found.frame).Throws? {
          broken := true;
          return;
        }
        var effect := dispatcher(handled, found.frame);
        maxFrame := if effect.Tuned? then effect.max else maxFrame;
        closed := closed || effect.Closes?;
        handled := handled + [found.frame];
        processed := processed + found.size;
      }
      LoopEnds(View(), dispatcher, buffer);
      expected := HEADER;
    }
  }

  /* ----- the reference ----- */

  /**
   One frame after the other, until there is no whole frame left or the connection is closed:
   unlike the loop of `parse`, it looks at the state after every frame.
   */
  function Deframe(link: Link, d: Dispatcher, bytes: seq<byte>): (r: (Link, nat))
    requires link.maxFrame >= 8 && Tunes(d)
    ensures r.0.maxFrame >= 8 && r.1 <= |bytes|
    decreases |bytes|
  {
    if link.closed || bytes == [] then (link, 0)
    else
      match Find(link.maxFrame, bytes)
      case Partial(_) => (link, 0)
      case Broken => (link.(broken := true), 0)
      case Whole(frame, size) =>
        var effect := d(link.handled, frame);
        if effect.Throws? then (link.(broken := true), 0)
        else
          var r := Deframe(Handle(link, effect, frame), d, bytes[size..]);
          (r.0, size + r.1)
  }

  /** More octets do not change what was found. */
  lemma {:induction false} FindIsStable(maxFrame: nat, x: seq<byte>, y: seq<byte>)
    requires maxFrame >= 8 && !Find(maxFrame, x).Partial?
    ensures Find(maxFrame, x + y) == Find(maxFrame, x)
  {
    assert (x + y)[3..7] == x[3..7] && (x + y)[1..3] == x[1..3];
    var size := PayloadSize(x);
    if |x| >= size + 8 {
      assert (x + y)[7..size + 7] == x[7..size + 7];
    }
  }

  lemma {:induction false} DeframeStops(link: Link, d: Dispatcher, bytes: seq<byte>)
    requires link.maxFrame >= 8 && Tunes(d)
    requires link.closed || bytes == [] || Find(link.maxFrame, bytes).Partial?
    ensures Deframe(link, d, bytes) == (link, 0)
  {
    hide Find;
  }

  lemma {:induction false} DeframeBreaks(link: Link, d: Dispatcher, bytes: seq<byte>)
    requires link.maxFrame >= 8 && Tunes(d) && !link.closed && bytes != []
    requires var f := Find(link.maxFrame, bytes); f.Broken? || (f.Whole? && d(link.handled, f.frame).Throws?)
    ensures Deframe(link, d, bytes) == (link.(broken := true), 0)
  {
    hide Find;
  }

  /** The reference past the first frame. */
  lemma {:induction false} DeframeStep(link: Link, d: Dispatcher, bytes: seq<byte>, next: Link, tail: seq<byte>)
    requires link.maxFrame >= 8 && Tunes(d) && !link.closed && Find(link.maxFrame, bytes).Whole?
    requires var f := Find(link.maxFrame, bytes);
             && !d(link.handled, f.frame).Throws?
             && next == Handle(link, d(link.handled, f.frame), f.frame)
             && tail == bytes[f.size..]
    ensures var r := Deframe(next, d, tail);
            Deframe(link, d, bytes) == (r.0, Find(link.maxFrame, bytes).size + r.1)
  {
    hide Find, Handle;
  }

  /** The reference does not depend on where the stream is cut. */
  lemma {:induction false} DeframeSplits(link: Link, d: Dispatcher, x: seq<byte>, y: seq<byte>)
    requires link.maxFrame >= 8 && Tunes(d)
    ensures var r := Deframe(link, d, x);
            var s := Deframe(r.0, d, x[r.1..] + y);
            Deframe(link, d, x + y) == (s.0, r.1 + s.1)
    decreases |x|
  {
    hide Find, Handle, Deframe, Tunes;
    assert x[0..] + y == x + y;
    if link.closed || x == [] || Find(link.maxFrame, x).Partial? {
      DeframeStops(link, d, x);
    } else {
      FindIsStable(link.maxFrame, x, y);
      var w := Find(link.maxFrame, x);
      if w.Whole? && !d(link.handled, w.frame).Throws? {
        TuneBound(d, link.handled, w.frame);
        var next := Handle(link, d(link.handled, w.frame), w.frame);
        assert (x + y)[w.size..] == x[w.size..] + y;
        DeframeStep(link, d, x, next, x[w.size..]);
        DeframeStep(link, d, x + y, next, x[w.size..] + y);
        DeframeSplits(next, d, x[w.size..], y);
        assert x[w.size..][Deframe(next, d, x[w.size..]).1..] == x[Deframe(link, d, x).1..];
      } else {
        DeframeBreaks(link, d, x);
        DeframeBreaks(link, d, x + y);
        DeframeBreaks(link.(broken := true), d, x + y);
      }
    }
  }

  lemma {:induction false} TuneBound(d: Dispatcher, h: seq<Frame>, f: Frame)
    requires Tunes(d)
    ensures d(h, f).Tuned? ==> d(h, f).max >= 8
  {
  }

  /** What the reference leaves, it leaves again. */
  lemma {:induction false} DeframeSettles(link: Link, d: Dispatcher, x: seq<byte>)
    requires link.maxFrame >= 8 && Tunes(d)
    ensures var r := Deframe(link, d, x); Deframe(r.0, d, x[r.1..]) == (r.0, 0)
  {
    hide Deframe;
    var r := Deframe(link, d, x);
    DeframeSplits(link, d, x, []);
    assert x + [] == x && x[r.1..] + [] == x[r.1..];
  }

  lemma {:induction false} ParseStops(link: Link, d: Dispatcher, bytes: seq<byte>)
    requires link.maxFrame >= 8 && Tunes(d) && (bytes == [] || !Find(link.maxFrame, bytes).Whole?)
    ensures var p := ParseLoop(link, d, bytes);
            && p.processed == 0
            && (p.expects.None? <==> bytes != [] && Find(link.maxFrame, bytes).Broken?)
            && p.link == if p.expects.None? then link.(broken := true) else link
  {
    hide Find;
  }

  lemma {:induction false} ParseStep(link: Link, d: Dispatcher, bytes: seq<byte>, next: Link, tail: seq<byte>)
    requires link.maxFrame >= 8 && Tunes(d) && bytes != [] && Find(link.maxFrame, bytes).Whole?
    requires var f := Find(link.maxFrame, bytes);
             && !d(link.handled, f.frame).Throws?
             && next == Handle(link, d(link.handled, f.frame), f.frame)
             && tail == bytes[f.size..]
    ensures var p, r := ParseLoop(link, d, bytes), ParseLoop(next, d, tail);
            p == r.(processed := Find(link.maxFrame, bytes).size + r.processed)
  {
    hide Find, Handle;
  }

  /** The loop of `parse` is the reference, and then whatever it still finds behind a closing frame. */
  lemma {:induction false} ParseRefinesDeframe(link: Link, d: Dispatcher, bytes: seq<byte>)
    requires link.maxFrame >= 8 && Tunes(d) && !link.closed
    ensures var s := Deframe(link, d, bytes);
            var rest := ParseLoop(s.0, d, bytes[s.1..]);
            var p := ParseLoop(link, d, bytes);
            && p.link == rest.link && p.processed == s.1 + rest.processed
            && (!s.0.closed ==> p.link == s.0 && p.processed == s.1)
            && p.link.closed == s.0.closed
    decreases |bytes|
  {
    hide Find, Handle, ParseLoop, Deframe, Tunes;
    assert bytes[0..] == bytes;
    var w := Find(link.maxFrame, bytes);
    if bytes == [] || !w.Whole? {
      ParseStops(link, d, bytes);
      if bytes == [] || w.Partial? {
        DeframeStops(link, d, bytes);
      } else {
        DeframeBreaks(link, d, bytes);
        ParseStops(link.(broken := true), d, bytes);
      }
    } else if d(link.handled, w.frame).Throws? {
      ParseThrows(link, d, bytes);
      DeframeBreaks(link, d, bytes);
      ParseThrows(link.(broken := true), d, bytes);
    } else {
      TuneBound(d, link.handled, w.frame);
      var next := Handle(link, d(link.handled, w.frame), w.frame);
      var tail := bytes[w.size..];
      ParseStep(link, d, bytes, next, tail);
      DeframeStep(link, d, bytes, next, tail);
      var s := Deframe(next, d, tail);
      assert tail[s.1..] == bytes[w.size + s.1..];
      if next.closed {
        DeframeStops(next, d, tail);
        ClosedStaysClosed(next, d, tail);
      } else {
        ParseRefinesDeframe(next, d, tail);
      }
    }
  }

  lemma {:induction false} ParseThrows(link: Link, d: Dispatcher, bytes: seq<byte>)
    requires link.maxFrame >= 8 && Tunes(d) && bytes != [] && Find(link.maxFrame, bytes).Whole?
    requires d(link.handled, Find(link.maxFrame, bytes).frame).Throws?
    ensures ParseLoop(link, d, bytes) == Parsed(link.(broken := true), 0, None)
  {
    hide Find;
  }

  lemma {:induction false} ClosedStaysClosed(link: Link, d: Dispatcher, bytes: seq<byte>)
    requires link.maxFrame >= 8 && Tunes(d) && link.closed
    ensures ParseLoop(link, d, bytes).link.closed
    decreases |bytes|
  {
    if bytes != [] && Find(link.maxFrame, bytes).Whole? {
      var w := Find(link.maxFrame, bytes);
      var effect := d(link.handled, w.frame);
      if !effect.Throws? {
        ClosedStaysClosed(Handle(link, effect, w.frame), d, bytes[w.size..]);
      }
    }
  }

  lemma {:induction false} HandledGrows(link: Link, d: Dispatcher, bytes: seq<byte>)
    requires link.maxFrame >= 8 && Tunes(d)
    ensures var r := ParseLoop(link, d, bytes);
            && link.handled <= r.link.handled
            && (r.processed > 0 <==> |link.handled| < |r.link.handled|)
            && (r.processed == 0 ==> r.link == link || r.link == link.(broken := true))
            && (link.broken ==> r.link.broken)
    decreases |bytes|
  {
    if bytes != [] && Find(link.maxFrame, bytes).Whole? {
      var w := Find(link.maxFrame, bytes);
      var effect := d(link.handled, w.frame);
      if !effect.Throws? {
        HandledGrows(Handle(link, effect, w.frame), d, bytes[w.size..]);
      }
    }
  }

  /** With more octets the loop handles the same frames, and perhaps more. */
  lemma {:induction false} ParseIsMonotone(link: Link, d: Dispatcher, x: seq<byte>, y: seq<byte>)
    requires link.maxFrame >= 8 && Tunes(d)
    ensures var p, q := ParseLoop(link, d, x), ParseLoop(link, d, x + y);
            p.link.handled <= q.link.handled && p.processed <= q.processed && (p.link.broken ==> q.link.broken)
    decreases |x|
  {
    if x == [] || Find(link.maxFrame, x).Partial? {
      HandledGrows(link, d, x + y);
    } else {
      FindIsStable(link.maxFrame, x, y);
      if Find(link.maxFrame, x).Whole? {
        var w := Find(link.maxFrame, x);
        var effect := d(link.handled, w.frame);
        if !effect.Throws? {
          assert (x + y)[w.size..] == x[w.size..] + y;
          ParseIsMonotone(Handle(link, effect, w.frame), d, x[w.size..], y);
        }
      }
    }
  }

  /** After an exception the octets that raised it raise it again, whatever follows them: no later frame is handled. */
  lemma {:induction false} ErrorRepeats(link: Link, d: Dispatcher, x: seq<byte>, y: seq<byte>)
    requires link.maxFrame >= 8 && Tunes(d) && ParseLoop(link, d, x).expects.None?
    ensures var r := ParseLoop(link, d, x);
            r.link.broken && ParseLoop(r.link, d, x[r.processed..] + y) == Parsed(r.link, 0, None)
    decreases |x|
  {
    hide Find, Handle, ParseLoop, Tunes;
    var w := Find(link.maxFrame, x);
    assert x[0..] == x;
    if x == [] || !w.Whole? {
      ParseStops(link, d, x);
      FindIsStable(link.maxFrame, x, y);
      ParseStops(link.(broken := true), d, x + y);
    } else if d(link.handled, w.frame).Throws? {
      ParseThrows(link, d, x);
      FindIsStable(link.maxFrame, x, y);
      ParseThrows(link.(broken := true), d, x + y);
    } else {
      TuneBound(d, link.handled, w.frame);
      var next, tail := Handle(link, d(link.handled, w.frame), w.frame), x[w.size..];
      ParseStep(link, d, x, next, tail);
      ErrorRepeats(next, d, tail, y);
      assert tail[ParseLoop(next, d, tail).processed..] == x[ParseLoop(link, d, x).processed..];
    }
  }

  /* ----- any sequence of calls ----- */

  /** A caller that presents what is pending in front of each new chunk. */
  function Feed(link: Link, d: Dispatcher, pending: seq<byte>, chunks: seq<seq<byte>>): (r: (Link, seq<byte>))
    requires link.maxFrame >= 8 && Tunes(d)
    ensures r.0.maxFrame >= 8
    decreases |chunks|
  {
    if chunks == [] then (link, pending)
    else
      var r := Parse(link, d, pending + chunks[0]);
      Feed(r.link, d, (pending + chunks[0])[r.processed..], chunks[1..])
  }

  lemma {:induction false} FeedClosed(link: Link, d: Dispatcher, pending: seq<byte>, chunks: seq<seq<byte>>)
    requires link.maxFrame >= 8 && Tunes(d) && link.closed
    ensures Feed(link, d, pending, chunks) == (link, pending + Flatten(chunks))
    decreases |chunks|
  {
    if chunks == [] {
      assert pending + Flatten(chunks) == pending;
    } else {
      var x := pending + chunks[0];
      assert x[0..] == x;
      FeedClosed(link, d, x, chunks[1..]);
      assert x + Flatten(chunks[1..]) == pending + Flatten(chunks);
    }
  }

  /** What the calls did together, against the reference and against one call on all the octets. */
  ghost predicate Bracketed(fed: (Link, seq<byte>), reference: (Link, nat), once: Parsed, bytes: seq<byte>) {
    && reference.0.handled <= fed.0.handled <= once.link.handled
    && fed.0.closed == reference.0.closed == once.link.closed
    && once.processed <= |bytes|
    && (reference.0 == once.link ==> fed == (once.link, bytes[once.processed..]))
  }

  /** The chunk that closes the connection: the rest of the stream is never looked at. */
  lemma {:induction false} ClosingChunk(link: Link, d: Dispatcher, x: seq<byte>, y: seq<byte>, fed: (Link, seq<byte>))
    requires link.maxFrame >= 8 && Tunes(d) && !link.closed && Deframe(link, d, x).0.closed
    requires var r := ParseLoop(link, d, x); fed == (r.link, x[r.processed..] + y)
    ensures Bracketed(fed, Deframe(link, d, x + y), ParseLoop(link, d, x + y), x + y)
  {
    hide ParseLoop, Deframe;
    var s, r := Deframe(link, d, x), ParseLoop(link, d, x);
    DeframeSplits(link, d, x, y);
    DeframeStops(s.0, d, x[s.1..] + y);
    ParseRefinesDeframe(link, d, x);
    ParseRefinesDeframe(link, d, x + y);
    assert (x + y)[s.1..] == x[s.1..] + y;
    ParseIsMonotone(s.0, d, x[s.1..], y);
    HandledGrows(s.0, d, x[s.1..]);
    HandledGrows(s.0, d, x[s.1..] + y);
    assert (x + y)[r.processed..] == x[r.processed..] + y;
  }

  /**
   For every stream and every way of cutting it into calls: the frames handled are at least those
   of the reference and at most those of one call, a connection closes in all three or in none,
   and the calls agree with one call when nothing to act on stands behind a closing frame.
   */
  lemma {:induction false} ChunkingIsBracketed(link: Link, d: Dispatcher, pending: seq<byte>, chunks: seq<seq<byte>>)
    requires link.maxFrame >= 8 && Tunes(d) && !link.closed && Deframe(link, d, pending) == (link, 0)
    ensures var bytes := pending + Flatten(chunks);
            Bracketed(Feed(link, d, pending, chunks), Deframe(link, d, bytes), ParseLoop(link, d, bytes), bytes)
    decreases |chunks|, 0
  {
    var bytes := pending + Flatten(chunks);
    if chunks == [] {
      assert bytes == pending && bytes[0..] == bytes;
      ParseRefinesDeframe(link, d, pending);
    } else {
      var x, y := pending + chunks[0], Flatten(chunks[1..]);
      assert bytes == x + y;
      ParseRefinesDeframe(link, d, x);
      var s, r := Deframe(link, d, x), ParseLoop(link, d, x);
      if s.0.closed {
        FeedClosed(r.link, d, x[r.processed..], chunks[1..]);
        ClosingChunk(link, d, x, y, Feed(link, d, pending, chunks));
      } else {
        OpenChunk(link, d, x, chunks[1..]);
      }
    }
  }

  lemma {:induction false} OpenChunk(link: Link, d: Dispatcher, x: seq<byte>, chunks: seq<seq<byte>>)
    requires link.maxFrame >= 8 && Tunes(d) && !link.closed && !Deframe(link, d, x).0.closed
    ensures var bytes := x + Flatten(chunks);
            var r := ParseLoop(link, d, x);
            Bracketed(Feed(r.link, d, x[r.processed..], chunks),
                      Deframe(link, d, bytes), ParseLoop(link, d, bytes), bytes)
    decreases |chunks|, 1
  {
    hide Deframe, ParseLoop, Feed;
    var y := Flatten(chunks);
    var s := Deframe(link, d, x);
    var rest := x[s.1..] + y;
    ParseRefinesDeframe(link, d, x);
    DeframeSettles(link, d, x);
    ChunkingIsBracketed(s.0, d, x[s.1..], chunks);
    DeframeSplits(link, d, x, y);
    ParseRefinesDeframe(link, d, x + y);
    ParseRefinesDeframe(s.0, d, rest);
    var t := Deframe(s.0, d, rest);
    assert rest[t.1..] == (x + y)[s.1 + t.1..];
    var p := ParseLoop(s.0, d, rest);
    assert rest[p.processed..] == (x + y)[s.1 + p.processed..];
  }

  /** Behind a frame that closed the connection stands at most the beginning of another. */
  ghost predicate NothingAfterClose(link: Link, d: Dispatcher, bytes: seq<byte>)
    requires link.maxFrame >= 8 && Tunes(d)
  {
    var s := Deframe(link, d, bytes);
    s.0.closed ==> s.1 == |bytes| || Find(s.0.maxFrame, bytes[s.1..]).Partial?
  }

  /** The loop leaves a link as it is exactly when it finds nothing to act on. */
  lemma {:induction false} IdleIff(link: Link, d: Dispatcher, bytes: seq<byte>)
    requires link.maxFrame >= 8 && Tunes(d) && !link.broken
    ensures ParseLoop(link, d, bytes).link == link <==> bytes == [] || Find(link.maxFrame, bytes).Partial?
  {
    hide ParseLoop, Handle, Find, Tunes;
    var w := Find(link.maxFrame, bytes);
    if bytes == [] || !w.Whole? {
      ParseStops(link, d, bytes);
    } else if d(link.handled, w.frame).Throws? {
      ParseThrows(link, d, bytes);
    } else {
      TuneBound(d, link.handled, w.frame);
      var next := Handle(link, d(link.handled, w.frame), w.frame);
      ParseStep(link, d, bytes, next, bytes[w.size..]);
      HandledGrows(link, d, bytes);
    }
  }

  lemma {:induction false} ClosedIsNotBroken(link: Link, d: Dispatcher, bytes: seq<byte>)
    requires link.maxFrame >= 8 && Tunes(d) && link.Open()
    ensures var s := Deframe(link, d, bytes); s.0.closed ==> !s.0.broken
    decreases |bytes|
  {
    hide Find;
    if bytes != [] && Find(link.maxFrame, bytes).Whole? {
      var w := Find(link.maxFrame, bytes);
      var effect := d(link.handled, w.frame);
      if !effect.Throws? && !Handle(link, effect, w.frame).closed {
        ClosedIsNotBroken(Handle(link, effect, w.frame), d, bytes[w.size..]);
      }
    }
  }

  ghost predicate ChunkingAgrees(link: Link, d: Dispatcher, bytes: seq<byte>)
    requires link.maxFrame >= 8 && Tunes(d)
  {
    var whole := ParseLoop(link, d, bytes);
    forall chunks: seq<seq<byte>> :: Flatten(chunks) == bytes ==>
                                       Feed(link, d, [], chunks) == (whole.link, bytes[whole.processed..])
  }

  /**
   The calls agree with one call however the stream is cut, exactly when no frame, and no broken one,
   stands behind a closing one.
   */
  lemma {:induction false} ChunkingIndependenceIff(link: Link, d: Dispatcher, bytes: seq<byte>)
    requires link.maxFrame >= 8 && Tunes(d) && link.Open()
    ensures ChunkingAgrees(link, d, bytes) <==> NothingAfterClose(link, d, bytes)
  {
    hide Deframe, ParseLoop, Feed;
    ParseRefinesDeframe(link, d, bytes);
    var s := Deframe(link, d, bytes);
    ClosedIsNotBroken(link, d, bytes);
    if s.0.closed { IdleIff(s.0, d, bytes[s.1..]); }
    if NothingAfterClose(link, d, bytes) {
      forall chunks: seq<seq<byte>> | Flatten(chunks) == bytes
        ensures Feed(link, d, [], chunks)
                == (ParseLoop(link, d, bytes).link, bytes[ParseLoop(link, d, bytes).processed..])
      {
        assert [] + Flatten(chunks) == bytes;
        DeframeNothing(link, d);
        ChunkingIsBracketed(link, d, [], chunks);
      }
    } else {
      CutAtTheClose(link, d, bytes);
    }
  }

  lemma {:induction false} DeframeNothing(link: Link, d: Dispatcher)
    requires link.maxFrame >= 8 && Tunes(d)
    ensures Deframe(link, d, []) == (link, 0)
  {
  }

  /** The cut right behind the closing frame is one that disagrees. */
  lemma {:induction false} CutAtTheClose(link: Link, d: Dispatcher, bytes: seq<byte>)
    requires link.maxFrame >= 8 && Tunes(d) && link.Open() && !NothingAfterClose(link, d, bytes)
    ensures !ChunkingAgrees(link, d, bytes)
  {
    hide Deframe, ParseLoop, Feed;
    var s := Deframe(link, d, bytes);
    var chunks := [bytes[..s.1], bytes[s.1..]];
    assert Flatten(chunks) == bytes by { TwoChunks(bytes, s.1); }
    CutHere(link, d, bytes);
    FeedTwo(link, d, bytes[..s.1], bytes[s.1..]);
    ParseRefinesDeframe(link, d, bytes);
    ClosedIsNotBroken(link, d, bytes);
    IdleIff(s.0, d, bytes[s.1..]);
  }

  lemma {:induction false} TwoChunks(bytes: seq<byte>, k: nat)
    requires k <= |bytes|
    ensures Flatten([bytes[..k], bytes[k..]]) == bytes
  {
    FlattenOne(bytes[k..]);
    assert [bytes[..k], bytes[k..]][1..] == [bytes[k..]];
  }

  lemma {:induction false} FeedTwo(link: Link, d: Dispatcher, x: seq<byte>, y: seq<byte>)
    requires link.maxFrame >= 8 && Tunes(d) && !link.closed && ParseLoop(link, d, x).link.closed
    ensures Feed(link, d, [], [x, y]).0 == ParseLoop(link, d, x).link
  {
    hide ParseLoop;
    assert [] + x == x && [x, y][1..] == [y];
    var r := ParseLoop(link, d, x);
    FeedClosed(r.link, d, x[r.processed..], [y]);
  }

  /** Up to the closing frame, `parse` does what the reference does. */
  lemma {:induction false} CutHere(link: Link, d: Dispatcher, bytes: seq<byte>)
    requires link.maxFrame >= 8 && Tunes(d) && !link.closed && Deframe(link, d, bytes).0.closed
    ensures var s := Deframe(link, d, bytes); ParseLoop(link, d, bytes[..s.1]).link == s.0
    decreases |bytes|
  {
    var s := Deframe(link, d, bytes);
    assert bytes[0..] == bytes;
    if bytes != [] && Find(link.maxFrame, bytes).Whole? {
      var w := Find(link.maxFrame, bytes);
      var effect := d(link.handled, w.frame);
      if !effect.Throws? {
        var next := Handle(link, effect, w.frame);
        var t := Deframe(next, d, bytes[w.size..]);
        FindInPrefix(link.maxFrame, bytes, s.1);
        assert bytes[..s.1][w.size..] == bytes[w.size..][..t.1];
        if next.closed {
          assert bytes[w.size..][..0] == [];
        } else {
          assert bytes[w.size..][t.1..] == bytes[s.1..];
          CutHere(next, d, bytes[w.size..]);
        }
      }
    }
  }

  lemma {:induction false} FindInPrefix(maxFrame: nat, bytes: seq<byte>, k: nat)
    requires maxFrame >= 8 && k <= |bytes| && Find(maxFrame, bytes).Whole? && Find(maxFrame, bytes).size <= k
    ensures Find(maxFrame, bytes[..k]) == Find(maxFrame, bytes)
  {
    var size := PayloadSize(bytes);
    assert bytes[..k][3..7] == bytes[3..7] && bytes[..k][1..3] == bytes[1..3];
    assert bytes[..k][7..size + 7] == bytes[7..size + 7];
  }
}
