/**
 What stands on a stream of octets: frames spelled out, octet by octet. A call to `parse` handles exactly
 the frames that are spelled at the front of what it is given, and stops at the first thing that is none.
 */
module Spelling {
  import opened Bytes
  import opened Options
  import opened Framing

  /* ----- one frame ----- */

  /** A frame that has a spelling within the maximum. */
  predicate Spellable(f: Frame, maxFrame: nat) {
    f.channel < 0x1_0000 && |f.payload| + 8 <= maxFrame && |f.payload| < 0x1_0000_0000
  }

  /** Type, channel and length. */
  function Head(kind: byte, channel: nat, n: nat): (s: seq<byte>)
    requires channel < 0x1_0000 && n < 0x1_0000_0000
    ensures |s| == 7
  {
    [kind, channel / 0x100, channel % 0x100,
     n / 0x100 / 0x100 / 0x100, n / 0x100 / 0x100 % 0x100, n / 0x100 % 0x100, n % 0x100]
  }

  /** Type, channel, length, payload, and the octet 206. */
  function Spelled(f: Frame): (s: seq<byte>)
    requires f.channel < 0x1_0000 && |f.payload| < 0x1_0000_0000
    ensures |s| == |f.payload| + 8
  {
    Head(f.kind, f.channel, |f.payload|) + f.payload + [206]
  }

  /** The length that a header announces. */
  function Announced(bytes: seq<byte>): nat
    requires |bytes| >= 7
  {
    Four(bytes[3], bytes[4], bytes[5], bytes[6])
  }

  lemma {:induction false} HeaderNumbers(bytes: seq<byte>)
    requires |bytes| >= 7
    ensures PayloadSize(bytes) == Announced(bytes) && Announced(bytes) < 0x1_0000_0000
    ensures FromBigEndian(bytes[1..3]) == Two(bytes[1], bytes[2])
  {
    hide FromBigEndian;
    assert bytes[3..7] == [bytes[3], bytes[4], bytes[5], bytes[6]] && bytes[1..3] == [bytes[1], bytes[2]];
    FourOctets(bytes[3], bytes[4], bytes[5], bytes[6]);
    TwoOctets(bytes[1], bytes[2]);
  }

  /**
   What a receiver makes of any octets: a header that is not all there waits for its seven octets, a length
   beyond the maximum is an error, a frame that is not all there waits for what was announced, and one that
   is there is an error exactly if its last octet is not 206.
   */
  lemma {:induction false} FindOnOctets(maxFrame: nat, bytes: seq<byte>)
    requires maxFrame >= 8
    ensures |bytes| < 7 ==> Find(maxFrame, bytes) == Partial(7)
    ensures |bytes| >= 7 && Announced(bytes) + 8 > maxFrame ==> Find(maxFrame, bytes) == Broken
    ensures |bytes| >= 7 && |bytes| < Announced(bytes) + 8 <= maxFrame ==>
              Find(maxFrame, bytes) == Partial(Announced(bytes) + 8)
    ensures |bytes| >= 7 && Announced(bytes) + 8 <= maxFrame && Announced(bytes) + 8 <= |bytes| ==>
              Find(maxFrame, bytes)
              == if bytes[Announced(bytes) + 7] != 206 then Broken
                 else Whole(Frame(bytes[0], Two(bytes[1], bytes[2]), bytes[7..Announced(bytes) + 7]),
                            Announced(bytes) + 8)
  {
    hide FromBigEndian;
    if |bytes| >= 7 { HeaderNumbers(bytes); }
  }

  /** A frame is found exactly where it is spelled out. */
  lemma {:induction false} FoundIffSpelled(maxFrame: nat, bytes: seq<byte>, f: Frame, size: nat)
    requires maxFrame >= 8
    ensures Find(maxFrame, bytes) == Whole(f, size)
            <==> Spellable(f, maxFrame) && size == |f.payload| + 8 && Spelled(f) <= bytes
  {
    hide Find;
    FindOnOctets(maxFrame, bytes);
    if Find(maxFrame, bytes) == Whole(f, size) {
      HeadAt(bytes);
      SpelledAt(bytes, f);
    } else if Spellable(f, maxFrame) && size == |f.payload| + 8 && Spelled(f) <= bytes {
      ReadsAs(bytes, f);
    }
  }

  lemma {:induction false} HeadAt(bytes: seq<byte>)
    requires |bytes| >= 7
    ensures Two(bytes[1], bytes[2]) < 0x1_0000 && Announced(bytes) < 0x1_0000_0000
    ensures bytes[..7] == Head(bytes[0], Two(bytes[1], bytes[2]), Announced(bytes))
  {
    HeaderNumbers(bytes);
    Digits(bytes[3], bytes[4], bytes[5], bytes[6]);
    LowDigit(bytes[1], bytes[2]);
  }

  lemma {:induction false} SpelledAt(bytes: seq<byte>, f: Frame)
    requires f.channel < 0x1_0000 && |f.payload| < 0x1_0000_0000 && |bytes| >= |f.payload| + 8
    requires bytes[0] == f.kind && Two(bytes[1], bytes[2]) == f.channel && Announced(bytes) == |f.payload|
    requires bytes[7..|f.payload| + 7] == f.payload && bytes[|f.payload| + 7] == 206
    ensures Spelled(f) <= bytes
  {
    hide Head, Two, Announced;
    HeadAt(bytes);
    var n := |f.payload| + 8;
    assert bytes[..n] == bytes[..7] + bytes[7..n - 1] + [bytes[n - 1]];
  }

  lemma {:induction false} ReadsAs(bytes: seq<byte>, f: Frame)
    requires f.channel < 0x1_0000 && |f.payload| < 0x1_0000_0000 && Spelled(f) <= bytes
    ensures |bytes| >= |f.payload| + 8 && Announced(bytes) == |f.payload| && bytes[|f.payload| + 7] == 206
    ensures bytes[0] == f.kind && Two(bytes[1], bytes[2]) == f.channel && bytes[7..|f.payload| + 7] == f.payload
  {
    Number(|f.payload|);
    var s := Spelled(f);
    assert forall i :: 0 <= i < |s| ==> bytes[i] == s[i];
    assert s[7..|f.payload| + 7] == f.payload && bytes[7..|f.payload| + 7] == s[7..|f.payload| + 7];
  }

  /* ----- a stream ----- */

  /** The connection after it has processed frames, computed from the frames alone. */
  function After(link: Link, d: Dispatcher, fs: seq<Frame>): (r: Link)
    decreases |fs|
  {
    if fs == [] then link
    else
      var effect := d(link.handled, fs[0]);
      After(Link(if effect.Tuned? then effect.max else link.maxFrame, link.closed || effect.Closes?, link.broken,
                 link.handled + [fs[0]]), d, fs[1..])
  }

  /** Every frame fits the maximum of its time, and none makes the connection throw. */
  ghost predicate Processable(link: Link, d: Dispatcher, fs: seq<Frame>)
    decreases |fs|
  {
    fs == [] || (Spellable(fs[0], link.maxFrame) && !d(link.handled, fs[0]).Throws?
                 && Processable(After(link, d, [fs[0]]), d, fs[1..]))
  }

  ghost function SpelledAll(fs: seq<Frame>): seq<byte> {
    if fs == [] then []
    else
      (if fs[0].channel < 0x1_0000 && |fs[0].payload| < 0x1_0000_0000 then Spelled(fs[0]) else [])
      + SpelledAll(fs[1..])
  }

  /** Nothing to handle at the front: an incomplete frame, a broken one, or one that makes the connection throw. */
  ghost predicate Stops(link: Link, d: Dispatcher, rest: seq<byte>, r: Parsed)
    requires link.maxFrame >= 8
  {
    if rest == [] then r == Parsed(link, r.processed, Some(7))
    else
      match Find(link.maxFrame, rest)
      case Partial(need) => r == Parsed(link, r.processed, Some(need))
      case Broken => r == Parsed(link.(broken := true), r.processed, None)
      case Whole(f, _) => d(link.handled, f).Throws? && r == Parsed(link.(broken := true), r.processed, None)
  }

  lemma {:induction false} AfterOne(link: Link, d: Dispatcher, f: Frame)
    requires link.maxFrame >= 8 && Tunes(d) && !d(link.handled, f).Throws?
    ensures After(link, d, [f]) == Handle(link, d(link.handled, f), f) && After(link, d, [f]).maxFrame >= 8
  {
    hide Tunes;
    TuneBound(d, link.handled, f);
    assert [f][1..] == [];
  }

  lemma {:induction false} SpelledFront(f: Frame, fs: seq<Frame>, maxFrame: nat)
    requires Spellable(f, maxFrame)
    ensures SpelledAll([f] + fs) == Spelled(f) + SpelledAll(fs)
  {
    hide Spelled;
    assert ([f] + fs)[1..] == fs;
  }

  lemma {:induction false} AfterFront(link: Link, d: Dispatcher, f: Frame, fs: seq<Frame>)
    ensures After(link, d, [f] + fs) == After(After(link, d, [f]), d, fs)
  {
    assert ([f] + fs)[1..] == fs && [f][1..] == [];
  }

  lemma {:induction false} ProcessableFront(link: Link, d: Dispatcher, f: Frame, fs: seq<Frame>)
    ensures Processable(link, d, [f] + fs)
            <==> Spellable(f, link.maxFrame) && !d(link.handled, f).Throws? && Processable(After(link, d, [f]), d, fs)
  {
    assert ([f] + fs)[1..] == fs;
  }

  lemma {:induction false} AfterHandles(link: Link, d: Dispatcher, fs: seq<Frame>)
    ensures After(link, d, fs).handled == link.handled + fs && After(link, d, fs).broken == link.broken
    decreases |fs|
  {
    if fs == [] {
      assert link.handled + fs == link.handled;
    } else {
      var effect := d(link.handled, fs[0]);
      var next := Link(if effect.Tuned? then effect.max else link.maxFrame, link.closed || effect.Closes?, link.broken,
                       link.handled + [fs[0]]);
      AfterHandles(next, d, fs[1..]);
      assert (link.handled + [fs[0]]) + fs[1..] == link.handled + fs;
    }
  }

  /** Frames spelled out in front are handled one by one, and then the rest is parsed. */
  lemma {:induction false} SpelledIsParsed(link: Link, d: Dispatcher, fs: seq<Frame>, rest: seq<byte>)
    requires link.maxFrame >= 8 && Tunes(d) && Processable(link, d, fs)
    ensures After(link, d, fs).maxFrame >= 8
    ensures var r := ParseLoop(After(link, d, fs), d, rest);
            ParseLoop(link, d, SpelledAll(fs) + rest) == r.(processed := |SpelledAll(fs)| + r.processed)
    decreases |fs|
  {
    hide Find, ParseLoop, Tunes, Spelled, Handle, SpelledAll, After, Processable;
    if fs == [] {
      NothingSpelled(link, d);
      assert SpelledAll(fs) + rest == rest;
    } else {
      var f, more := fs[0], fs[1..];
      assert fs == [f] + more;
      ProcessableFront(link, d, f, more);
      SpelledFront(f, more, link.maxFrame);
      AfterFront(link, d, f, more);
      AfterOne(link, d, f);
      var tail := SpelledAll(more) + rest;
      var bytes := SpelledAll(fs) + rest;
      assert bytes == Spelled(f) + tail;
      FoundIffSpelled(link.maxFrame, bytes, f, |f.payload| + 8);
      ParseStep(link, d, bytes, After(link, d, [f]), tail);
      SpelledIsParsed(After(link, d, [f]), d, more, rest);
    }
  }

  lemma {:induction false} NothingSpelled(link: Link, d: Dispatcher)
    ensures SpelledAll([]) == [] && After(link, d, []) == link && Processable(link, d, [])
  {
  }

  /**
   What a call has processed is the frames it handled, spelled out one after the other: each within the
   maximum of its time, none that throws. The connection is what these frames make of it, unless it broke,
   and behind them stands nothing that could be handled.
   */
  lemma {:induction false} ProcessedIsSpelled(link: Link, d: Dispatcher, bytes: seq<byte>)
    requires link.maxFrame >= 8 && Tunes(d)
    ensures var r := ParseLoop(link, d, bytes);
            && link.handled <= r.link.handled
            && var fs := r.link.handled[|link.handled|..];
               var next := After(link, d, fs);
               && Processable(link, d, fs) && next.maxFrame >= 8
               && bytes[..r.processed] == SpelledAll(fs)
               && Stops(next, d, bytes[r.processed..], r)
    decreases |bytes|
  {
    hide Find, ParseLoop, Tunes, Spelled, Handle, SpelledAll, After, Processable;
    assert bytes[0..] == bytes;
    var w := Find(link.maxFrame, bytes);
    if bytes == [] || !w.Whole? || d(link.handled, w.frame).Throws? {
      if bytes == [] || !w.Whole? { ParseStopsAs(link, d, bytes); } else { ParseThrows(link, d, bytes); }
      NothingSpelled(link, d);
      assert link.handled[|link.handled|..] == [];
    } else {
      var f, tail := w.frame, bytes[w.size..];
      AfterOne(link, d, f);
      var next := After(link, d, [f]);
      ParseStep(link, d, bytes, next, tail);
      ProcessedIsSpelled(next, d, tail);
      FoundIffSpelled(link.maxFrame, bytes, f, w.size);
      AfterHandles(link, d, [f]);
      StreamStep(link, d, bytes, f, w.size);
    }
  }

  lemma {:induction false} ParseStopsAs(link: Link, d: Dispatcher, bytes: seq<byte>)
    requires link.maxFrame >= 8 && Tunes(d) && (bytes == [] || !Find(link.maxFrame, bytes).Whole?)
    ensures Stops(link, d, bytes, ParseLoop(link, d, bytes)) && ParseLoop(link, d, bytes).processed == 0
    ensures ParseLoop(link, d, bytes).link.handled == link.handled
  {
    hide Find;
  }

  lemma {:induction false} StreamStep(link: Link, d: Dispatcher, bytes: seq<byte>, f: Frame, size: nat)
    requires link.maxFrame >= 8 && Tunes(d) && Spellable(f, link.maxFrame) && !d(link.handled, f).Throws?
    requires Spelled(f) <= bytes && size == |f.payload| + 8
    requires var next := After(link, d, [f]); next.maxFrame >= 8 && next.handled == link.handled + [f]
    requires var s := ParseLoop(After(link, d, [f]), d, bytes[size..]);
             && ParseLoop(link, d, bytes) == s.(processed := size + s.processed)
             && link.handled + [f] <= s.link.handled
             && var more := s.link.handled[|link.handled| + 1..];
                && Processable(After(link, d, [f]), d, more) && After(After(link, d, [f]), d, more).maxFrame >= 8
                && bytes[size..][..s.processed] == SpelledAll(more)
                && Stops(After(After(link, d, [f]), d, more), d, bytes[size..][s.processed..], s)
    ensures var r := ParseLoop(link, d, bytes);
            && link.handled <= r.link.handled
            && var fs := r.link.handled[|link.handled|..];
               && Processable(link, d, fs) && After(link, d, fs).maxFrame >= 8
               && bytes[..r.processed] == SpelledAll(fs)
               && Stops(After(link, d, fs), d, bytes[r.processed..], r)
  {
    hide Find, ParseLoop, Tunes, Spelled, Handle, SpelledAll, After, Processable;
    var s := ParseLoop(After(link, d, [f]), d, bytes[size..]);
    var more, fs := s.link.handled[|link.handled| + 1..], s.link.handled[|link.handled|..];
    assert s.link.handled[|link.handled|] == f;
    assert fs == [f] + more;
    ProcessableFront(link, d, f, more);
    SpelledFront(f, more, link.maxFrame);
    AfterFront(link, d, f, more);
    assert bytes[..size] == Spelled(f);
    assert bytes[..size + s.processed] == bytes[..size] + bytes[size..][..s.processed];
    assert bytes[size..][s.processed..] == bytes[size + s.processed..];
  }

  /** A frame of allowed size that ends with any other octet breaks the connection, whatever comes behind it. */
  lemma {:induction false} BadEndBreaks(
    link: Link, d: Dispatcher, fs: seq<Frame>, f: Frame, last: byte, rest: seq<byte>)
    requires link.maxFrame >= 8 && Tunes(d) && Processable(link, d, fs)
    requires Spellable(f, After(link, d, fs).maxFrame) && last != 206
    ensures ParseLoop(link, d, SpelledAll(fs) + (Spelled(f)[..|f.payload| + 7] + [last] + rest))
            == Parsed(After(link, d, fs).(broken := true), |SpelledAll(fs)|, None)
  {
    hide Find, ParseLoop, Tunes, Spelled, SpelledAll, After, Processable;
    var bytes := Spelled(f)[..|f.payload| + 7] + [last] + rest;
    SpelledIsParsed(link, d, fs, bytes);
    EndIsWrong(After(link, d, fs).maxFrame, f, last, rest);
    ParseBreaks(After(link, d, fs), d, bytes);
  }

  lemma {:induction false} EndIsWrong(maxFrame: nat, f: Frame, last: byte, rest: seq<byte>)
    requires maxFrame >= 8 && Spellable(f, maxFrame) && last != 206
    ensures Find(maxFrame, Spelled(f)[..|f.payload| + 7] + [last] + rest) == Broken
  {
    hide Find;
    var bytes := Spelled(f)[..|f.payload| + 7] + [last] + rest;
    Number(|f.payload|);
    FindOnOctets(maxFrame, bytes);
  }

  lemma {:induction false} ParseBreaks(link: Link, d: Dispatcher, bytes: seq<byte>)
    requires link.maxFrame >= 8 && Tunes(d) && bytes != [] && Find(link.maxFrame, bytes).Broken?
    ensures ParseLoop(link, d, bytes) == Parsed(link.(broken := true), 0, None)
  {
    hide Find;
  }

  /** A closed connection parses nothing; any other goes through the loop. */
  lemma {:induction false} ClosedParsesNothing(link: Link, d: Dispatcher, bytes: seq<byte>)
    requires link.maxFrame >= 8 && Tunes(d)
    ensures Parse(link, d, bytes) == if link.closed then Parsed(link, 0, None) else ParseLoop(link, d, bytes)
  {
    hide ParseLoop;
  }
}
