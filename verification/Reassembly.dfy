/**
 Receiving content: a deliver frame, a header that announces the size of the body, and body frames.
 The receiver counts down what is still to come; the message gathers the octets.
 */
module Reassembly {
  import opened Bytes
  import opened Options
  import Content

  datatype Arriving = Deliver | Header(bodySize: nat) | Body(payload: seq<byte>)

  /** A message under construction: a body that came in one frame is not copied. */
  datatype Assembly = Assembly(size: nat, body: seq<byte>, copied: bool)

  /** `append`, and what it returns. */
  function Append(a: Assembly, payload: seq<byte>): (Assembly, bool) {
    if a.copied then
      var room := if |a.body| < a.size then a.size - |a.body| else 0;
      var b := a.body + if |payload| < room then payload else payload[..room];
      (a.(body := b), |b| >= a.size)
    else if |payload| >= a.size then (a.(body := payload[..a.size]), a.size == 0)
    else (Assembly(a.size, payload, true), false)
  }

  /** The receiver of a consumer with a message callback, and the bodies that callback was given. */
  datatype Receiver = Receiver(installed: bool, remaining: nat, message: Option<Assembly>, delivered: seq<seq<byte>>)

  function Complete(r: Receiver): Receiver {
    Receiver(false, r.remaining, None, r.delivered + if r.message.Some? then [r.message.value.body] else [])
  }

  /** Frames that arrive while no receiver is installed are ignored. The count is an unsigned 64-bit word. */
  function Process(r: Receiver, f: Arriving): Receiver {
    match f
    case Deliver => r.(installed := true, message := Some(Assembly(0, [], false)))
    case Header(n) =>
      if !r.installed then r
      else
        var s := r.(remaining := n, message := if r.message.Some? then Some(r.message.value.(size := n)) else None);
        if n == 0 then Complete(s) else s
    case Body(p) =>
      if !r.installed then r
      else
        var s := r.(remaining := (r.remaining - |p|) % 0x1_0000_0000_0000_0000,
        message := if r.message.Some? then Some(Append(r.message.value, p).0) else None);
        if s.remaining == 0 then Complete(s) else s
  }

  function ProcessAll(r: Receiver, fs: seq<Arriving>): Receiver
    decreases |fs|
  {
    if fs == [] then r else ProcessAll(Process(r, fs[0]), fs[1..])
  }

  lemma {:induction false} ProcessAppend(r: Receiver, a: seq<Arriving>, b: seq<Arriving>)
    ensures ProcessAll(r, a + b) == ProcessAll(ProcessAll(r, a), b)
    decreases |a|
  {
    hide Process;
    if a == [] {
      assert a + b == b;
    } else {
      assert (a + b)[1..] == a[1..] + b;
      ProcessAppend(Process(r, a[0]), a[1..], b);
    }
  }

  /* ----- one message ----- */

  function Bodies(chunks: seq<seq<byte>>): (r: seq<Arriving>)
    ensures |r| == |chunks|
  {
    seq(|chunks|, i requires 0 <= i < |chunks| => Body(chunks[i]))
  }

  function Arrivals(size: nat, chunks: seq<seq<byte>>): seq<Arriving> {
    [Deliver, Header(size)] + Bodies(chunks)
  }

  /** A receiver that has `got` the beginning of a body. */
  function Midway(size: nat, got: seq<byte>, copied: bool, delivered: seq<seq<byte>>): Receiver
    requires |got| <= size
  {
    Receiver(true, size - |got|, Some(Assembly(size, got, copied)), delivered)
  }

  /** One body frame that does not exceed what is still to come. */
  lemma {:induction false} BodyStep(size: nat, got: seq<byte>, copied: bool, delivered: seq<seq<byte>>, p: seq<byte>)
    requires |got| + |p| <= size < TWO_TO_THE_64 && |got| < size && (!copied ==> got == [])
    ensures var r := Process(Midway(size, got, copied, delivered), Body(p));
            r == if |got| + |p| < size then Midway(size, got + p, true, delivered)
                 else Receiver(false, 0, None, delivered + [got + p])
  {
    assert !copied ==> got + p == p && p[..|p|] == p;
    var room := size - |got|;
    assert |p| == room ==> p[..room] == p;
  }

  /** Without a receiver, headers and bodies are ignored until a deliver frame installs one. */
  lemma {:induction false} StrayFramesAreIgnored(r: Receiver, fs: seq<Arriving>)
    requires !r.installed && forall f :: f in fs ==> !f.Deliver?
    ensures ProcessAll(r, fs) == r
    decreases |fs|
  {
    if fs != [] {
      assert fs[0] in fs;
      StrayFramesAreIgnored(r, fs[1..]);
    }
  }

  lemma {:induction false} IgnoresBodies(r: Receiver, chunks: seq<seq<byte>>)
    requires !r.installed
    ensures ProcessAll(r, Bodies(chunks)) == r
  {
    hide ProcessAll;
    StrayFramesAreIgnored(r, Bodies(chunks));
  }

  lemma {:induction false} BodiesFront(r: Receiver, chunks: seq<seq<byte>>)
    requires chunks != []
    ensures ProcessAll(r, Bodies(chunks)) == ProcessAll(Process(r, Body(chunks[0])), Bodies(chunks[1..]))
  {
    hide Process;
    assert Bodies(chunks)[1..] == Bodies(chunks[1..]);
  }

  /** However the rest of a body is cut, it arrives whole; before its last octet nothing is delivered. */
  lemma {:induction false} RestArrives(
    size: nat, got: seq<byte>, copied: bool, delivered: seq<seq<byte>>, chunks: seq<seq<byte>>)
    requires |got| < size < TWO_TO_THE_64 && (!copied ==> got == []) && |got| + |Flatten(chunks)| <= size
    ensures var r := ProcessAll(Midway(size, got, copied, delivered), Bodies(chunks));
            if |got| + |Flatten(chunks)| < size then
              r == Midway(size, got + Flatten(chunks), copied || chunks != [], delivered)
            else r == Receiver(false, 0, None, delivered + [got + Flatten(chunks)])
    decreases |chunks|
  {
    hide Process;
    var r := Midway(size, got, copied, delivered);
    if chunks == [] {
      assert got + [] == got;
    } else {
      var p, rest := chunks[0], chunks[1..];
      BodiesFront(r, chunks);
      BodyStep(size, got, copied, delivered, p);
      assert got + p + Flatten(rest) == got + Flatten(chunks);
      if |got| + |p| < size {
        RestArrives(size, got + p, true, delivered, rest);
      } else {
        assert Flatten(rest) == [] && got + p == got + Flatten(chunks);
        IgnoresBodies(Receiver(false, 0, None, delivered + [got + p]), rest);
      }
    }
  }

  /**
   Any body, cut in any way, with empty frames or without: after its header and all its frames it
   has been delivered once, and after fewer octets it has not been delivered yet.
   */
  lemma {:induction false} MessageArrives(r: Receiver, body: seq<byte>, chunks: seq<seq<byte>>)
    requires |body| < TWO_TO_THE_64 && Flatten(chunks) <= body
    ensures var s := ProcessAll(r, Arrivals(|body|, chunks));
            && (Flatten(chunks) == body ==> s == Receiver(false, 0, None, r.delivered + [body]))
            && (Flatten(chunks) != body ==> s.installed && s.delivered == r.delivered)
  {
    hide Process;
    var begun := [Deliver, Header(|body|)];
    ProcessAppend(r, begun, Bodies(chunks));
    Begin(r, |body|);
    if body == [] {
      IgnoresBodies(Receiver(false, 0, None, r.delivered + [[]]), chunks);
    } else {
      RestArrives(|body|, [], false, r.delivered, chunks);
      assert [] + Flatten(chunks) == Flatten(chunks);
    }
  }

  lemma {:induction false} Begin(r: Receiver, size: nat)
    ensures ProcessAll(r, [Deliver, Header(size)])
            == if size == 0 then Receiver(false, 0, None, r.delivered + [[]]) else Midway(size, [], false, r.delivered)
  {
    var fs := [Deliver, Header(size)];
    assert fs[1..] == [Header(size)] && fs[1..][1..] == [];
    assert ProcessAll(r, fs) == ProcessAll(Process(r, Deliver), fs[1..]);
    assert ProcessAll(Process(r, Deliver), fs[1..]) == Process(Process(r, Deliver), Header(size));
  }

  /* ----- any sequence of messages ----- */

  datatype Shipment = Shipment(body: seq<byte>, chunks: seq<seq<byte>>)

  ghost predicate Sound(s: Shipment) {
    Flatten(s.chunks) == s.body && |s.body| < TWO_TO_THE_64
  }

  function Stream(shipments: seq<Shipment>): seq<Arriving> {
    if shipments == [] then []
    else Arrivals(|shipments[0].body|, shipments[0].chunks) + Stream(shipments[1..])
  }

  function BodiesOf(shipments: seq<Shipment>): seq<seq<byte>> {
    if shipments == [] then [] else [shipments[0].body] + BodiesOf(shipments[1..])
  }

  lemma {:induction false} StreamFront(shipments: seq<Shipment>)
    requires shipments != []
    ensures Stream(shipments) == Arrivals(|shipments[0].body|, shipments[0].chunks) + Stream(shipments[1..])
    ensures BodiesOf(shipments) == [shipments[0].body] + BodiesOf(shipments[1..])
  {
    hide Arrivals;
  }

  lemma {:induction false} NothingArrives(r: Receiver)
    ensures ProcessAll(r, Stream([])).delivered == r.delivered + BodiesOf([])
  {
    assert r.delivered + [] == r.delivered;
  }

  /** Messages arrive whole, in order, each once. */
  lemma {:induction false} MessagesArrive(r: Receiver, shipments: seq<Shipment>)
    requires forall s :: s in shipments ==> Sound(s)
    ensures ProcessAll(r, Stream(shipments)).delivered == r.delivered + BodiesOf(shipments)
    decreases |shipments|
  {
    hide ProcessAll, Stream, BodiesOf, Arrivals;
    if shipments == [] {
      NothingArrives(r);
    } else {
      var first, rest := shipments[0], shipments[1..];
      assert Sound(first);
      StreamFront(shipments);
      ProcessAppend(r, Arrivals(|first.body|, first.chunks), Stream(rest));
      MessageArrives(r, first.body, first.chunks);
      var s := ProcessAll(r, Arrivals(|first.body|, first.chunks));
      MessagesArrive(s, rest);
      assert r.delivered + [first.body] + BodiesOf(rest) == r.delivered + ([first.body] + BodiesOf(rest));
    }
  }

  /** What `publish` sends for a body, as it arrives. */
  function Shipped(body: seq<byte>, maxPayload: nat): Shipment
    requires maxPayload > 0
  {
    Shipment(body, Content.Chunks(body, maxPayload))
  }

  function ShippedAll(bodies: seq<seq<byte>>, maxPayload: nat): (r: seq<Shipment>)
    requires maxPayload > 0
    ensures |r| == |bodies|
  {
    seq(|bodies|, i requires 0 <= i < |bodies| => Shipped(bodies[i], maxPayload))
  }

  /** Reassembly undoes the publish split for every sequence of bodies and every maximum frame size above eight. */
  lemma {:induction false} PublishedArrives(r: Receiver, bodies: seq<seq<byte>>, maxFrame: nat)
    requires maxFrame > Content.OVERHEAD && forall b :: b in bodies ==> |b| < TWO_TO_THE_64
    ensures ProcessAll(r, Stream(ShippedAll(bodies, maxFrame - Content.OVERHEAD))).delivered == r.delivered + bodies
  {
    hide ProcessAll, Stream, Content.Chunks;
    var max := maxFrame - Content.OVERHEAD;
    var shipments := ShippedAll(bodies, max);
    forall s | s in shipments ensures Sound(s) {
      Content.ChunksAreTheBody(s.body, max);
    }
    MessagesArrive(r, shipments);
    ShippedBodies(bodies, max);
  }

  lemma {:induction false} ShippedBodies(bodies: seq<seq<byte>>, maxPayload: nat)
    requires maxPayload > 0
    ensures BodiesOf(ShippedAll(bodies, maxPayload)) == bodies
    decreases |bodies|
  {
    hide Content.Chunks;
    if bodies != [] {
      assert ShippedAll(bodies, maxPayload)[1..] == ShippedAll(bodies[1..], maxPayload);
      ShippedBodies(bodies[1..], maxPayload);
    }
  }

  /* ----- frames that do not add up ----- */

  ghost predicate Reaches(size: nat, chunks: seq<seq<byte>>) {
    exists k :: 0 < k <= |chunks| && Hits(size, chunks, k)
  }

  ghost predicate Hits(size: nat, chunks: seq<seq<byte>>, k: nat)
    requires k <= |chunks|
  {
    |Flatten(chunks[..k])| % TWO_TO_THE_64 == size % TWO_TO_THE_64
  }

  /**
   With arbitrary body frames, a message that announced some octets completes exactly when some
   number of frames adds up to that size, up to wrapping of the 64-bit count.
   */
  lemma {:induction false} CompletesIff(r: Receiver, chunks: seq<seq<byte>>)
    requires r.installed && r.remaining < TWO_TO_THE_64
    ensures !ProcessAll(r, Bodies(chunks)).installed <==> Reaches(r.remaining, chunks)
    decreases |chunks|
  {
    hide Append;
    if chunks != [] {
      var s := Process(r, Body(chunks[0]));
      BodiesFront(r, chunks);
      HitsFirst(r.remaining, chunks);
      if s.installed {
        CompletesIff(s, chunks[1..]);
        ReachesLater(r.remaining, chunks);
      } else {
        IgnoresBodies(s, chunks[1..]);
        assert Hits(r.remaining, chunks, 1);
      }
    }
  }

  lemma {:induction false} HitsFirst(size: nat, chunks: seq<seq<byte>>)
    requires chunks != [] && size < TWO_TO_THE_64
    ensures Hits(size, chunks, 1) <==> (size - |chunks[0]|) % TWO_TO_THE_64 == 0
  {
    assert chunks[..1] == [chunks[0]];
    FlattenOne(chunks[0]);
  }

  lemma {:induction false} SameRemainder(first: nat, rest: nat, size: nat)
    ensures (first + rest) % 0x1_0000_0000_0000_0000 == size % 0x1_0000_0000_0000_0000
            <==> rest % 0x1_0000_0000_0000_0000 == (size - first) % 0x1_0000_0000_0000_0000
  {
  }

  lemma {:induction false} HitsLater(size: nat, chunks: seq<seq<byte>>, k: nat)
    requires chunks != [] && k < |chunks| && size < TWO_TO_THE_64
    ensures Hits(size, chunks, k + 1) <==> Hits((size - |chunks[0]|) % TWO_TO_THE_64, chunks[1..], k)
  {
    hide Flatten;
    FlattenFront(chunks[..k + 1]);
    assert chunks[..k + 1][1..] == chunks[1..][..k];
    SameRemainder(|chunks[0]|, |Flatten(chunks[1..][..k])|, size);
  }

  lemma {:induction false} ReachesLater(size: nat, chunks: seq<seq<byte>>)
    requires chunks != [] && size < TWO_TO_THE_64 && !Hits(size, chunks, 1)
    ensures Reaches(size, chunks) <==> Reaches((size - |chunks[0]|) % TWO_TO_THE_64, chunks[1..])
  {
    hide Hits;
    var rest := (size - |chunks[0]|) % TWO_TO_THE_64;
    if Reaches(size, chunks) {
      var k :| 0 < k <= |chunks| && Hits(size, chunks, k);
      HitsLater(size, chunks, k - 1);
      assert Hits(rest, chunks[1..], k - 1);
    }
    if Reaches(rest, chunks[1..]) {
      var k :| 0 < k <= |chunks| - 1 && Hits(rest, chunks[1..], k);
      HitsLater(size, chunks, k);
      assert Hits(size, chunks, k + 1);
    }
  }

  /**
   `append` keeps what fits. It promises to tell whether the message is complete, and does for every
   payload, except for a whole body that comes in one frame.
   */
  lemma {:induction false} AppendTellsIff(size: nat, got: seq<byte>, copied: bool, p: seq<byte>)
    requires |got| <= size && (!copied ==> got == [])
    ensures var r, all := Append(Assembly(size, got, copied), p), got + p;
            && r.0.body == (if |all| < size then all else all[..size])
            && (r.1 == (|r.0.body| == size) <==> copied || |p| < size || size == 0)
  {
    var room := size - |got|;
    if !copied {
      assert got + p == p;
    } else if |p| >= room {
      assert (got + p)[..size] == got + p[..room];
    }
  }
}
