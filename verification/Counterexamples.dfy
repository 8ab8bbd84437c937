/** Concrete inputs for the laws that do not hold of every input. Each has its exact condition beside the law. */
module Counterexamples {
  import opened Bytes
  import opened Options
  import opened FieldCodec
  import opened FieldTheorems
  import Framing
  import Reassembly
  import Confirms
  import ConfirmTheorems
  import ConfirmCloses
  import Closing
  import ChannelIds
  import Content
  import Frames
  import MetaDataCodec

  /** A short string of 256 octets announces none of them, and does not decode to itself. */
  lemma {:induction false} LongTextIsLost()
    ensures var f := ShortString(seq(256, _ => 0));
            && Valid(f) && Size(f) < TWO_TO_THE_32
            && DecodeField(Buffer(EncodeTagged(f)), 0) != Ok(Some(f), 1 + Size(f))
  {
    hide DecodeField, EncodeTagged;
    RoundTripIffFits(ShortString(seq(256, _ => 0)));
  }

  lemma {:induction false} SmallNumber(n: byte)
    ensures FromBigEndian([0, 0, 0, n]) == n
  {
    assert [0, 0, 0, n][..3] == [0, 0, 0];
    assert [0, 0, 0][..2] == [0, 0] && [0, 0][..1] == [0] && [0][..0] == [];
    assert FromBigEndian([]) == 0 && FromBigEndian([0]) == 0 && FromBigEndian([0, 0]) == 0;
    assert FromBigEndian([0, 0, 0]) == 0;
  }

  const OVERRUN: Buffer := Buffer([0, 0, 0, 5, 65, 0, 0, 0, 1, 0])

  /** The array nested in it has one octet with an unknown tag, which its size does not count. */
  lemma {:induction false} InnerArray()
    ensures DecodeField(OVERRUN, 4) == Ok(Some(Array([])), 10)
  {
    var b := OVERRUN;
    assert b.bytes[5..9] == [0, 0, 0, 1];
    SmallNumber(1);
    assert KindOf(0).None?;
    assert DecodeScalar(b, 10, 0) == Ok(None, 10);
    assert DecodeField(b, 9) == Ok(None, 10);
    assert ReadItems(b, 10, 0, []) == Ok([], 10);
    assert ReadItems(b, 9, 1, []) == Ok([], 10);
    assert DecodeArray(b, 5) == Ok([], 10);
  }

  /** An array that declares five octets and takes six. */
  lemma {:induction false} NestedArrayOverruns()
    ensures FromBigEndian(OVERRUN.bytes[0..4]) == 5
    ensures DecodeArray(OVERRUN, 0) == Ok([Array([])], 10)
  {
    hide DecodeField;
    var b := OVERRUN;
    assert b.bytes[0..4] == [0, 0, 0, 5];
    SmallNumber(5);
    InnerArray();
    assert Size(Array([])) == 4;
    assert ReadItems(b, 10, 0, [Array([])]) == Ok([Array([])], 10);
    assert [] + [Array([])] == [Array([])];
    assert ReadItems(b, 4, 5, []) == Ok([Array([])], 10);
  }

  /* ----- frames behind a closing frame ----- */

  /** Class 10, method 51: the answer to a close of the connection. */
  const CLOSE_OK: seq<byte> := [0, 10, 0, 51]

  /** A connection that this answer closes, and that keeps going otherwise. */
  const CLOSED_BY_ANSWER: Framing.Dispatcher :=
    (h: seq<Framing.Frame>, f: Framing.Frame) =>
      if f.kind == 1 && f.payload == CLOSE_OK then Framing.Closes else Framing.Keep

  const OPEN_LINK: Framing.Link := Framing.Link(4096, false, false, [])

  const CLOSE_OK_FRAME: seq<byte> := [1, 0, 0, 0, 0, 0, 4, 0, 10, 0, 51, 206]

  const HEARTBEAT_FRAME: seq<byte> := [8, 0, 0, 0, 0, 0, 0, 206]

  lemma {:induction false} ZeroChannel()
    ensures FromBigEndian([0, 0]) == 0
  {
    assert [0, 0][..1] == [0] && [0][..0] == [];
    assert FromBigEndian([]) == 0 && FromBigEndian([0]) == 0;
  }

  lemma {:induction false} CloseOkIsFound(rest: seq<byte>)
    ensures Framing.Find(4096, CLOSE_OK_FRAME + rest) == Framing.Whole(Framing.Frame(1, 0, CLOSE_OK), 12)
    ensures (CLOSE_OK_FRAME + rest)[12..] == rest
  {
    var bytes := CLOSE_OK_FRAME + rest;
    assert bytes[1..3] == [0, 0] && bytes[3..7] == [0, 0, 0, 4] && bytes[7..11] == CLOSE_OK;
    SmallNumber(4);
    ZeroChannel();
  }

  lemma {:induction false} HeartbeatIsFound()
    ensures Framing.Find(4096, HEARTBEAT_FRAME) == Framing.Whole(Framing.Frame(8, 0, []), 8)
  {
    var bytes := HEARTBEAT_FRAME;
    assert bytes[1..3] == [0, 0] && bytes[3..7] == [0, 0, 0, 0] && bytes[7..7] == [];
    SmallNumber(0);
    ZeroChannel();
  }

  /** Two calls that cut behind the close-ok handle one frame, and one call handles two. */
  lemma {:induction false} HeartbeatBehindClose()
    ensures Framing.Tunes(CLOSED_BY_ANSWER)
    ensures !Framing.ChunkingAgrees(OPEN_LINK, CLOSED_BY_ANSWER, CLOSE_OK_FRAME + HEARTBEAT_FRAME)
  {
    hide Framing.Find, Framing.ChunkingAgrees;
    var d, rest := CLOSED_BY_ANSWER, HEARTBEAT_FRAME;
    var bytes := CLOSE_OK_FRAME + rest;
    CloseOkIsFound(rest);
    HeartbeatIsFound();
    var after := Framing.Link(4096, true, false, [Framing.Frame(1, 0, CLOSE_OK)]);
    assert [] + [Framing.Frame(1, 0, CLOSE_OK)] == [Framing.Frame(1, 0, CLOSE_OK)];
    Framing.DeframeStops(after, d, rest);
    Framing.DeframeStep(OPEN_LINK, d, bytes, after, rest);
    Framing.CutAtTheClose(OPEN_LINK, d, bytes);
  }

  /* ----- content ----- */

  /** A body of one octet in one frame: the message is complete, and `append` says that it is not. */
  lemma {:induction false} WholeBodyIsSilent()
    ensures var r := Reassembly.Append(Reassembly.Assembly(1, [], false), [0]); |r.0.body| == r.0.size && !r.1
  {
  }

  /** With no room in a frame, a body of one octet is never sent. */
  lemma {:induction false} NoRoomForABody(turns: nat)
    ensures Content.Left(1, 0, turns) > 0
  {
    Content.LeftStays(1, turns);
  }

  /* ----- publishing after close ----- */

  /** One message published and sent. */
  lemma {:induction false} FirstPublish(throttle: nat, m: Confirms.Message)
    requires throttle > 0
    ensures var one := Confirms.Publish(Confirms.Fresh(1, throttle), m);
            && ConfirmTheorems.Agrees(one, {})
            && one.current == 2 && one.last == 1 && one.queue == [] && one.open == {1} && one.handlers == map[1 := m]
            && !one.closing && one.history.published == [m] && one.history.resolved == [] && one.history.closes == 0
            && one.throttle == throttle
  {
    hide Confirms.SendAll;
    ConfirmTheorems.FreshAgrees(1, throttle);
    ConfirmTheorems.AdmitKeeps(Confirms.Fresh(1, throttle), m, {});
    ConfirmTheorems.SendWhole(Confirms.Fresh(1, throttle), m);
    assert [] + [m] == [m] && {} + {1} == {1};
  }

  lemma {:induction false} CloseLater(w: Confirms.Window)
    requires 1 in w.handlers && !w.closing
    ensures Confirms.Close(w) == w.(closing := true)
  {
    assert |w.handlers| > 0;
  }

  /** A message on its way, and a close. */
  lemma {:induction false} PublishAndClose(m: Confirms.Message)
    ensures var one := Confirms.Publish(Confirms.Fresh(1, 1), m);
            var two := Confirms.Close(one);
            && two == one.(closing := true) && ConfirmTheorems.Agrees(two, {})
            && two == Confirms.Run(Confirms.Fresh(1, 1), [Confirms.Publishing(m), Confirms.Closing])
  {
    hide ConfirmTheorems.Agrees, Confirms.Publish, Confirms.Close;
    var start := Confirms.Fresh(1, 1);
    FirstPublish(1, m);
    ConfirmTheorems.ShutKeeps(Confirms.Publish(start, m), {});
    CloseLater(Confirms.Publish(start, m));
    TwoEvents(start, Confirms.Publishing(m), Confirms.Closing);
  }

  /** A second message behind the close: only the first got a tag, and its confirm acks both. */
  lemma {:induction false} SecondMessageIsAcked(m: Confirms.Message, refused: Confirms.Message)
    ensures var events := [Confirms.Publishing(m), Confirms.Closing, Confirms.Publishing(refused)];
            var w := Confirms.Run(Confirms.Fresh(1, 1), events);
            && w.history.published == [m]
            && Confirms.Resolution(0, Confirms.Acked)
               in Confirms.Step(w, Confirms.Confirming(1, true, true)).history.resolved
  {
    hide ConfirmTheorems.Agrees, Confirms.Confirm, Confirms.SendAll, Confirms.Publish, Confirms.Close;
    var start := Confirms.Fresh(1, 1);
    FirstPublish(1, m);
    PublishAndClose(m);
    var two := Confirms.Close(Confirms.Publish(start, m));
    ConfirmCloses.RefusedIsAcked(two, refused, 1);
    var e := Confirms.Step(Confirms.Step(two, Confirms.Publishing(refused)), Confirms.Confirming(1, true, true));
    var at := |two.history.resolved|;
    assert (two.history.resolved + [Confirms.Resolution(0, Confirms.Acked)])[at] == e.history.resolved[at];
    ThreeEvents(start, Confirms.Publishing(m), Confirms.Closing, Confirms.Publishing(refused));
  }

  /** The same two messages, confirmed one by one: nothing is left to confirm, and the channel stays open. */
  lemma {:induction false} SecondMessageKeepsOpen(m: Confirms.Message, refused: Confirms.Message)
    ensures var events :=
              [Confirms.Publishing(m), Confirms.Closing, Confirms.Publishing(refused),
               Confirms.Confirming(1, false, true)];
            var w := Confirms.Run(Confirms.Fresh(1, 1), events);
            ConfirmTheorems.Unacknowledged(w) == 0 && w.closing && w.history.closes == 0
  {
    hide ConfirmTheorems.Agrees, Confirms.Step, Confirms.Publish, Confirms.Close;
    var start := Confirms.Fresh(1, 1);
    FirstPublish(1, m);
    PublishAndClose(m);
    TwoEvents(start, Confirms.Publishing(m), Confirms.Closing);
    var two := Confirms.Close(Confirms.Publish(start, m));
    ConfirmCloses.RefusedKeepsOpen(two, refused, 1, true);
    FourEvents(start, Confirms.Publishing(m), Confirms.Closing, Confirms.Publishing(refused),
               Confirms.Confirming(1, false, true));
  }

  /* ----- closing twice ----- */

  /** A message whose callback closes: its confirm closes the channel in the callback and once more behind it. */
  lemma {:induction false} CallbackClosesTwice()
    ensures var m := Confirms.Message([], [Confirms.Shuts], []);
            var events := [Confirms.Publishing(m), Confirms.Confirming(1, false, true)];
            Confirms.Run(Confirms.Fresh(1, 1), events).history.closes == 2
  {
    hide ConfirmTheorems.Agrees, Confirms.Confirm, Confirms.Publish;
    var m := Confirms.Message([], [Confirms.Shuts], []);
    var start := Confirms.Fresh(1, 1);
    FirstPublish(1, m);
    OneShut();
    ConfirmCloses.ClosesTwiceSingleIff(Confirms.Publish(start, m), 1, Confirms.Acked);
    TwoEvents(start, Confirms.Publishing(m), Confirms.Confirming(1, false, true));
  }

  lemma {:induction false} OneShut()
    ensures ConfirmCloses.PostsNothing([Confirms.Shuts])
    ensures ConfirmCloses.FirstDeed([Confirms.Shuts]) == ConfirmCloses.Shutting
  {
    assert [Confirms.Shuts][1..] == [];
  }

  /** A confirm of one message whose callback does nothing. */
  lemma {:induction false} PlainConfirm(w: Confirms.Window, tag: nat)
    requires tag < w.current && tag in w.handlers && w.handlers[tag].onAck == [] && w.queue == []
    ensures Confirms.Confirm(w, tag, false, Confirms.Acked)
            == Confirms.TaggerConfirm(Confirms.Resolve(w, tag, Confirms.Acked).(open := w.open - {tag}))
  {
    assert Confirms.Report(w, tag, Confirms.Acked) == Confirms.Resolve(w, tag, Confirms.Acked);
  }

  /** Two messages, the second confirmed; then a confirm of both, with a callback of the first that closes. */
  lemma {:induction false} RepeatedConfirmClosesTwice()
    ensures var m, n := Confirms.Message([], [Confirms.Shuts], []), Confirms.Message([], [], []);
            var events := [Confirms.Publishing(m), Confirms.Publishing(n), Confirms.Confirming(2, false, true),
                           Confirms.Confirming(2, true, true)];
            Confirms.Run(Confirms.Fresh(1, 2), events).history.closes == 2
  {
    hide ConfirmTheorems.Agrees, Confirms.Confirm, Confirms.Publish;
    var m, n := Confirms.Message([], [Confirms.Shuts], []), Confirms.Message([], [], []);
    var start := Confirms.Fresh(1, 2);
    FirstPublish(2, m);
    var one := Confirms.Publish(start, m);
    SecondPublish(one, n);
    var two := Confirms.Publish(one, n);
    PlainConfirm(two, 2);
    ConfirmTheorems.ConfirmKeeps(two, 2, false, Confirms.Acked);
    var three := Confirms.Confirm(two, 2, false, Confirms.Acked);
    assert three.handlers == map[1 := m];
    OneShut();
    assert ConfirmCloses.Greatest(three.handlers, 2) == Some(1);
    ConfirmCloses.ClosesTwiceMultipleIff(three, 2, Confirms.Acked);
    FourEvents(start, Confirms.Publishing(m), Confirms.Publishing(n), Confirms.Confirming(2, false, true),
               Confirms.Confirming(2, true, true));
  }

  lemma {:induction false} SecondPublish(one: Confirms.Window, n: Confirms.Message)
    requires ConfirmTheorems.Agrees(one, {}) && !one.closing && one.current == 2 && one.last == 1 && one.queue == []
    requires one.open == {1} && one.throttle == 2 && one.handlers.Keys == {1}
    ensures var two := Confirms.Publish(one, n);
            && ConfirmTheorems.Agrees(two, {}) && two.current == 3 && two.last == 2 && two.queue == []
            && two.handlers == one.handlers[2 := n] && !two.closing && two.history.closes == one.history.closes
  {
    hide ConfirmTheorems.Agrees, Confirms.SendAll;
    ConfirmTheorems.AdmitKeeps(one, n, {});
    AgreedLast(one);
    ConfirmTheorems.SendWhole(one, n);
  }

  lemma {:induction false} AgreedLast(w: Confirms.Window)
    requires ConfirmTheorems.Agrees(w, {})
    ensures w.last < w.current
  {
    hide ConfirmTheorems.Ordered, ConfirmTheorems.Once;
  }

  /** One message, a close, and two confirms of the message: each of them closes the channel. */
  lemma {:induction false} SecondConfirmClosesAgain()
    ensures var m := Confirms.Message([], [], []);
            var events := [Confirms.Publishing(m), Confirms.Closing, Confirms.Confirming(1, false, true),
                           Confirms.Confirming(1, false, true)];
            Confirms.Run(Confirms.Fresh(1, 1), events).history.closes == 2
  {
    hide ConfirmTheorems.Agrees, Confirms.Confirm, Confirms.Publish, Confirms.Close;
    var m := Confirms.Message([], [], []);
    var start := Confirms.Fresh(1, 1);
    FirstPublish(1, m);
    PublishAndClose(m);
    var two := Confirms.Close(Confirms.Publish(start, m));
    PlainConfirm(two, 1);
    ConfirmTheorems.ConfirmKeeps(two, 1, false, Confirms.Acked);
    var three := Confirms.Confirm(two, 1, false, Confirms.Acked);
    assert Confirms.Resolve(two, 1, Confirms.Acked).handlers == map[];
    ConfirmCloses.RepeatClosesIff(three, 1, false, Confirms.Acked);
    FourEvents(start, Confirms.Publishing(m), Confirms.Closing, Confirms.Confirming(1, false, true),
               Confirms.Confirming(1, false, true));
  }
  lemma {:induction false} TwoEvents(w: Confirms.Window, a: Confirms.Event, b: Confirms.Event)
    ensures Confirms.Run(w, [a, b]) == Confirms.Step(Confirms.Step(w, a), b)
  {
    hide Confirms.Step;
    assert [a, b][1..] == [b] && [b][1..] == [];
    assert Confirms.Run(w, [a, b]) == Confirms.Run(Confirms.Step(w, a), [b]);
  }

  lemma {:induction false} ThreeEvents(w: Confirms.Window, a: Confirms.Event, b: Confirms.Event, c: Confirms.Event)
    ensures Confirms.Run(w, [a, b, c]) == Confirms.Step(Confirms.Step(Confirms.Step(w, a), b), c)
  {
    hide Confirms.Step;
    assert [a, b, c][1..] == [b, c] && [b, c][1..] == [c] && [c][1..] == [];
    var v := Confirms.Step(w, a);
    assert Confirms.Run(w, [a, b, c]) == Confirms.Run(v, [b, c]);
    assert Confirms.Run(v, [b, c]) == Confirms.Run(Confirms.Step(v, b), [c]);
  }

  lemma {:induction false} FourEvents(
    w: Confirms.Window, a: Confirms.Event, b: Confirms.Event, c: Confirms.Event, d: Confirms.Event)
    ensures Confirms.Run(w, [a, b, c, d])
            == Confirms.Step(Confirms.Step(Confirms.Step(Confirms.Step(w, a), b), c), d)
  {
    hide Confirms.Step;
    assert [a, b, c, d][1..] == [b, c, d];
    assert Confirms.Run(w, [a, b, c, d]) == Confirms.Run(Confirms.Step(w, a), [b, c, d]);
    ThreeEvents(Confirms.Step(w, a), b, c, d);
  }

  /* ----- sizes and identifiers ----- */

  /** A frame whose name alone takes 2^32 octets announces fewer octets than it writes. */
  lemma {:induction false} LongFrameIsAnnouncedShort()
    ensures var f := Frames.Consume(1, seq(TWO_TO_THE_32, _ => 0), [], MetaDataCodec.OctetToBits(0, 8), []);
            Frames.WellFormed(f) && Frames.TotalSize(f) < |Frames.Wire(f)|
  {
    hide Frames.Wire, Frames.TotalSize, MetaDataCodec.OctetToBits;
    var f := Frames.Consume(1, seq(TWO_TO_THE_32, _ => 0), [], MetaDataCodec.OctetToBits(0, 8), []);
    Frames.WireLength(f);
    Frames.TotalSizeIsExactIff(f);
  }

  /** With every identifier in use the search goes on forever. */
  lemma {:induction false} SearchGoesOn(next: nat, turns: nat)
    requires next < ChannelIds.IDS
    ensures var used := ChannelIds.Positive(ChannelIds.IDS); !ChannelIds.Free(used, ChannelIds.After(next, turns))
  {
    hide ChannelIds.Positive;
    ChannelIds.SearchEndsIff(ChannelIds.Positive(ChannelIds.IDS), next);
  }

  /* ----- a second confirmation of the opening ----- */

  /** Two closes on one connection. */
  lemma {:induction false} TwoCloses()
    ensures Closing.Run(Closing.FRESH, [Closing.OpenOk([]), Closing.User(Closing.Closes), Closing.OpenOk([])]).wire
            == [Closing.Handshaking, Closing.ConnectionClose({}), Closing.ConnectionClose({})]
  {
    var c := Closing.Step(Closing.FRESH, Closing.OpenOk([]));
    assert Closing.WaitingOnes(map[]) == {};
    assert c == Closing.FRESH.(state := Closing.Connected);
    var d := Closing.Step(c, Closing.User(Closing.Closes));
    assert Closing.CloseChannels(map[]) == map[];
    assert d == c.(closed := true, state := Closing.Closing,
                wire := [Closing.Handshaking, Closing.ConnectionClose({})]);
    Closing.NothingMoreIff(d, Closing.OpenOk([]));
  }

  /** A channel that was opened and waits for nothing, and a close of the connection: the channel stays usable. */
  lemma {:induction false} IdleChannelIsForgotten()
    ensures var events :=
              [Closing.OpenOk([]), Closing.User(Closing.Opens(1)), Closing.Answered(1), Closing.User(Closing.Closes)];
            var c := Closing.Run(Closing.FRESH, events);
            c.state == Closing.Closing && 1 in c.channels && c.channels[1].usable
  {
    var c := Closing.Step(Closing.FRESH, Closing.OpenOk([]));
    var d := Closing.Step(c, Closing.User(Closing.Opens(1)));
    var e := Closing.Step(d, Closing.Answered(1));
    assert e.channels == map[1 := Closing.Channel(true, false, [])];
    Closing.IdleChannelsStay(e, 1);
  }
}
