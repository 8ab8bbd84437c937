/** The publisher object: the three classes `Tagger`, `Throttle` and `Reliable` in one. */
module ReliableThrottle {
  import opened Bytes
  import Content
  import opened Confirms
  import opened ConfirmTheorems

  class Publisher {
    const maxPayload: positive
    var current: nat
    var last: nat
    var throttle: nat
    var queue: seq<Tagged>
    var open: set<nat>
    var handlers: map<nat, Message>
    var closing: bool
    ghost var history: History

    ghost function View(): Window
      reads this
    {
      Window(maxPayload, current, last, throttle, queue, open, handlers, closing, history)
    }

    ghost predicate Valid()
      reads this
    {
      Agrees(View(), {})
    }

    constructor (maxPayload: positive, throttle: nat)
      ensures Valid() && View() == Fresh(maxPayload, throttle)
    {
      this.maxPayload, current, last, this.throttle := maxPayload, 1, 0, throttle;
      queue, open, handlers, closing, history := [], {}, map[], false, History([], [], [], 0);
      new;
      FreshAgrees(maxPayload, throttle);
    }

    /** The channel takes the frame. */
    method Transmit(frame: Tagged)
      modifies this`history
      ensures history == old(history).(wire := old(history).wire + [frame])
    {
      history := history.(wire := history.wire + [frame]);
    }

    method Send(tag: nat, frame: Content.Frame)
      modifies this`queue, this`last, this`open, this`history
      ensures View() == Confirms.Send(old(View()), tag, frame)
    {
      if queue != [] || (|open| >= throttle && last != tag) {
        queue := queue + [Tagged(tag, frame)];
        return;
      }
      last := tag;
      open := open + {tag};
      Transmit(Tagged(tag, frame));
    }

    /** The loop that sends the body. */
    method SendBody(body: seq<byte>)
      modifies this`queue, this`last, this`open, this`history
      ensures View() == SendAll(old(View()), current, Content.Bodies(Content.Chunks(body, maxPayload)))
    {
      hide SendAll, Confirms.Send, Content.Chunks, Content.Bodies;
      var bytesSent: nat, bytesLeft: nat := 0, |body|;
      assert body[0..] == body;
      while bytesLeft > 0
        invariant bytesSent + bytesLeft == |body|
        invariant SendAll(View(), current, Content.Bodies(Content.Chunks(body[bytesSent..], maxPayload)))
               == SendAll(old(View()), current, Content.Bodies(Content.Chunks(body, maxPayload)))
        decreases bytesLeft
      {
        var size := if maxPayload < bytesLeft then maxPayload else bytesLeft;
        SendBodyStep(View(), body, bytesSent, size);
        Send(current, Content.Body(body[bytesSent..bytesSent + size]));
        bytesSent := bytesSent + size;
        bytesLeft := bytesLeft - size;
      }
      assert body[bytesSent..] == [];
      SendNothing(View());
    }

    /** `publish`: the frames are sent, and the handler is stored under the tag, which is zero after a refusal. */
    method Publish(m: Message)
      requires Valid()
      modifies this`current, this`last, this`queue, this`open, this`handlers, this`history
      ensures Valid() && View() == Confirms.Publish(old(View()), m)
      ensures old(Paced(View())) ==> Paced(View())
    {
      hide SendAll, Agrees, Paced, Content.Chunks, Content.Bodies;
      if closing { RefuseKeeps(View(), m, {}); } else { AdmitKeeps(View(), m, {}); }
      var tag := PublishFrames(m);
      handlers := handlers[tag := m];
    }

    method PublishFrames(m: Message) returns (tag: nat)
      modifies this`current, this`last, this`queue, this`open, this`history
      ensures tag == if old(closing) then 0 else old(current)
      ensures View().(handlers := handlers[tag := m]) == Confirms.Publish(old(View()), m)
      ensures handlers == old(handlers)
    {
      hide SendAll, Content.Chunks, Content.Bodies;
      if closing { return 0; }
      PublishedSteps(View(), m.body);
      Send(current, Content.Publish);
      Send(current, Content.Header(|m.body|));
      SendBody(m.body);
      history := history.(published := history.published + [m]);
      tag := current;
      current := current + 1;
    }

    /** A callback publishes, closes, flushes and moves the throttle, in order. */
    method PerformAll(acts: seq<Act>)
      modifies this
      ensures View() == Confirms.PerformAll(old(View()), acts)
    {
      var i := 0;
      while i < |acts|
        invariant 0 <= i <= |acts|
        invariant Confirms.PerformAll(View(), acts[i..]) == Confirms.PerformAll(old(View()), acts)
      {
        match acts[i] {
          case Posts(m) =>
            var tag := PublishFrames(m);
            handlers := handlers[tag := m];
          case Shuts =>
            Close();
          case Flushes(max) =>
            var _ := Flush(max);
          case Throttles(n) =>
            throttle := n;
        }
        i := i + 1;
      }
    }

    /** `flush`: as many messages as allowed leave the queue. */
    method Flush(max: nat) returns (published: nat)
      modifies this`last, this`queue, this`open, this`history
      ensures (View(), published) == FlushLoop(old(View()), max, 0)
    {
      published := 0;
      while queue != []
        invariant FlushLoop(View(), max, published) == FlushLoop(old(View()), max, 0)
        decreases |queue|
      {
        var front := queue[0];
        if front.tag != last {
          if max > 0 && published >= max { return; }
          published := published + 1;
          last := front.tag;
          open := open + {last};
        }
        Transmit(front);
        queue := queue[1..];
      }
    }

    /** `reportAck` or `reportNack` of a handler that has been taken out of the map. */
    method Report(tag: nat, verdict: Verdict)
      requires tag in handlers
      modifies this
      ensures View() == Confirms.Report(old(View()), tag, verdict)
    {
      var handler := handlers[tag];
      handlers := handlers - {tag};
      history := history.(resolved := history.resolved + [Resolution(tag, verdict)]);
      PerformAll(Script(handler, verdict));
    }

    method ReliableConfirm(tag: nat, multiple: bool, verdict: Verdict)
      requires tag < current
      modifies this
      ensures View() == Confirms.ReliableConfirm(old(View()), tag, multiple, verdict)
    {
      hide Confirms.Report, Sweep, Covered, Height;
      if !multiple {
        if tag in handlers { Report(tag, verdict); }
        return;
      }
      var first := First(handlers, 0, tag);
      while first.Some?
        invariant tag < current && first == First(handlers, 0, tag)
        invariant Sweep(View(), tag, verdict) == Sweep(old(View()), tag, verdict)
        decreases |Covered(handlers, tag)|, if 0 in handlers then Height(handlers[0]) else 0
      {
        SweepShrinks(View(), tag, verdict, first.value);
        SweepStep(View(), tag, verdict);
        Report(first.value, verdict);
        first := First(handlers, 0, tag);
      }
      SweepStep(View(), tag, verdict);
    }

    method ThrottleConfirm(tag: nat, multiple: bool)
      modifies this`last, this`queue, this`open, this`history
      ensures View() == Confirms.ThrottleConfirm(old(View()), tag, multiple)
    {
      hide FlushLoop;
      open := if multiple then set t | t in open && t > tag else open - {tag};
      if |open| < throttle {
        var _ := Flush(throttle - |open|);
      }
    }

    method CloseChannel()
      modifies this`history
      ensures history == old(history).(closes := old(history).closes + 1)
    {
      history := history.(closes := history.closes + 1);
    }

    /** `onAck` and `onNack`. The broker confirms tags that are on the wire, perhaps again. */
    method Confirm(tag: nat, multiple: bool, verdict: Verdict)
      requires Valid() && 0 < tag <= last
      modifies this
      ensures Valid() && View() == Confirms.Confirm(old(View()), tag, multiple, verdict)
      ensures old(Steady(View())) ==> Steady(View())
    {
      hide Agrees, Steady, Confirms.ReliableConfirm, Confirms.ThrottleConfirm;
      OnTheWire(View(), tag);
      ConfirmKeeps(View(), tag, multiple, verdict);
      ReliableConfirm(tag, multiple, verdict);
      ThrottleConfirm(tag, multiple);
      if closing && |handlers| == 0 { CloseChannel(); }
    }

    method Close()
      modifies this`closing, this`history
      ensures View() == Confirms.Close(old(View()))
      ensures old(Valid()) ==> Valid()
    {
      hide Agrees;
      if Agrees(View(), {}) { ShutKeeps(View(), {}); }
      if closing { return; }
      closing := true;
      if |handlers| == 0 { CloseChannel(); }
    }

    /** `reportError`: every handler in the order of the map, then the tracking starts over. */
    method ReportError()
      requires Valid()
      modifies this
      ensures View() == Fail(old(View()))
    {
      hide Agrees;
      var lost := handlers;
      handlers := map[];
      var k := 0;
      while k < current
        invariant 0 <= k <= current == old(current) && lost == old(handlers)
        invariant View() == old(View()).(handlers := map[], history := old(history).(resolved := history.resolved))
        invariant history.resolved + LoseFrom(lost, k, current) == old(history).resolved + LoseFrom(lost, 0, current)
      {
        LoseStep(history.resolved, lost, k, current);
        if k in lost {
          history := history.(resolved := history.resolved + [Resolution(k, Lost)]);
        }
        k := k + 1;
      }
      queue, open, last, current := [], {}, 0, 1;
    }
  }

  lemma {:induction false} SweepStep(w: Window, tag: nat, verdict: Verdict)
    requires tag < w.current
    ensures var first := First(w.handlers, 0, tag);
            && (first.None? ==> Sweep(w, tag, verdict) == w)
            && (first.Some? ==> tag < Confirms.Report(w, first.value, verdict).current
                                && Sweep(w, tag, verdict)
                                   == Sweep(Confirms.Report(w, first.value, verdict), tag, verdict))
  {
    hide Confirms.Report, Covered, Height;
    var first := First(w.handlers, 0, tag);
    if first.Some? { SweepShrinks(w, tag, verdict, first.value); }
  }

  lemma {:induction false} LoseStep(resolved: seq<Resolution>, handlers: map<nat, Message>, k: nat, end: nat)
    requires k < end
    ensures resolved + LoseFrom(handlers, k, end)
            == (if k in handlers then resolved + [Resolution(k, Lost)] else resolved) + LoseFrom(handlers, k + 1, end)
  {
  }

  lemma {:induction false} SendBodyStep(w: Window, body: seq<byte>, sent: nat, size: nat)
    requires sent < |body| && size == if w.maxPayload < |body| - sent then w.maxPayload else |body| - sent
    ensures SendAll(w, w.current, Content.Bodies(Content.Chunks(body[sent..], w.maxPayload)))
            == SendAll(Confirms.Send(w, w.current, Content.Body(body[sent..sent + size])), w.current,
                       Content.Bodies(Content.Chunks(body[sent + size..], w.maxPayload)))
  {
    hide Content.Chunks;
    Content.ChunkStep(body, sent, size, w.maxPayload);
    var rest := Content.Chunks(body[sent + size..], w.maxPayload);
    var frames := Content.Bodies([body[sent..sent + size]] + rest);
    assert frames[0] == Content.Body(body[sent..sent + size]);
    assert frames[1..] == Content.Bodies(rest);
  }

  lemma {:induction false} SendNothing(w: Window)
    ensures SendAll(w, w.current, Content.Bodies(Content.Chunks([], w.maxPayload))) == w
  {
  }

  lemma {:induction false} PublishedSteps(w: Window, body: seq<byte>)
    ensures var d := Confirms.Send(Confirms.Send(w, w.current, Content.Publish), w.current, Content.Header(|body|));
            SendAll(w, w.current, Content.Published(body, w.maxPayload))
            == SendAll(d, w.current, Content.Bodies(Content.Chunks(body, w.maxPayload)))
  {
    hide Content.Chunks, Content.Bodies, Confirms.Send;
    var frames, bodies := Content.Published(body, w.maxPayload), Content.Bodies(Content.Chunks(body, w.maxPayload));
    assert frames[1..] == [Content.Header(|body|)] + bodies && frames[1..][1..] == bodies;
  }
}
