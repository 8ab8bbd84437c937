/**
 What becomes of a publisher that was told to close: when a confirm closes the channel, how often,
 and what a message does that is published too late.
 */
module ConfirmCloses {
  import opened Options
  import opened Confirms
  import opened ConfirmTheorems

  /* ----- a message refused after close ----- */

  lemma {:induction false} SweepResolves(w: Window, tag: nat, verdict: Verdict)
    requires tag < w.current
    ensures w.history.resolved <= Sweep(w, tag, verdict).history.resolved
    decreases |Covered(w.handlers, tag)|, if 0 in w.handlers then Height(w.handlers[0]) else 0
  {
    hide Height;
    var first := First(w.handlers, 0, tag);
    if first.Some? {
      SweepShrinks(w, tag, verdict, first.value);
      PerformAllResolves(Resolve(w, first.value, verdict), Script(w.handlers[first.value], verdict));
      SweepResolves(Report(w, first.value, verdict), tag, verdict);
    }
  }

  /**
   A message refused because the publisher is closing is reported acked by the next confirm of
   several messages, though it got no tag and none of its frames was sent.
   */
  lemma {:induction false} RefusedIsAcked(w: Window, m: Message, tag: nat)
    requires Agrees(w, {}) && w.closing && tag in w.open
    ensures var d := Step(w, Publishing(m));
            var e := Step(d, Confirming(tag, true, true));
            && d.history.wire == w.history.wire && d.queue == w.queue && d.history.published == w.history.published
            && w.history.resolved + [Resolution(0, Acked)] <= e.history.resolved
  {
    hide Agrees, Sweep, PerformAll, Flush, Confirm;
    NotClosedYet(w, tag);
    RefuseKeeps(w, m, {});
    var d := Publish(w, m);
    FirstIsZero(d, tag);
    PerformAllResolves(Resolve(d, 0, Acked), Script(m, Acked));
    SweepUnfolds(d, tag, Acked);
    SweepResolves(Report(d, 0, Acked), tag, Acked);
    ConfirmKeepsHandlers(d, tag, true, Acked);
  }

  lemma {:induction false} FirstIsZero(w: Window, tag: nat)
    requires 0 in w.handlers
    ensures First(w.handlers, 0, tag) == Some(0)
  {
  }

  lemma {:induction false} SweepUnfolds(w: Window, tag: nat, verdict: Verdict)
    requires tag < w.current && First(w.handlers, 0, tag) == Some(0)
    ensures Report(w, 0, verdict).current >= w.current
    ensures Sweep(w, tag, verdict) == Sweep(Report(w, 0, verdict), tag, verdict)
  {
    hide PerformAll, Covered, Height;
    SweepShrinks(w, tag, verdict, 0);
  }

  /** What is left under tag zero is given the verdict of the next confirm of several messages, and of no other. */
  lemma {:induction false} RefusedIsToldIff(w: Window, tag: nat, multiple: bool, verdict: Verdict)
    requires Agrees(w, {}) && 0 in w.handlers && 0 < tag <= w.last
    ensures tag < w.current
    ensures var before, after := w.history.resolved, Confirm(w, tag, multiple, verdict).history.resolved;
            (exists i :: |before| <= i < |after| && after[i] == Resolution(0, verdict)) <==> multiple
  {
    hide Agrees, Sweep, Report, Confirm;
    OnTheWire(w, tag);
    ConfirmKeepsHandlers(w, tag, multiple, verdict);
    if multiple {
      FirstIsZero(w, tag);
      SweepUnfolds(w, tag, verdict);
      ReportSettles(w, 0, verdict);
      SweepResolves(Report(w, 0, verdict), tag, verdict);
      assert Sweep(w, tag, verdict).history.resolved[|w.history.resolved|] == Resolution(0, verdict);
    } else if tag in w.handlers {
      ReportSettles(w, tag, verdict);
    }
  }

  /** The callback publishes a message that is refused. */
  predicate Refuses(closing: bool, acts: seq<Act>)
    decreases |acts|
  {
    acts != [] &&
    match acts[0]
    case Posts(m) => closing || Refuses(closing, acts[1..])
    case Shuts => Refuses(true, acts[1..])
    case _ => Refuses(closing, acts[1..])
  }

  lemma {:induction false} RefusesIff(w: Window, acts: seq<Act>)
    requires w.current > 0
    ensures 0 in PerformAll(w, acts).handlers <==> 0 in w.handlers || Refuses(w.closing, acts)
    decreases |acts|
  {
    hide Publish, FlushLoop;
    if acts != [] {
      if acts[0].Posts? { PublishedHandlers(w, acts[0].message); PublishedKeeps(w, acts[0].message); }
      RefusesIff(Perform(w, acts[0]), acts[1..]);
    }
  }

  lemma {:induction false} PublishedKeeps(w: Window, m: Message)
    ensures var d := Publish(w, m); d.closing == w.closing && d.history.closes == w.history.closes
  {
    hide SendAll;
  }

  /**
   When a refused message leaves a handler behind: one is published, or a callback publishes one, after
   the close. A confirm of several messages takes it away, and nothing else does.
   */
  lemma {:induction false} ZeroHandlerIff(w: Window, e: Event)
    requires Agrees(w, {})
    ensures 0 in Step(w, e).handlers <==>
            match e
            case Publishing(m) => w.closing || 0 in w.handlers
            case Confirming(tag, multiple, ack) =>
              if 0 < tag <= w.last && multiple then false
              else 0 in w.handlers
                   || (tag in w.open && Refuses(w.closing, Script(w.handlers[tag], if ack then Acked else Nacked)))
            case _ => 0 in w.handlers
  {
    hide Agrees, Publish, Report, Sweep, FlushLoop, Confirm, Refuses;
    match e
    case Publishing(m) => CountedFromOne(w); PublishedHandlers(w, m);
    case Confirming(tag, multiple, ack) =>
      if 0 < tag <= w.last {
        var verdict := if ack then Acked else Nacked;
        OnTheWire(w, tag);
        ConfirmKeepsHandlers(w, tag, multiple, verdict);
        if multiple { SweepSettles(w, tag, verdict); }
        else if tag in w.handlers { ReportRefusesIff(w, tag, verdict); }
      } else {
        OffTheWire(w, tag);
      }
    case _ =>
  }

  lemma {:induction false} CountedFromOne(w: Window)
    requires Agrees(w, {})
    ensures w.current > 0
  {
    hide Ordered, Once;
  }

  lemma {:induction false} OffTheWire(w: Window, tag: nat)
    requires Agrees(w, {}) && !(0 < tag <= w.last)
    ensures tag !in w.open
  {
    hide Ordered, Once;
  }

  lemma {:induction false} ReportRefusesIff(w: Window, tag: nat, verdict: Verdict)
    requires 0 < tag < w.current && tag in w.handlers
    ensures 0 in Report(w, tag, verdict).handlers
            <==> 0 in w.handlers || Refuses(w.closing, Script(w.handlers[tag], verdict))
  {
    hide PerformAll, Refuses;
    RefusesIff(Resolve(w, tag, verdict), Script(w.handlers[tag], verdict));
  }

  /* ----- when the channel is closed ----- */

  predicate PostsNothing(acts: seq<Act>) {
    acts == [] || (!acts[0].Posts? && PostsNothing(acts[1..]))
  }

  datatype Deed = Nothing | Posting | Shutting

  /** The first thing a callback does, other than to flush or to move the throttle. */
  function FirstDeed(acts: seq<Act>): Deed {
    if acts == [] then Nothing
    else
      match acts[0]
      case Posts(m) => Posting
      case Shuts => Shutting
      case _ => FirstDeed(acts[1..])
  }

  /** A callback closes the channel exactly if it closes first with no handler left; it leaves one if it publishes. */
  lemma {:induction false} CallbackCloses(w: Window, acts: seq<Act>)
    ensures var d := PerformAll(w, acts);
            && (|d.handlers| == 0 <==> |w.handlers| == 0 && PostsNothing(acts))
            && d.history.closes
               == w.history.closes + (if !w.closing && |w.handlers| == 0 && FirstDeed(acts) == Shutting then 1 else 0)
            && (w.closing || FirstDeed(acts) == Shutting ==> d.closing)
    decreases |acts|
  {
    hide Publish, FlushLoop;
    if acts != [] {
      if acts[0].Posts? {
        PublishedHandlers(w, acts[0].message);
        PublishedKeeps(w, acts[0].message);
        assert (if w.closing then 0 else w.current) in Publish(w, acts[0].message).handlers;
      }
      CallbackCloses(Perform(w, acts[0]), acts[1..]);
    }
  }

  /** A closing publisher gives out no tags. */
  lemma {:induction false} ClosingCallback(w: Window, acts: seq<Act>)
    requires w.closing
    ensures var d := PerformAll(w, acts);
            d.closing && d.current == w.current && (forall t :: 0 < t ==> (t in d.handlers <==> t in w.handlers))
    decreases |acts|
  {
    hide SendAll, FlushLoop;
    if acts != [] {
      ClosingCallback(Perform(w, acts[0]), acts[1..]);
    }
  }

  /** A callback that publishes first leaves a handler behind every tag given out so far. */
  lemma {:induction false} PostingCallback(w: Window, acts: seq<Act>)
    requires FirstDeed(acts) == Posting && !w.closing
    ensures var d := PerformAll(w, acts); w.current < d.current && w.current in d.handlers
    decreases |acts|
  {
    hide Publish, FlushLoop;
    var d := Perform(w, acts[0]);
    if acts[0].Posts? {
      PublishedHandlers(w, acts[0].message);
      assert w.current in d.handlers && w.current < d.current;
      PerformAllPersists(d, acts[1..], w.current);
    } else {
      PostingCallback(d, acts[1..]);
    }
  }

  lemma {:induction false} PerformAllPersists(w: Window, acts: seq<Act>, t: nat)
    requires 0 < w.current
    requires t in w.handlers && t < w.current
    ensures var d := PerformAll(w, acts); t in d.handlers && w.current <= d.current
  {
    if t == 0 { RefusesIff(w, acts); }
  }

  lemma {:induction false} ClosingReport(w: Window, k: nat, verdict: Verdict)
    requires w.closing && k in w.handlers
    ensures var d := Report(w, k, verdict);
            && d.closing && d.current == w.current && d.history.closes == w.history.closes
            && (forall t :: 0 < t ==> (t in d.handlers <==> t in w.handlers && t != k))
  {
    hide PerformAll;
    CallbackCloses(Resolve(w, k, verdict), Script(w.handlers[k], verdict));
    ClosingCallback(Resolve(w, k, verdict), Script(w.handlers[k], verdict));
  }

  lemma {:induction false} ClosingSweep(w: Window, tag: nat, verdict: Verdict)
    requires w.closing && tag < w.current
    ensures var d := Sweep(w, tag, verdict);
            && d.closing && d.history.closes == w.history.closes
            && (forall t: nat :: t in d.handlers <==> t in w.handlers && tag < t)
    decreases |Covered(w.handlers, tag)|, if 0 in w.handlers then Height(w.handlers[0]) else 0
  {
    hide Report, Height, Covered;
    var first := First(w.handlers, 0, tag);
    if first.Some? {
      SweepShrinks(w, tag, verdict, first.value);
      ClosingReport(w, first.value, verdict);
      ClosingSweep(Report(w, first.value, verdict), tag, verdict);
    }
  }

  /** With a message behind the tag the sweep does not close, whatever the callbacks do. */
  lemma {:induction false} SweepBefore(w: Window, tag: nat, verdict: Verdict, t: nat)
    requires tag < t < w.current && t in w.handlers
    ensures var d := Sweep(w, tag, verdict); d.history.closes == w.history.closes && t in d.handlers
    decreases |Covered(w.handlers, tag)|, if 0 in w.handlers then Height(w.handlers[0]) else 0
  {
    hide PerformAll, Height, Covered;
    var first := First(w.handlers, 0, tag);
    if first.Some? {
      var r, acts := Resolve(w, first.value, verdict), Script(w.handlers[first.value], verdict);
      SweepShrinks(w, tag, verdict, first.value);
      assert t in r.handlers;
      CallbackCloses(r, acts);
      PerformAllPersists(r, acts, t);
      SweepBefore(Report(w, first.value, verdict), tag, verdict, t);
    }
  }

  /** All handlers go up to the tag, those before it neither publish nor close, and the one of the tag closes first. */
  ghost predicate ClosesFromLast(handlers: map<nat, Message>, tag: nat, verdict: Verdict) {
    && tag in handlers && FirstDeed(Script(handlers[tag], verdict)) == Shutting
    && forall k :: k in handlers ==> k <= tag && (k != tag ==> FirstDeed(Script(handlers[k], verdict)) == Nothing)
  }

  /** What a sweep comes to that has only one handler left to tell. */
  lemma {:induction false} LastReport(w: Window, tag: nat, verdict: Verdict)
    requires !w.closing && 0 < tag < w.current && w.handlers.Keys == {tag}
    ensures var d := Sweep(Report(w, tag, verdict), tag, verdict);
            var shuts := FirstDeed(Script(w.handlers[tag], verdict)) == Shutting;
            && Report(w, tag, verdict).current > tag
            && d.history.closes == w.history.closes + (if shuts then 1 else 0)
            && (shuts ==> d.closing && |d.handlers| == 0)
  {
    hide PerformAll, Sweep, FirstDeed;
    var r, acts := Resolve(w, tag, verdict), Script(w.handlers[tag], verdict);
    assert r.handlers.Keys == {} && |r.handlers| == |r.handlers.Keys|;
    var d := PerformAll(r, acts);
    CallbackCloses(r, acts);
    match FirstDeed(acts)
    case Nothing =>
      IdleCallback(r, acts);
      NothingSwept(d, tag, verdict);
    case Posting =>
      PostingCallback(r, acts);
      SweepBefore(d, tag, verdict, w.current);
    case Shutting =>
      ShutFirst(r, acts);
      ClosingSweep(d, tag, verdict);
      assert forall t :: t !in Sweep(d, tag, verdict).handlers;
  }

  /** A callback that neither publishes nor closes leaves the handlers alone. */
  lemma {:induction false} IdleCallback(w: Window, acts: seq<Act>)
    requires FirstDeed(acts) == Nothing
    ensures var d := PerformAll(w, acts);
            && d.handlers == w.handlers && d.closing == w.closing && d.current == w.current
            && d.history.closes == w.history.closes
    decreases |acts|
  {
    hide FlushLoop;
    if acts != [] { IdleCallback(Perform(w, acts[0]), acts[1..]); }
  }

  lemma {:induction false} NothingSwept(w: Window, tag: nat, verdict: Verdict)
    requires tag < w.current && (forall k: nat :: k <= tag ==> k !in w.handlers)
    ensures Sweep(w, tag, verdict) == w
  {
  }

  lemma {:induction false} ShutFirst(w: Window, acts: seq<Act>)
    requires FirstDeed(acts) == Shutting
    ensures var d := PerformAll(w, acts); d.closing && (forall t :: 0 < t ==> (t in d.handlers <==> t in w.handlers))
    decreases |acts|
  {
    hide FlushLoop;
    var d := Perform(w, acts[0]);
    if acts[0].Shuts? { ClosingCallback(d, acts[1..]); } else { ShutFirst(d, acts[1..]); }
  }

  lemma {:induction false} SweepClosesAt(w: Window, tag: nat, verdict: Verdict)
    requires !w.closing && tag in w.handlers && (forall k :: k in w.handlers ==> 0 < k < w.current)
    ensures tag < w.current
    ensures var d := Sweep(w, tag, verdict);
            && d.history.closes == w.history.closes + (if ClosesFromLast(w.handlers, tag, verdict) then 1 else 0)
            && (ClosesFromLast(w.handlers, tag, verdict) ==> d.closing && |d.handlers| == 0)
    decreases |w.handlers.Keys|, 0
  {
    hide Report, Sweep, First, FirstDeed;
    FirstUpTo(w, tag);
    var k := First(w.handlers, 0, tag).value;
    SweepFrom(w, tag, verdict, k);
    if t :| t in w.handlers && tag < t {
      SweepBefore(w, tag, verdict, t);
    } else if k == tag {
      assert w.handlers.Keys == {tag};
      LastReport(w, tag, verdict);
    } else {
      assert |w.handlers.Keys - {k}| < |w.handlers.Keys|;
      EarlierReport(w, tag, verdict, k);
    }
  }

  /** The greatest tag that has a handler, up to the given one. */
  function Greatest(handlers: map<nat, Message>, tag: nat): (r: Option<nat>)
    ensures r.Some? ==> 0 < r.value <= tag && r.value in handlers
    ensures forall k :: 0 < k <= tag && (r.Some? ==> r.value < k) ==> k !in handlers
  {
    if tag == 0 then None else if tag in handlers then Some(tag) else Greatest(handlers, tag - 1)
  }

  /** Tags without a handler make no difference to the loop, whatever callbacks publish on the way. */
  lemma {:induction false} SweepStops(w: Window, k: nat, tag: nat, verdict: Verdict)
    requires k <= tag < w.current && (forall t :: k < t <= tag ==> t !in w.handlers)
    ensures Sweep(w, tag, verdict) == Sweep(w, k, verdict)
    decreases |Covered(w.handlers, tag)|, if 0 in w.handlers then Height(w.handlers[0]) else 0
  {
    hide Report, Sweep, Height, Covered;
    SameFirst(w.handlers, k, tag);
    var first := First(w.handlers, 0, tag);
    if first.Some? {
      SweepShrinks(w, tag, verdict, first.value);
      ReportSettles(w, first.value, verdict);
      SweepFrom(w, tag, verdict, first.value);
      SweepFrom(w, k, verdict, first.value);
      SweepStops(Report(w, first.value, verdict), k, tag, verdict);
    } else {
      NothingSwept(w, tag, verdict);
      NothingSwept(w, k, verdict);
    }
  }

  lemma {:induction false} SameFirst(handlers: map<nat, Message>, k: nat, tag: nat)
    requires k <= tag && (forall t :: k < t <= tag ==> t !in handlers)
    ensures First(handlers, 0, tag) == First(handlers, 0, k)
    ensures First(handlers, 0, tag).None? ==> forall t: nat :: t <= tag ==> t !in handlers
  {
    hide First;
  }

  /** The condition of the greatest tag that the loop comes to. */
  ghost predicate ClosesFromGreatest(handlers: map<nat, Message>, tag: nat, verdict: Verdict) {
    var k := Greatest(handlers, tag);
    k.Some? && ClosesFromLast(handlers, k.value, verdict)
  }

  /** Whether the loop over the handlers closes the channel: by the callback of the last handler, or not at all. */
  lemma {:induction false} SweepCloses(w: Window, tag: nat, verdict: Verdict)
    requires !w.closing && tag < w.current && (forall k :: k in w.handlers ==> 0 < k < w.current)
    ensures var d := Sweep(w, tag, verdict);
            && d.history.closes == w.history.closes + (if ClosesFromGreatest(w.handlers, tag, verdict) then 1 else 0)
            && (ClosesFromGreatest(w.handlers, tag, verdict) ==> d.closing && |d.handlers| == 0)
  {
    hide Sweep, Greatest, ClosesFromLast;
    var k := Greatest(w.handlers, tag);
    if k.Some? {
      SweepStops(w, k.value, tag, verdict);
      SweepClosesAt(w, k.value, verdict);
    } else {
      NothingSwept(w, tag, verdict);
    }
  }

  lemma {:induction false} FirstUpTo(w: Window, tag: nat)
    requires tag in w.handlers
    ensures var first := First(w.handlers, 0, tag);
            && first.Some? && first.value in w.handlers && first.value <= tag
            && forall k: nat :: k < first.value ==> k !in w.handlers
  {
  }

  lemma {:induction false} SweepFrom(w: Window, tag: nat, verdict: Verdict, k: nat)
    requires tag < w.current && First(w.handlers, 0, tag) == Some(k)
    ensures tag < Report(w, k, verdict).current
    ensures Sweep(w, tag, verdict) == Sweep(Report(w, k, verdict), tag, verdict)
  {
    hide PerformAll, Covered, Height;
    SweepShrinks(w, tag, verdict, k);
  }

  /** A handler before the tag that publishes or closes keeps the rest of the loop from closing. */
  lemma {:induction false} EarlierReport(w: Window, tag: nat, verdict: Verdict, k: nat)
    requires !w.closing && tag in w.handlers && (forall i :: i in w.handlers ==> 0 < i < w.current)
    requires k in w.handlers && k < tag
    ensures tag < Report(w, k, verdict).current
    ensures var d := Sweep(Report(w, k, verdict), tag, verdict);
            && d.history.closes == w.history.closes + (if ClosesFromLast(w.handlers, tag, verdict) then 1 else 0)
            && (ClosesFromLast(w.handlers, tag, verdict) ==> d.closing && |d.handlers| == 0)
    decreases |w.handlers.Keys - {k}|, 1
  {
    hide PerformAll, Sweep, FirstDeed;
    var r, acts := Resolve(w, k, verdict), Script(w.handlers[k], verdict);
    var d := PerformAll(r, acts);
    assert tag in r.handlers;
    CallbackCloses(r, acts);
    match FirstDeed(acts)
    case Nothing =>
      IdleCallback(r, acts);
      assert d.handlers.Keys == w.handlers.Keys - {k};
      SweepClosesAt(d, tag, verdict);
      WithoutIdle(w, tag, verdict, k);
    case Posting =>
      PostingCallback(r, acts);
      SweepBefore(d, tag, verdict, w.current);
    case Shutting =>
      ClosingSweep(d, tag, verdict);
  }

  lemma {:induction false} WithoutIdle(w: Window, tag: nat, verdict: Verdict, k: nat)
    requires k in w.handlers && k < tag && FirstDeed(Script(w.handlers[k], verdict)) == Nothing
    ensures ClosesFromLast(Resolve(w, k, verdict).handlers, tag, verdict) <==> ClosesFromLast(w.handlers, tag, verdict)
  {
    hide FirstDeed;
    var r := Resolve(w, k, verdict);
    assert forall i :: i in w.handlers && i != k ==> i in r.handlers && r.handlers[i] == w.handlers[i];
  }

  lemma {:induction false} ConfirmCounts(w: Window, tag: nat, multiple: bool, verdict: Verdict)
    requires tag < w.current
    ensures var r := ReliableConfirm(w, tag, multiple, verdict);
            Confirm(w, tag, multiple, verdict).history.closes
            == r.history.closes + if r.closing && |r.handlers| == 0 then 1 else 0
  {
    hide FlushLoop, ReliableConfirm;
  }

  lemma {:induction false} OnlyOne(w: Window, tag: nat, verdict: Verdict)
    requires tag in w.handlers
    ensures |Resolve(w, tag, verdict).handlers| == 0 <==> w.handlers.Keys == {tag}
  {
    var r := Resolve(w, tag, verdict);
    assert r.handlers.Keys == w.handlers.Keys - {tag} && |r.handlers| == |r.handlers.Keys|;
    if |r.handlers.Keys| == 0 { assert w.handlers.Keys == {tag}; }
  }

  /**
   A confirm of one message, confirmed before or not, closes the channel twice exactly if it is the last
   and its callback closes and publishes nothing.
   */
  lemma {:induction false} ClosesTwiceSingleIff(w: Window, tag: nat, verdict: Verdict)
    requires Agrees(w, {}) && 0 < tag <= w.last && w.history.closes == 0
    ensures tag < w.current
    ensures Confirm(w, tag, false, verdict).history.closes == 2 <==>
            && !w.closing && w.handlers.Keys == {tag}
            && FirstDeed(Script(w.handlers[tag], verdict)) == Shutting && PostsNothing(Script(w.handlers[tag], verdict))
  {
    hide Agrees, PerformAll, Confirm, FirstDeed, PostsNothing;
    OnTheWire(w, tag);
    ConfirmCounts(w, tag, false, verdict);
    if tag in w.handlers {
      OnlyOne(w, tag, verdict);
      CallbackCloses(Resolve(w, tag, verdict), Script(w.handlers[tag], verdict));
    }
  }

  /**
   A confirm of several, exactly if no message is behind them, the callbacks of those before the last
   one that has a handler neither publish nor close, and that of the last closes before it publishes.
   */
  lemma {:induction false} ClosesTwiceMultipleIff(w: Window, tag: nat, verdict: Verdict)
    requires Agrees(w, {}) && 0 < tag <= w.last && w.history.closes == 0
    ensures tag < w.current
    ensures Confirm(w, tag, true, verdict).history.closes == 2
            <==> !w.closing && ClosesFromGreatest(w.handlers, tag, verdict)
  {
    hide Agrees, Sweep, Confirm, ClosesFromGreatest;
    OnTheWire(w, tag);
    ConfirmCounts(w, tag, true, verdict);
    if w.closing {
      ClosingSweep(w, tag, verdict);
    } else {
      HandlersAreTags(w);
      SweepCloses(w, tag, verdict);
    }
  }

  lemma {:induction false} HandlersAreTags(w: Window)
    requires Agrees(w, {}) && !w.closing
    ensures forall k :: k in w.handlers ==> 0 < k < w.current
  {
    hide Ordered, Once;
  }

  /** When a confirm closes the channel of a publisher that has been told to close, and has not closed it yet. */
  lemma {:induction false} ConfirmClosesIff(w: Window, tag: nat, multiple: bool, verdict: Verdict)
    requires Agrees(w, {}) && 0 < tag <= w.last && w.closing && w.history.closes == 0
    ensures tag < w.current && Confirm(w, tag, multiple, verdict).history.closes <= 1
    ensures Confirm(w, tag, multiple, verdict).history.closes == 1 <==>
            if multiple then forall k :: k in w.handlers ==> k <= tag
            else w.handlers.Keys <= {tag} && (tag in w.handlers ==> PostsNothing(Script(w.handlers[tag], verdict)))
  {
    hide Agrees, PerformAll, Sweep, Confirm;
    OnTheWire(w, tag);
    ConfirmCounts(w, tag, multiple, verdict);
    if multiple {
      ClosingSweep(w, tag, verdict);
      assert |Sweep(w, tag, verdict).handlers| == 0 <==> forall k: nat :: k !in Sweep(w, tag, verdict).handlers;
    } else if tag in w.handlers {
      OnlyOne(w, tag, verdict);
      CallbackCloses(Resolve(w, tag, verdict), Script(w.handlers[tag], verdict));
    } else {
      assert |w.handlers| == |w.handlers.Keys|;
    }
  }

  /** Once the channel is closed, a repeated confirm closes it again, unless a refused message is in the way. */
  lemma {:induction false} RepeatClosesIff(w: Window, tag: nat, multiple: bool, verdict: Verdict)
    requires Agrees(w, {}) && w.history.closes > 0 && 0 < tag <= w.last
    ensures tag < w.current
    ensures Confirm(w, tag, multiple, verdict).history.closes
            == w.history.closes + if multiple || 0 !in w.handlers then 1 else 0
  {
    hide Agrees, Sweep, Confirm;
    OnTheWire(w, tag);
    OnlyZeroLeft(w);
    ConfirmCounts(w, tag, multiple, verdict);
    if multiple {
      ClosingSweep(w, tag, verdict);
      assert forall t :: t !in Sweep(w, tag, verdict).handlers;
    } else {
      assert |w.handlers| == 0 <==> 0 !in w.handlers by { if |w.handlers| == 0 { assert 0 !in w.handlers; } }
    }
  }

  lemma {:induction false} OnlyZeroLeft(w: Window)
    requires Agrees(w, {}) && w.history.closes > 0
    ensures w.closing && w.open == {} && forall t :: t in w.handlers ==> t == 0
  {
    hide Ordered, Once;
  }

  /** A message refused after the close keeps the channel open when the last one is confirmed on its own. */
  lemma {:induction false} RefusedKeepsOpen(w: Window, m: Message, tag: nat, ack: bool)
    requires Agrees(w, {}) && w.closing && w.open == {tag} && Queued(w) == {}
    ensures var e := Step(Step(w, Publishing(m)), Confirming(tag, false, ack));
            Unacknowledged(e) == 0 && e.closing && e.history.closes == 0
  {
    hide Agrees, Publish, Confirm, Unacknowledged;
    NotClosedYet(w, tag);
    RefuseKeeps(w, m, {});
    PublishedHandlers(w, m);
    PublishFrame(w, m, {});
    var d, verdict := Publish(w, m), if ack then Acked else Nacked;
    assert 0 in d.handlers && 0 in d.handlers.Keys;
    RefusedRest(w, m);
    ConfirmClosesIff(d, tag, false, verdict);
    ConfirmKeeps(d, tag, false, verdict);
    LastConfirmed(d, tag, verdict);
  }

  lemma {:induction false} RefusedRest(w: Window, m: Message)
    requires w.closing
    ensures Publish(w, m) == w.(handlers := w.handlers[0 := m])
  {
  }

  lemma {:induction false} LastConfirmed(w: Window, tag: nat, verdict: Verdict)
    requires Agrees(w, {}) && w.closing && w.open == {tag} && Queued(w) == {}
    requires Agrees(Confirm(w, tag, false, verdict), {})
    ensures var e := Confirm(w, tag, false, verdict); Unacknowledged(e) == 0 && e.closing
  {
    hide Agrees, Report, Confirm, Unacknowledged, Queued;
    NotClosedYet(w, tag);
    HandlerKeys(w);
    OneTag(w, tag);
    ClosingReport(w, tag, verdict);
    ConfirmKeepsHandlers(w, tag, false, verdict);
    ConfirmKeepsClosing(w, tag, verdict);
    NoTags(Confirm(w, tag, false, verdict));
  }

  lemma {:induction false} OneTag(w: Window, tag: nat)
    requires w.handlers.Keys - {0} == {tag} + {}
    ensures forall t :: t in w.handlers && t > 0 ==> t == tag
  {
    forall t | t in w.handlers && t > 0 ensures t == tag {
      assert t in w.handlers.Keys - {0};
    }
  }

  lemma {:induction false} NoTags(w: Window)
    requires Agrees(w, {}) && (forall t :: t in w.handlers ==> t == 0)
    ensures Unacknowledged(w) == 0
  {
    hide Agrees, Unacknowledged;
    CountsAgreeIff(w);
    assert |w.handlers| == |w.handlers.Keys|;
    if 0 in w.handlers { assert w.handlers.Keys == {0}; } else { assert w.handlers.Keys == {}; }
  }

  lemma {:induction false} ConfirmKeepsClosing(w: Window, tag: nat, verdict: Verdict)
    requires tag < w.current
    ensures Confirm(w, tag, false, verdict).closing == ReliableConfirm(w, tag, false, verdict).closing
  {
    hide FlushLoop, ReliableConfirm;
  }

  /* ----- closing from a callback ----- */

  lemma {:induction false} FollowsCloses(w: Window, d: Window)
    requires Follows(w, d, true) && w.history.closes <= 1
    ensures d.history.closes <= 1
  {
  }

  /** Neither the callbacks of the message close, nor those of the messages they publish. */
  ghost predicate Quiet(m: Message) {
    QuietActs(m.onAck) && QuietActs(m.onNack)
  }

  ghost predicate QuietAct(act: Act) {
    match act
    case Posts(m) => Quiet(m)
    case Shuts => false
    case _ => true
  }

  ghost predicate QuietActs(acts: seq<Act>) {
    acts == [] || (QuietAct(acts[0]) && QuietActs(acts[1..]))
  }

  ghost predicate QuietHandlers(handlers: map<nat, Message>) {
    forall k :: k in handlers ==> Quiet(handlers[k])
  }

  lemma {:induction false} QuietPublish(w: Window, m: Message)
    requires QuietHandlers(w.handlers) && Quiet(m)
    ensures var d := Publish(w, m); QuietHandlers(d.handlers) && d.history.closes == w.history.closes
  {
    hide Quiet, SendAll;
    PublishedHandlers(w, m);
  }

  lemma {:induction false} QuietPerformAll(w: Window, acts: seq<Act>)
    requires QuietHandlers(w.handlers) && QuietActs(acts)
    ensures var d := PerformAll(w, acts); QuietHandlers(d.handlers) && d.history.closes == w.history.closes
    decreases |acts|
  {
    hide QuietHandlers, Publish, FlushLoop, Quiet;
    if acts != [] {
      if acts[0].Posts? { QuietPublish(w, acts[0].message); }
      QuietPerformAll(Perform(w, acts[0]), acts[1..]);
    }
  }

  lemma {:induction false} QuietReport(w: Window, k: nat, verdict: Verdict)
    requires QuietHandlers(w.handlers) && k in w.handlers
    ensures var d := Report(w, k, verdict); QuietHandlers(d.handlers) && d.history.closes == w.history.closes
  {
    hide PerformAll;
    assert Quiet(w.handlers[k]);
    QuietPerformAll(Resolve(w, k, verdict), Script(w.handlers[k], verdict));
  }

  lemma {:induction false} QuietSweep(w: Window, tag: nat, verdict: Verdict)
    requires QuietHandlers(w.handlers) && tag < w.current
    ensures var d := Sweep(w, tag, verdict); QuietHandlers(d.handlers) && d.history.closes == w.history.closes
    decreases |Covered(w.handlers, tag)|, if 0 in w.handlers then Height(w.handlers[0]) else 0
  {
    hide QuietHandlers, Report, Height, Covered;
    var first := First(w.handlers, 0, tag);
    if first.Some? {
      SweepShrinks(w, tag, verdict, first.value);
      QuietReport(w, first.value, verdict);
      QuietSweep(Report(w, first.value, verdict), tag, verdict);
    }
  }

  /** Every confirm comes while a message is open: none repeats what has all been confirmed. */
  ghost predicate Awaited(w: Window, events: seq<Event>)
    decreases |events|
  {
    events == [] || ((events[0].Confirming? ==> w.open != {}) && Awaited(Step(w, events[0]), events[1..]))
  }

  lemma {:induction false} OpenIsUnclosed(w: Window)
    requires Agrees(w, {}) && w.open != {}
    ensures w.history.closes == 0
  {
    hide Ordered, Once;
  }

  lemma {:induction false} QuietStep(w: Window, e: Event)
    requires Agrees(w, {}) && QuietHandlers(w.handlers) && w.history.closes <= 1
    requires e.Publishing? ==> Quiet(e.message)
    requires e.Confirming? ==> w.open != {}
    ensures var d := Step(w, e); QuietHandlers(d.handlers) && d.history.closes <= 1
  {
    hide Agrees, QuietHandlers, Quiet, Publish, Confirm, FlushLoop;
    match e
    case Publishing(m) => QuietPublish(w, m);
    case Confirming(tag, multiple, ack) =>
      OpenIsUnclosed(w);
      if 0 < tag <= w.last {
        OnTheWire(w, tag);
        QuietConfirm(w, tag, multiple, if ack then Acked else Nacked);
      }
    case Closing => ShutKeeps(w, {});
    case _ =>
  }

  lemma {:induction false} QuietConfirm(w: Window, tag: nat, multiple: bool, verdict: Verdict)
    requires QuietHandlers(w.handlers) && tag < w.current
    ensures var d := Confirm(w, tag, multiple, verdict);
            QuietHandlers(d.handlers) && d.history.closes <= w.history.closes + 1
  {
    hide QuietHandlers, Sweep, Report, Confirm;
    if multiple { QuietSweep(w, tag, verdict); } else if tag in w.handlers { QuietReport(w, tag, verdict); }
    ConfirmKeepsHandlers(w, tag, multiple, verdict);
    ConfirmCounts(w, tag, multiple, verdict);
  }

  lemma {:induction false} QuietRun(w: Window, events: seq<Event>)
    requires Agrees(w, {}) && QuietHandlers(w.handlers) && w.history.closes <= 1 && Awaited(w, events)
    requires forall e :: e in events && e.Publishing? ==> Quiet(e.message)
    ensures Run(w, events).history.closes <= 1
    decreases |events|
  {
    hide Agrees, QuietHandlers, Quiet, Step;
    if events != [] {
      assert events[0] in events;
      StepKeeps(w, events[0]);
      QuietStep(w, events[0]);
      QuietRun(Step(w, events[0]), events[1..]);
    }
  }

  /** As long as no callback closes and no confirm comes with nothing open, the channel is closed once at most. */
  lemma {:induction false} ClosesOnce(maxPayload: positive, throttle: nat, events: seq<Event>)
    requires forall e :: e in events && e.Publishing? ==> Quiet(e.message)
    requires Awaited(Fresh(maxPayload, throttle), events)
    ensures Run(Fresh(maxPayload, throttle), events).history.closes <= 1
  {
    hide Run, Agrees, Quiet, Awaited;
    FreshAgrees(maxPayload, throttle);
    QuietRun(Fresh(maxPayload, throttle), events);
  }

  lemma {:induction false} AwaitedStep(w: Window, e: Event)
    requires Agrees(w, {}) && w.history.closes <= 2 && (e.Confirming? ==> w.open != {})
    ensures Step(w, e).history.closes <= 2
  {
    hide Agrees, Publish, Confirm, FlushLoop;
    match e
    case Publishing(m) => PublishedKeeps(w, m);
    case Confirming(tag, multiple, ack) =>
      OpenIsUnclosed(w);
      if 0 < tag <= w.last {
        OnTheWire(w, tag);
        ConfirmAddsTwo(w, tag, multiple, if ack then Acked else Nacked);
      }
    case Closing => ShutKeeps(w, {});
    case _ =>
  }

  lemma {:induction false} ConfirmAddsTwo(w: Window, tag: nat, multiple: bool, verdict: Verdict)
    requires Agrees(w, {}) && 0 < tag <= w.last && tag < w.current && w.history.closes == 0
    ensures Confirm(w, tag, multiple, verdict).history.closes <= 2
  {
    hide Agrees, Follows, Sweep, Report, Confirm;
    ConfirmCounts(w, tag, multiple, verdict);
    if multiple {
      SweepKeeps(w, tag, verdict, {});
      FollowsCloses(w, Sweep(w, tag, verdict));
    } else if tag in w.handlers {
      ReportKeeps(w, tag, verdict, {});
      FollowsCloses(w, Report(w, tag, verdict));
    }
  }

  lemma {:induction false} AwaitedRun(w: Window, events: seq<Event>)
    requires Agrees(w, {}) && w.history.closes <= 2 && Awaited(w, events)
    ensures Run(w, events).history.closes <= 2
    decreases |events|
  {
    hide Agrees, Step;
    if events != [] {
      StepKeeps(w, events[0]);
      AwaitedStep(w, events[0]);
      AwaitedRun(Step(w, events[0]), events[1..]);
    }
  }

  /** And whatever the callbacks do, twice at most. */
  lemma {:induction false} ClosesTwiceAtMost(maxPayload: positive, throttle: nat, events: seq<Event>)
    requires Awaited(Fresh(maxPayload, throttle), events)
    ensures Run(Fresh(maxPayload, throttle), events).history.closes <= 2
  {
    hide Run, Agrees, Awaited;
    FreshAgrees(maxPayload, throttle);
    AwaitedRun(Fresh(maxPayload, throttle), events);
  }
}
