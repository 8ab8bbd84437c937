/** The channel object: its request pipeline over a linked chain of Deferred objects. */
module ChannelImpl {
  import Pipeline
  import opened PipelineTheorems

  class Deferred {
    const id: nat
    const onSuccess: seq<Pipeline.Operation>
    var next: Deferred?
    var failed: bool

    constructor (id: nat, onSuccess: seq<Pipeline.Operation>, failed: bool)
      ensures this.id == id && this.onSuccess == onSuccess && this.failed == failed && next == null
    {
      this.id, this.onSuccess, this.failed, next := id, onSuccess, failed, null;
    }
  }

  /** The objects are distinct, each points to the one behind it, and the last points nowhere. */
  ghost predicate Linked(chain: seq<Deferred>)
    reads chain
  {
    && (forall i, j :: 0 <= i < j < |chain| ==> chain[i] != chain[j])
    && (forall i, j :: 0 <= i && j == i + 1 && j < |chain| ==> chain[i].next == chain[j])
    && (chain != [] ==> chain[|chain| - 1].next == null)
  }

  ghost function Requests(chain: seq<Deferred>): (r: seq<Pipeline.Request>)
    ensures |r| == |chain|
  {
    seq(|chain|, i requires 0 <= i < |chain| => Pipeline.Request(chain[i].id, chain[i].onSuccess))
  }

  /** What is linked behind the head does not depend on where the head points. */
  twostate lemma TailIsLinked(chain: seq<Deferred>)
    requires chain != [] && old(Linked(chain))
    requires forall i :: 0 < i < |chain| ==> unchanged(chain[i])
    ensures Linked(chain[1..]) && Requests(chain[1..]) == Requests(chain)[1..]
  {
    forall i, j | 0 <= i && j == i + 1 && j < |chain| - 1 ensures chain[1..][i].next == chain[1..][j] {
      assert unchanged(chain[i + 1]) && old(chain[i + 1].next) == chain[j + 1];
    }
  }

  lemma {:induction false} HeadPoints(chain: seq<Deferred>)
    requires chain != [] && Linked(chain)
    ensures chain[0].next == if |chain| > 1 then chain[1] else null
  {
  }

  lemma {:induction false} FailAllStep(c: Pipeline.Channel)
    ensures Pipeline.FailAll(c)
            == if c.chain == [] then c
               else Pipeline.FailAll(Pipeline.Complete(c, Pipeline.Failure(c.chain[0].id)).(chain := c.chain[1..]))
  {
  }

  class ChannelImpl {
    const onReady: seq<Pipeline.Operation>
    var phase: Pipeline.Phase
    var synchronous: bool
    var queue: seq<Pipeline.Frame>
    var oldest: Deferred?
    var newest: Deferred?
    ghost var chain: seq<Deferred>
    ghost var history: Pipeline.History

    /** The chain hangs on the oldest Deferred. */
    ghost predicate Hangs()
      reads this, chain
    {
      Linked(chain) && oldest == if chain == [] then null else chain[0]
    }

    ghost predicate Valid()
      reads this, chain
    {
      Hangs() && newest == if chain == [] then null else chain[|chain| - 1]
    }

    ghost function View(): Pipeline.Channel
      reads this
    {
      Pipeline.Channel(phase, synchronous, queue, Requests(chain), history)
    }

    /** `attach`. */
    constructor (onReady: seq<Pipeline.Operation>)
      ensures Valid() && View() == Pipeline.Attached() && this.onReady == onReady
    {
      this.onReady := onReady;
      phase, synchronous, queue, oldest, newest, chain := Pipeline.Connected, false, [], null, null, [];
      history := Pipeline.History([], [], [], [], []);
      new;
      var _ := SendFrame(Pipeline.Open);
    }

    /** The connection takes the frame. */
    method Transmit(frame: Pipeline.Frame)
      modifies this`synchronous, this`history
      ensures View() == Pipeline.Transmit(old(View()), frame)
    {
      history := history.(traffic := history.traffic + [Pipeline.Sent(frame)]);
      synchronous := frame.Synchronous();
    }

    method SendFrame(frame: Pipeline.Frame) returns (ok: bool)
      modifies this`synchronous, this`queue, this`history
      ensures (View(), ok) == Pipeline.SendFrame(old(View()), frame)
    {
      if phase == Pipeline.Closed { return false; }
      if phase == Pipeline.Closing { return true; }
      history := history.(accepted := history.accepted + [frame]);
      if synchronous || queue != [] {
        queue := queue + [frame];
      } else {
        Transmit(frame);
      }
      return true;
    }

    method Flush()
      modifies this`synchronous, this`queue, this`history
      ensures View() == Pipeline.Flush(old(View()))
    {
      synchronous := false;
      while !synchronous && queue != []
        invariant Pipeline.FlushLoop(View()) == Pipeline.Flush(old(View()))
        decreases |queue|
      {
        var frame := queue[0];
        queue := queue[1..];
        Transmit(frame);
      }
    }

    method Push(d: Deferred, ghost lacksFrame: bool)
      requires Valid() && d !in chain && d.next == null
      modifies this`oldest, this`newest, this`chain, this`history, newest
      ensures Valid() && chain == old(chain) + [d]
      ensures View() == Pipeline.Push(old(View()), Pipeline.Request(d.id, d.onSuccess), lacksFrame)
    {
      if oldest == null { oldest := d; }
      if newest != null { newest.next := d; }
      newest := d;
      chain := chain + [d];
      history := history.(pushed := history.pushed + [d.id],
      frameless := history.frameless + if lacksFrame then [d.id] else []);
      assert Requests(chain) == Requests(old(chain)) + [Pipeline.Request(d.id, d.onSuccess)];
    }

    /** Only objects made since are behind those of before. */
    twostate predicate Extended()
      reads this
    {
      old(chain) <= chain && forall i :: |old(chain)| <= i < |chain| ==> fresh(chain[i])
    }

    /** `push` of a request: its frame is sent, or queued, or refused. */
    method PushFrame(frame: Pipeline.Frame, request: Pipeline.Request) returns (d: Deferred)
      requires Valid()
      modifies this, newest
      ensures Valid() && Extended() && fresh(d) && d.failed == (old(phase) == Pipeline.Closed) && phase == old(phase)
      ensures View() == Pipeline.Push(Pipeline.SendFrame(old(View()), frame).0, request, !old(View()).Usable())
    {
      var usable := phase == Pipeline.Connected || phase == Pipeline.Ready;
      var ok := SendFrame(frame);
      d := new Deferred(request.id, request.onSuccess, !ok);
      Push(d, !usable);
    }

    method Close(request: Pipeline.Request)
      requires Valid()
      modifies this, newest
      ensures Valid() && Extended()
      ensures View() == Pipeline.Perform(old(View()), Pipeline.Close(request.id, request.onSuccess))
    {
      if phase != Pipeline.Connected && phase != Pipeline.Ready {
        var d := new Deferred(request.id, request.onSuccess, phase == Pipeline.Closing);
        Push(d, true);
      } else {
        var d := PushFrame(Pipeline.CloseMethod(request.id), request);
        if !d.failed { phase := Pipeline.Closing; }
      }
    }

    method Perform(op: Pipeline.Operation)
      requires Valid()
      modifies this, newest
      ensures Valid() && View() == Pipeline.Perform(old(View()), op) && Extended()
    {
      match op
      case Send(id) =>
        var _ := SendFrame(Pipeline.Plain(id));
      case Call(id, onSuccess) =>
        var _ := PushFrame(Pipeline.Method(id), Pipeline.Request(id, onSuccess));
      case Close(id, onSuccess) =>
        Close(Pipeline.Request(id, onSuccess));
    }

    method PerformAll(ops: seq<Pipeline.Operation>)
      requires Valid()
      modifies this, newest
      ensures Valid() && View() == Pipeline.PerformAll(old(View()), ops) && Extended()
    {
      var i := 0;
      while i < |ops|
        invariant 0 <= i <= |ops| && Valid() && Extended()
        invariant newest == old(newest) || fresh(newest)
        invariant Pipeline.PerformAll(View(), ops[i..]) == Pipeline.PerformAll(old(View()), ops)
      {
        Perform(ops[i]);
        i := i + 1;
      }
    }

    /** The oldest Deferred leaves the chain. */
    method Unchain()
      requires Valid() && oldest != null
      modifies this`oldest, this`newest, this`chain, oldest`next
      ensures Valid() && chain == old(chain)[1..] && Requests(chain) == Requests(old(chain))[1..]
    {
      HeadPoints(chain);
      var next := oldest.next;
      oldest.next := null;
      oldest := next;
      if next == null { newest := null; }
      chain := chain[1..];
      TailIsLinked(old(chain));
    }

    method ReportSuccess()
      requires Valid()
      modifies this, chain
      ensures Valid() && View() == Pipeline.ReportSuccess(old(View()))
      ensures forall i :: 0 <= i < |chain| ==> chain[i] in old(chain) || fresh(chain[i])
    {
      hide Pipeline.PerformAll, Pipeline.FlushLoop;
      if oldest == null { return; }
      Flush();
      FlushKeepsChain(old(View()).(synchronous := false));
      var cb := oldest;
      assert Requests(chain)[0] == Pipeline.Request(cb.id, cb.onSuccess);
      history := history.(completed := history.completed + [Pipeline.Success(cb.id)]);
      PerformAll(cb.onSuccess);
      assert chain[0] == cb;
      Unchain();
    }

    /** The oldest Deferred fails and leaves the chain; the newest is left to the caller. */
    method FailOldest()
      requires Hangs() && oldest != null
      modifies this`oldest, this`chain, this`history, oldest
      ensures Hangs() && chain == old(chain)[1..] && old(oldest).failed && old(oldest).next == null
      ensures View()
              == Pipeline.Complete(old(View()), Pipeline.Failure(old(chain)[0].id)).(chain := old(View()).chain[1..])
      ensures Pipeline.FailAll(View()) == Pipeline.FailAll(old(View()))
    {
      hide Pipeline.FailAll;
      FailAllStep(View());
      HeadPoints(chain);
      var cb := oldest;
      cb.failed := true;
      history := history.(completed := history.completed + [Pipeline.Failure(cb.id)]);
      var next := cb.next;
      cb.next := null;
      oldest := next;
      chain := chain[1..];
      TailIsLinked(old(chain));
    }

    /** Every Deferred of the chain fails, in order; the newest is left to the caller. */
    method FailChain()
      requires Hangs()
      modifies this`oldest, this`chain, this`history, chain
      ensures Hangs() && chain == [] && View() == Pipeline.FailAll(old(View()))
      ensures forall d :: d in old(chain) ==> d.failed && d.next == null
    {
      hide Pipeline.FailAll, Pipeline.Complete, Requests;
      if oldest != null { FailOldest(); }
      while oldest != null
        invariant Hangs() && Pipeline.FailAll(View()) == Pipeline.FailAll(old(View()))
        invariant |chain| <= |old(chain)| && chain == old(chain)[|old(chain)| - |chain|..]
        invariant forall i :: 0 <= i < |old(chain)| - |chain| ==> old(chain)[i].failed && old(chain)[i].next == null
        decreases |chain|
      {
        FailOldest();
      }
      FailAllStep(View());
    }

    method ReportError()
      requires Valid()
      modifies this, chain
      ensures Valid() && View() == Pipeline.ReportError(old(View())) && chain == []
      ensures forall d :: d in old(chain) ==> d.failed && d.next == null
    {
      phase, synchronous, queue := Pipeline.Closed, false, [];
      FailChain();
      newest := null;
      history := history.(frameless := []);
    }

    method ReportReady()
      requires Valid()
      modifies this, newest
      ensures Valid() && View() == Pipeline.ReportReady(old(View()), onReady) && Extended()
    {
      if phase == Pipeline.Connected { phase := Pipeline.Ready; }
      Flush();
      PerformAll(onReady);
    }

    method ReportClosed()
      requires Valid()
      modifies this, chain
      ensures Valid() && View() == Pipeline.ReportClosed(old(View()))
    {
      phase := Pipeline.Closed;
      ReportSuccess();
      ReportError();
    }

    /**
     The broker, which answers what it was sent in order, answers `frame`. Together with `Perform`
     and `ReportError` these are the steps of a run.
     */
    method ProcessReply(frame: Pipeline.Frame)
      requires Valid() && phase != Pipeline.Closed
      requires Pipeline.Unanswered(history.traffic) != [] && frame == Pipeline.Unanswered(history.traffic)[0]
      modifies this, chain
      ensures Valid() && View() == Pipeline.Step(old(View()), onReady, Pipeline.Reply)
    {
      hide Pipeline.Unanswered, Pipeline.ReportReady, Pipeline.ReportSuccess, Pipeline.ReportClosed;
      history := history.(traffic := history.traffic + [Pipeline.Answered(frame)]);
      match frame
      case Open => ReportReady();
      case CloseMethod(_) => ReportClosed();
      case _ => ReportSuccess();
    }
  }
}
