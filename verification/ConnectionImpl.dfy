/** The connection object: channel identifiers, the frame queue, and the two-step close. */
module ConnectionImpl {
  import opened ChannelIds
  import opened Closing

  class ConnectionImpl {
    var state: State
    var closed: bool
    var maxFrame: nat
    var channels: map<nat, Channel>
    var nextFree: nat
    var maxChannels: nat
    var queue: seq<Frame>
    ghost var wire: seq<Frame>

    ghost function View(): Connection
      reads this
    {
      Connection(state, closed, maxFrame, channels, queue, wire)
    }

    ghost predicate Valid()
      reads this
    {
      nextFree < IDS && maxChannels < IDS && (forall id :: id in channels ==> 0 < id < IDS)
    }

    constructor ()
      ensures Valid() && View() == FRESH && nextFree == 1 && maxChannels == 0
    {
      state, closed, maxFrame, channels, nextFree, maxChannels := Protocol, false, 4096, map[], 1, 0;
      queue, wire := [], [Handshaking];
    }

    /** The counter moves on until it stands on an identifier that is not in use. */
    method MoveToFree()
      requires Valid() && SomeFree(channels.Keys)
      modifies this`nextFree
      ensures Valid() && nextFree == NextFree(old(nextFree), channels.Keys)
    {
      hide Distance, Passed;
      while nextFree == 0 || nextFree in channels
        invariant nextFree < IDS && NextFree(nextFree, channels.Keys) == NextFree(old(nextFree), channels.Keys)
        decreases Distance(nextFree, AnyFree(channels.Keys))
      {
        assert !Free(channels.Keys, nextFree);
        StepsCloser(nextFree, AnyFree(channels.Keys));
        nextFree := (nextFree + 1) % IDS;
      }
      assert Free(channels.Keys, nextFree);
    }

    lemma {:induction false} KeysFit()
      requires Valid()
      ensures Given(channels.Keys) && |channels.Keys| == |channels|
      ensures |channels| < IDS - 1 ==> SomeFree(channels.Keys)
    {
      SomeFreeIff(channels.Keys);
    }

    /**
     `add`: zero exactly when a limit is reached, and otherwise what the search finds. Without a limit
     and with every identifier in use the search does not end.
     */
    method Add(channel: Channel) returns (id: nat)
      requires Valid() && (maxChannels == 0 ==> |channels| < IDS - 1)
      modifies this`channels, this`nextFree
      ensures Valid()
      ensures id == 0 <==> maxChannels > 0 && old(|channels|) >= maxChannels
      ensures id == 0 ==> channels == old(channels) && nextFree == old(nextFree)
      ensures id != 0 ==> SomeFree(old(channels).Keys) && id == NextFree(old(nextFree), old(channels).Keys)
      ensures id != 0 ==> channels == old(channels)[id := channel] && nextFree == (id + 1) % IDS
    {
      hide NextFree, SomeFree, Given;
      if maxChannels > 0 && |channels| >= maxChannels { return 0; }
      KeysFit();
      MoveToFree();
      id := nextFree;
      channels := channels[id := channel];
      nextFree := (nextFree + 1) % IDS;
    }

    method Remove(id: nat)
      requires Valid()
      modifies this`channels
      ensures Valid() && channels == old(channels) - {id}
      ensures 0 < id < IDS ==> Free(channels.Keys, id)
    {
      channels := channels - {id};
    }

    /** The handler is given the frame. */
    method Emit(f: Frame)
      modifies this`wire
      ensures wire == old(wire) + [f]
    {
      wire := wire + [f];
    }

    method Send(f: Frame) returns (ok: bool)
      modifies this`queue, this`wire
      ensures (View(), ok) == Closing.Send(old(View()), f)
    {
      if state == Closing.Closing || state == Closed { return false; }
      if closed && f.OfChannel? { return false; }
      if maxFrame > 0 && f.OfChannel? && f.size > maxFrame { return false; }
      if (state == Connected && queue == []) || f.Handshaking? {
        Emit(f);
      } else {
        queue := queue + [f];
      }
      return true;
    }

    method SendBuffer(f: Frame) returns (ok: bool)
      modifies this`queue, this`wire
      ensures (View(), ok) == Closing.SendBuffer(old(View()), f)
    {
      if state != Connected { return false; }
      if queue == [] {
        Emit(f);
      } else {
        queue := queue + [f];
      }
      return true;
    }

    /** A loop over the channels, in any order, until one is found waiting. */
    method WaitingChannels() returns (waiting: bool)
      ensures waiting <==> WaitingOnes(channels) != {}
    {
      var rest := channels.Keys;
      while rest != {}
        invariant rest <= channels.Keys
        invariant NoneWaits(channels, rest)
        decreases |rest|
      {
        var id :| id in rest;
        if channels[id].Waiting() {
          WaitingMember(channels, id);
          return true;
        }
        rest := rest - {id};
      }
      NoneWaitsIff(channels);
      return false;
    }

    method SendClose()
      modifies this`state, this`queue, this`wire
      ensures View() == Closing.SendClose(old(View()))
    {
      var _ := Send(ConnectionClose(WaitingOnes(channels)));
      state := Closing.Closing;
    }

    /** The end of `parse`. */
    method EndOfBuffer()
      modifies this`state, this`queue, this`wire
      ensures View() == Closing.Step(old(View()), Closing.EndOfBuffer)
    {
      if !closed || state != Connected { return; }
      var waiting := WaitingChannels();
      if !waiting { SendClose(); }
    }

    /** Every channel is closed in turn, and those that wait are counted. */
    method CloseEach() returns (waiters: nat)
      modifies this`channels
      ensures channels == CloseChannels(old(channels))
      ensures waiters == 0 <==> WaitingOnes(channels) == {}
    {
      hide CloseChannel;
      waiters := 0;
      var rest := channels.Keys;
      while rest != {}
        invariant rest <= old(channels).Keys && PartlyClosed(channels, old(channels), rest)
        invariant waiters == 0 <==> NoneWaits(channels, rest)
        decreases |rest|
      {
        var id :| id in rest;
        channels := channels[id := CloseChannel(id, channels[id])];
        if channels[id].Waiting() { waiters := waiters + 1; }
        rest := rest - {id};
      }
      assert channels == CloseChannels(old(channels));
      NoneWaitsIff(channels);
    }

    method Close() returns (ok: bool)
      modifies this`closed, this`channels, this`state, this`queue, this`wire
      ensures View() == Closing.Close(old(View()))
      ensures ok <==> !old(closed) && old(state) != Closed
    {
      hide CloseChannels, WaitingOnes;
      if closed || state == Closed { return false; }
      closed := true;
      var waiters := CloseEach();
      if waiters > 0 || state != Connected { return true; }
      SendClose();
      return true;
    }

    method ChannelSend(id: nat, synchronous: bool, size: nat)
      modifies this`channels, this`queue, this`wire
      ensures View() == Closing.ChannelSend(old(View()), id, synchronous, size)
    {
      if id !in channels || !channels[id].usable { return; }
      var ch, f := channels[id], OfChannel(id, synchronous, size);
      if ch.Waiting() {
        channels := channels[id := ch.(queue := ch.queue + [f])];
      } else {
        var ok := Send(f);
        if ok { channels := channels[id := ch.(synchronous := synchronous)]; }
      }
    }

    /** `flush` of a channel whose synchronous frame was answered. */
    method ChannelReply(id: nat)
      modifies this`channels, this`queue, this`wire
      ensures View() == Closing.ChannelReply(old(View()), id)
    {
      if id !in channels { return; }
      var ch := channels[id].(synchronous := false);
      while !ch.synchronous && ch.queue != []
        invariant channels == old(channels) && state == old(state) && closed == old(closed)
        invariant FlushChannel(View(), id, ch)
               == FlushChannel(old(View()), id, old(channels)[id].(synchronous := false))
        decreases |ch.queue|
      {
        var f := ch.queue[0];
        ch := ch.(queue := ch.queue[1..]);
        var ok := SendBuffer(f);
        if !ok { break; }
        ch := ch.(synchronous := f.OfChannel? && f.synchronous);
      }
      channels := channels[id := ch];
    }

    /** `attach` of a channel under the identifier it was given. */
    method OpenChannel(id: nat)
      modifies this`channels, this`queue, this`wire
      ensures View() == Closing.OpenChannel(old(View()), id)
    {
      var ok := Send(OfChannel(id, true, OPEN_SIZE));
      channels := channels[id := Channel(ok, ok, [])];
    }

    method Ask(r: Request)
      modifies this`closed, this`channels, this`state, this`queue, this`wire
      ensures View() == Closing.Ask(old(View()), r)
    {
      match r
      case Opens(id) => if id !in channels { OpenChannel(id); }
      case Sends(id, synchronous, size) => ChannelSend(id, synchronous, size);
      case Beats => var _ := Send(OfChannel(0, false, HEARTBEAT_SIZE));
      case Closes => var _ := Close();
    }

    /** `setReady`, with what the callback of the handler asks for. */
    method SetReady(onReady: seq<Request>)
      modifies this`closed, this`channels, this`state, this`queue, this`wire
      ensures View() == Closing.SetReady(old(View()), onReady)
    {
      hide Closing.Ask, CloseIfDue;
      state := Connected;
      ghost var start := View();
      var i := 0;
      while i < |onReady|
        invariant 0 <= i <= |onReady|
        invariant AskAll(View(), onReady[i..]) == AskAll(start, onReady)
      {
        Ask(onReady[i]);
        i := i + 1;
      }
      SendQueue();
    }

    /** The queue of a connection that has become ready is sent; the close follows if it is due. */
    method SendQueue()
      modifies this`state, this`queue, this`wire
      ensures View() == CloseIfDue(old(View()).(wire := old(wire) + old(queue), queue := []))
    {
      while queue != []
        invariant wire + queue == old(wire) + old(queue) && state == old(state)
        decreases |queue|
      {
        assert queue == [queue[0]] + queue[1..];
        Emit(queue[0]);
        queue := queue[1..];
      }
      assert wire + [] == wire;
      if closed && state == Connected {
        var waiting := WaitingChannels();
        if !waiting { SendClose(); }
      }
    }
  }

  ghost predicate PartlyClosed(channels: map<nat, Channel>, before: map<nat, Channel>, rest: set<nat>) {
    && channels.Keys == before.Keys
    && forall id :: id in channels ==> channels[id] == if id in rest then before[id] else CloseChannel(id, before[id])
  }

  ghost predicate NoneWaits(channels: map<nat, Channel>, except: set<nat>) {
    forall id :: id in channels && id !in except ==> !channels[id].Waiting()
  }

  lemma {:induction false} NoneWaitsIff(channels: map<nat, Channel>)
    ensures WaitingOnes(channels) == {} <==> NoneWaits(channels, {})
  {
    forall id | id in channels && channels[id].Waiting() ensures id in WaitingOnes(channels) {}
  }
}
