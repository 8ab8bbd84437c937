/** The objects that receive content: the message with its own or a borrowed body, and the consumer. */
module Consumer {
  import opened Bytes
  import opened Options
  import R = Reassembly

  /** An incoming message. Its body is a frame's payload, or a buffer it allocated itself. */
  class Message {
    var bodySize: nat
    var body: seq<byte>
    var mutableBody: array?<byte>
    var filled: nat

    ghost predicate Valid()
      reads this, mutableBody
    {
      if mutableBody == null then filled == 0 && (body == [] || bodySize <= |body|)
      else filled <= bodySize == mutableBody.Length
    }

    ghost function View(): R.Assembly
      reads this, mutableBody
      requires Valid()
    {
      if mutableBody != null then R.Assembly(bodySize, mutableBody[..filled], true)
      else R.Assembly(bodySize, if bodySize <= |body| then body[..bodySize] else [], false)
    }

    constructor ()
      ensures Valid() && View() == R.Assembly(0, [], false) && mutableBody == null && body == []
    {
      bodySize, body, mutableBody, filled := 0, [], null, 0;
    }

    /** The header sets the size before any octet has come in. */
    method SetBodySize(size: nat)
      requires Valid() && mutableBody == null && body == []
      modifies this`bodySize
      ensures Valid() && View() == R.Assembly(size, [], false) && mutableBody == null && body == []
    {
      bodySize := size;
    }

    method Append(payload: seq<byte>) returns (complete: bool)
      requires Valid()
      modifies this, mutableBody
      ensures Valid() && (View(), complete) == R.Append(old(View()), payload)
      ensures mutableBody == old(mutableBody) || fresh(mutableBody)
    {
      if mutableBody != null {
        var size := if |payload| < bodySize - filled then |payload| else bodySize - filled;
        forall i | 0 <= i < size {
          mutableBody[filled + i] := payload[i];
        }
        filled := filled + size;
        assert mutableBody[..filled] == old(mutableBody[..filled]) + payload[..size];
        assert |payload| == size ==> payload[..size] == payload;
      } else if |payload| >= bodySize {
        body := payload;
      } else {
        mutableBody := new byte[bodySize](_ => 0);
        filled := |payload|;
        forall i | 0 <= i < filled {
          mutableBody[i] := payload[i];
        }
        assert mutableBody[..filled] == payload;
      }
      return filled >= bodySize;
    }
  }

  /** A consumer with a message callback. The channel has it installed while it receives a message. */
  class DeferredConsumer {
    var installed: bool
    var remaining: nat
    var message: Message?
    ghost var delivered: seq<seq<byte>>

    ghost predicate Valid()
      reads this, message, if message == null then {} else {message.mutableBody}
    {
      message != null ==> message.Valid()
    }

    ghost function View(): R.Receiver
      reads this, message, if message == null then {} else {message.mutableBody}
      requires Valid()
    {
      R.Receiver(installed, remaining, if message == null then None else Some(message.View()), delivered)
    }

    constructor ()
      ensures Valid() && View() == R.Receiver(false, 0, None, [])
    {
      installed, remaining, message, delivered := false, 0, null, [];
    }

    method ProcessDeliver()
      requires Valid()
      modifies this
      ensures Valid() && View() == R.Process(old(View()), R.Deliver)
      ensures fresh(message) && message.mutableBody == null && message.body == []
    {
      installed := true;
      message := new Message();
    }

    /** The callback is given the message, and the channel forgets the receiver. */
    method Complete()
      requires Valid()
      modifies this
      ensures Valid() && View() == R.Complete(old(View()))
    {
      if message != null {
        delivered := delivered + [message.View().body];
      }
      message := null;
      installed := false;
    }

    /** The header follows the deliver frame: no octet has come in. */
    method ProcessHeader(bodySize: nat)
      requires Valid()
      requires installed && message != null ==> message.mutableBody == null && message.body == []
      modifies this, message
      ensures Valid() && View() == R.Process(old(View()), R.Header(bodySize))
    {
      if !installed { return; }
      remaining := bodySize;
      if message != null {
        message.SetBodySize(bodySize);
      }
      if remaining == 0 { Complete(); }
    }

    method ProcessBody(payload: seq<byte>)
      requires Valid()
      modifies this, message, if message == null then {} else {message.mutableBody}
      ensures Valid() && View() == R.Process(old(View()), R.Body(payload))
    {
      if !installed { return; }
      remaining := (remaining - |payload|) % 0x1_0000_0000_0000_0000;
      if message != null {
        var _ := message.Append(payload);
      }
      if remaining == 0 { Complete(); }
    }
  }
}
