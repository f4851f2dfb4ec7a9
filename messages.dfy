/**
 * The messages a workflow run produces and the bounded queue that carries
 * step results from the workflow executor to the polling loop (a tokio
 * `mpsc::channel(100)`, used from a single task).
 */
module Messages {
  import opened Wrappers

  /**
   * What a workflow run reports, with the fields its text is formatted from
   * (durations are not modelled). `stdout` and `stderr` are the previews
   * placed in the text.
   */
  datatype Message =
    | WorkflowStarting(path: string, branch: string, host: string)
    | NoWorkflowSteps(file: string, path: string, branch: string)
    | InvalidEmptyCommand(step: nat)
    | StepSucceeded(step: nat, run: string, code: Option<int>, stdout: string)
    | StepFailed(step: nat, run: string, code: Option<int>, stdout: string, stderr: string)
    | StepFailedToStart(step: nat, run: string, reason: string)
    | WorkflowSucceeded(path: string, branch: string)
    | WorkflowFailed(path: string, branch: string)

  /** `try_recv`: a message, or why there is none. */
  datatype Received = Received(message: Message) | Empty | Disconnected

  /** The queue after offering `msgs` with `try_send`: whatever does not fit is dropped. */
  function Offer(buffer: seq<Message>, msgs: seq<Message>, capacity: nat): (r: seq<Message>)
    requires |buffer| <= capacity
    ensures |r| <= capacity
    ensures |r| == (if |buffer| + |msgs| <= capacity then |buffer| + |msgs| else capacity)
    ensures r == buffer + msgs[..|r| - |buffer|]
  {
    var room := capacity - |buffer|;
    if |msgs| <= room then
      assert msgs[..|msgs|] == msgs;
      buffer + msgs
    else buffer + msgs[..room]
  }

  lemma {:induction false} OfferAppend(buffer: seq<Message>, msgs: seq<Message>, m: Message, capacity: nat)
    requires |buffer| <= capacity
    ensures Offer(buffer, msgs + [m], capacity)
         == (var b := Offer(buffer, msgs, capacity); if |b| < capacity then b + [m] else b)
  {
    var b := Offer(buffer, msgs, capacity);
    if |b| < capacity {
      assert |buffer| + |msgs| < capacity;
      assert b == buffer + msgs;
      assert (msgs + [m])[..|msgs| + 1] == msgs + [m];
    } else {
      var k := capacity - |buffer|;
      assert k <= |msgs|;
      assert (msgs + [m])[..k] == msgs[..k];
    }
  }

  /** Offering two runs of messages one after the other is offering them together. */
  lemma {:induction false} OfferConcat(buffer: seq<Message>, a: seq<Message>, b: seq<Message>, capacity: nat)
    requires |buffer| <= capacity
    ensures Offer(Offer(buffer, a, capacity), b, capacity) == Offer(buffer, a + b, capacity)
    decreases |b|
  {
    if b == [] {
      assert a + b == a;
    } else {
      var init := b[..|b| - 1];
      var m := b[|b| - 1];
      assert b == init + [m];
      assert a + b == (a + init) + [m];
      OfferConcat(buffer, a, init, capacity);
      OfferAppend(Offer(buffer, a, capacity), init, m, capacity);
      OfferAppend(buffer, a + init, m, capacity);
    }
  }

  /** The outcome of a run of `send().await` calls that no receiver interleaves with. */
  datatype SendOutcome =
    | Delivered(buffer: seq<Message>)
    | Blocked(buffer: seq<Message>, pending: nat)

  /**
   * `send(msg).await` for each message in turn, as the executor does while
   * the polling task that would receive is the same task, suspended in it:
   * once the queue is full the next send never completes.
   */
  function SendAllAsWritten(buffer: seq<Message>, msgs: seq<Message>, capacity: nat): (r: SendOutcome)
    requires |buffer| <= capacity
    decreases |msgs|
  {
    if msgs == [] then Delivered(buffer)
    else if |buffer| == capacity then Blocked(buffer, 0)
    else
      match SendAllAsWritten(buffer + [msgs[0]], msgs[1..], capacity)
      case Delivered(b) => Delivered(b)
      case Blocked(b, i) => Blocked(b, i + 1)
  }

  /** Sending blocks exactly when more messages are sent than there is room for. */
  lemma {:induction false} SendAllAsWrittenBlocks(buffer: seq<Message>, msgs: seq<Message>, capacity: nat)
    requires |buffer| <= capacity
    ensures SendAllAsWritten(buffer, msgs, capacity).Blocked? <==> |buffer| + |msgs| > capacity
    ensures SendAllAsWritten(buffer, msgs, capacity).Blocked? ==>
      SendAllAsWritten(buffer, msgs, capacity).pending == capacity - |buffer|
    decreases |msgs|
  {
    if msgs != [] && |buffer| < capacity {
      SendAllAsWrittenBlocks(buffer + [msgs[0]], msgs[1..], capacity);
    }
  }

  /** In one poll the executor blocks forever on the 101st message sent into the empty queue. */
  lemma HundredAndFirstSendBlocks(msgs: seq<Message>)
    requires |msgs| == 101
    ensures SendAllAsWritten([], msgs, 100) == Blocked(msgs[..100], 100)
  {
    SendAllAsWrittenBlocksAt([], msgs, 100);
  }

  lemma {:induction false} SendAllAsWrittenBlocksAt(buffer: seq<Message>, msgs: seq<Message>, capacity: nat)
    requires |buffer| <= capacity < |buffer| + |msgs|
    ensures SendAllAsWritten(buffer, msgs, capacity)
         == Blocked(buffer + msgs[..capacity - |buffer|], capacity - |buffer|)
    decreases |msgs|
  {
    if |buffer| < capacity {
      SendAllAsWrittenBlocksAt(buffer + [msgs[0]], msgs[1..], capacity);
      assert buffer + [msgs[0]] + msgs[1..][..capacity - |buffer| - 1] == buffer + msgs[..capacity - |buffer|];
    }
  }

  /** Offering never blocks, and keeps what a blocking send would have delivered. */
  lemma OfferKeepsDelivered(buffer: seq<Message>, msgs: seq<Message>, capacity: nat)
    requires |buffer| <= capacity
    ensures SendAllAsWritten(buffer, msgs, capacity).buffer == Offer(buffer, msgs, capacity)
  {
    if |buffer| + |msgs| > capacity {
      SendAllAsWrittenBlocksAt(buffer, msgs, capacity);
    } else {
      SendAllAsWrittenDelivers(buffer, msgs, capacity);
    }
  }

  lemma {:induction false} SendAllAsWrittenDelivers(buffer: seq<Message>, msgs: seq<Message>, capacity: nat)
    requires |buffer| + |msgs| <= capacity
    ensures SendAllAsWritten(buffer, msgs, capacity) == Delivered(buffer + msgs)
    decreases |msgs|
  {
    if msgs != [] {
      SendAllAsWrittenDelivers(buffer + [msgs[0]], msgs[1..], capacity);
      assert buffer + [msgs[0]] + msgs[1..] == buffer + msgs;
    }
  }

  /** A bounded FIFO queue with a count of live senders. */
  class Channel {
    var buffer: seq<Message>
    const capacity: nat
    var senders: nat

    ghost predicate Valid()
      reads this
    {
      |buffer| <= capacity
    }

    /** `mpsc::channel(capacity)`, with the one sender it returns. */
    constructor (capacity: nat)
      requires capacity > 0
      ensures Valid() && buffer == [] && this.capacity == capacity && senders == 1
    {
      buffer := [];
      this.capacity := capacity;
      senders := 1;
    }

    /** `tx.clone()`. */
    method CloneSender()
      modifies this
      ensures buffer == old(buffer) && senders == old(senders) + 1
    {
      senders := senders + 1;
    }

    /** `drop(tx)`. */
    method DropSender()
      requires senders > 0
      modifies this
      ensures buffer == old(buffer) && senders == old(senders) - 1
    {
      senders := senders - 1;
    }

    /**
     * `try_send`: the message is queued when there is room and dropped
     * otherwise.
     */
    method TrySend(m: Message) returns (sent: bool)
      requires Valid()
      modifies this
      ensures Valid() && senders == old(senders)
      ensures sent <==> |old(buffer)| < capacity
      ensures buffer == Offer(old(buffer), [m], capacity)
    {
      sent := |buffer| < capacity;
      if sent {
        buffer := buffer + [m];
      }
    }

    /**
     * `try_recv`: the oldest message, `Empty` while a sender is alive, or
     * `Disconnected` once every sender is gone and the queue is drained.
     */
    method TryRecv() returns (r: Received)
      requires Valid()
      modifies this
      ensures Valid() && senders == old(senders)
      ensures old(buffer) != [] ==> r == Received(old(buffer)[0]) && buffer == old(buffer)[1..]
      ensures old(buffer) == [] ==> buffer == [] && r == (if senders == 0 then Disconnected else Empty)
    {
      if buffer != [] {
        r := Received(buffer[0]);
        buffer := buffer[1..];
      } else if senders == 0 {
        r := Disconnected;
      } else {
        r := Empty;
      }
    }
  }
}
