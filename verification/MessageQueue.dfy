/** simple-capture/queue.c: a message queue of ring indices with its own entry counter.
    All messages have one priority, so the kernel queue is first in, first out. */
module MessageQueue {

  datatype Queue = Queue(count: int, msgs: seq<int>)

  const EMPTY := Queue(0, [])

  /** The counter refuses first; past it, a full kernel queue times the send out with the
      counter already raised. */
  function Enqueue(q: Queue, capacity: nat, v: int): (Queue, bool) {
    if q.count == capacity then (q, false)
    else if |q.msgs| < capacity then (Queue(q.count + 1, q.msgs + [v]), true)
    else (q.(count := q.count + 1), false)
  }

  /** A receiver lowers the counter before it blocks in the kernel ... */
  function Enter(q: Queue): Queue {
    q.(count := q.count - 1)
  }

  /** ... and takes the oldest message once there is one. */
  function Receive(q: Queue): (Queue, int)
    requires |q.msgs| >= 1
  {
    (q.(msgs := q.msgs[1..]), q.msgs[0])
  }

  class QueueContainer {
    const numElems: nat
    var count: int
    var msgs: seq<int>

    function Value(): Queue
      reads this
    {
      Queue(count, msgs)
    }

    constructor (numElems: nat)
      ensures this.numElems == numElems && Value() == EMPTY
    {
      this.numElems := numElems;
      count, msgs := 0, [];
    }

    method EnqueueP(v: int) returns (ret: int)
      modifies this
      ensures (Value(), ret == 0) == Enqueue(old(Value()), numElems, v) && (ret == 0 || ret == -1)
    {
      if count == numElems {
        return -1;
      }
      count := count + 1;
      if |msgs| < numElems {
        msgs := msgs + [v];
        return 0;
      }
      return -1;
    }

    method DequeueEnter()
      modifies this
      ensures Value() == Enter(old(Value()))
    {
      count := count - 1;
    }

    method DequeueReceive() returns (v: int)
      requires |msgs| >= 1
      modifies this
      ensures (Value(), v) == Receive(old(Value()))
    {
      v := msgs[0];
      msgs := msgs[1..];
    }
  }

  // ----- Any sequence of calls

  datatype Op = Send(v: int) | StartReceive | FinishReceive

  /** A queue with what its callers saw: messages accepted and received, receivers inside,
      and sends that expired on a full kernel queue. */
  datatype Record = Record(q: Queue, accepted: seq<int>, received: seq<int>, inside: int, expired: int)

  const NEW := Record(EMPTY, [], [], 0, 0)

  function Perform(r: Record, capacity: nat, op: Op): Record {
    match op
    case Send(v) =>
      var (q, ok) := Enqueue(r.q, capacity, v);
      r.(q := q, accepted := if ok then r.accepted + [v] else r.accepted,
         expired := if !ok && q != r.q then r.expired + 1 else r.expired)
    case StartReceive => r.(q := Enter(r.q), inside := r.inside + 1)
    case FinishReceive =>
      if r.inside == 0 || |r.q.msgs| == 0 then r   // nobody to deliver to, or nothing to deliver
      else
        var (q, v) := Receive(r.q);
        r.(q := q, received := r.received + [v], inside := r.inside - 1)
  }

  function PerformAll(ops: seq<Op>, capacity: nat): Record {
    if |ops| == 0 then NEW else Perform(PerformAll(ops[..|ops| - 1], capacity), capacity, ops[|ops| - 1])
  }

  /** First in, first out, nothing lost or repeated; and what the counter counts. */
  ghost predicate Kept(r: Record, capacity: nat) {
    && r.accepted == r.received + r.q.msgs
    && |r.q.msgs| <= capacity
    && r.inside >= 0 && r.expired >= 0
    && r.q.count == |r.q.msgs| - r.inside + r.expired <= capacity
  }

  /** After any sequence of calls, in any interleaving of the two halves of a receive. */
  lemma {:induction false} QueueKeeps(ops: seq<Op>, capacity: nat)
    ensures Kept(PerformAll(ops, capacity), capacity)
  {
    if |ops| == 0 {
    } else {
      QueueKeeps(ops[..|ops| - 1], capacity);
      KeptStep(PerformAll(ops[..|ops| - 1], capacity), capacity, ops[|ops| - 1]);
    }
  }

  lemma KeptStep(r: Record, capacity: nat, op: Op)
    requires Kept(r, capacity)
    ensures Kept(Perform(r, capacity, op), capacity)
  {
  }

  /** A send is accepted exactly when the queue has room and the counter, which every expired
      send leaves one too high and every receiver inside one too low, does not say full. */
  lemma AcceptedExactly(ops: seq<Op>, capacity: nat, v: int)
    ensures var r := PerformAll(ops, capacity);
            var next := PerformAll(ops + [Send(v)], capacity);
            && (next.accepted == r.accepted + [v] <==>
                  |r.q.msgs| < capacity && |r.q.msgs| - r.inside + r.expired != capacity)
            && (r.inside == 0 && r.expired == 0 ==>
                  (next.accepted == r.accepted + [v] <==> |r.q.msgs| < capacity))
            && (next.expired == r.expired + 1 <==>
                  |r.q.msgs| == capacity && r.inside != r.expired)
  {
    QueueKeeps(ops, capacity);
    assert (ops + [Send(v)])[..|ops|] == ops;
  }
}
