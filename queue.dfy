/**
  The ready queue of `src/queue.rs`: a FIFO of (task, continuation) entries
  shared by the workers of one scheduling domain. The mutex is not modelled;
  the condition variable's `notify_one` becomes the `wake` result of
  `AddBoxTask`.
*/
module Queues {
  import opened Wrappers
  import opened Tasks

  class Queue {
    /** The entries in the deque, front first. */
    var entries: seq<Entry>

    /** `Queue::new`: an empty queue. */
    constructor ()
      ensures entries == []
    {
      entries := [];
    }

    /** `add_boxtask`: push at the back; wake a worker only when the queue was empty. */
    method AddBoxTask(task: Task, postdo: PostDo) returns (wake: bool)
      modifies this
      ensures entries == old(entries) + [Entry(task, postdo)]
      ensures wake <==> old(entries) == []
      ensures Apply(old(entries), PushOp(Entry(task, postdo))) == Applied(entries, None)
    {
      var isEmpty := entries == [];
      entries := entries + [Entry(task, postdo)];
      wake := isEmpty;
    }

    /** `pop`: take the front entry, if any. */
    method Pop() returns (r: Option<Entry>)
      modifies this
      ensures old(entries) == [] ==> r == None && entries == []
      ensures old(entries) != [] ==> r == Some(old(entries)[0]) && entries == old(entries)[1..]
      ensures Apply(old(entries), PopOp) == Applied(entries, r)
    {
      if entries == [] {
        r := None;
      } else {
        r := Some(entries[0]);
        entries := entries[1..];
      }
    }

    /** `clear`: drop every entry. */
    method Clear()
      modifies this
      ensures entries == []
    {
      entries := [];
    }

    /** `len`: the number of entries waiting. */
    method Len() returns (n: nat)
      ensures n == |entries|
    {
      n := |entries|;
    }
  }

  /** A call on a queue, as far as its contents are concerned. */
  datatype Op = PushOp(e: Entry) | PopOp

  /** The contents after one call and the entry it handed out. */
  datatype Applied = Applied(queue: seq<Entry>, popped: Option<Entry>)

  /** One call, as `AddBoxTask` and `Pop` are specified above. */
  function Apply(q: seq<Entry>, op: Op): (r: Applied)
    ensures op.PushOp? ==> r.popped == None && |r.queue| == |q| + 1 && r.queue[..|q|] == q && r.queue[|q|] == op.e
    ensures op.PopOp? && q == [] ==> r == Applied([], None)
    ensures op.PopOp? && q != [] ==> r.popped == Some(q[0]) && [q[0]] + r.queue == q
  {
    match op
    case PushOp(e) => Applied(q + [e], None)
    case PopOp => if q == [] then Applied([], None) else Applied(q[1..], Some(q[0]))
  }

  /** What a run of calls hands out, in order, and what is left in the queue. */
  datatype Trace = Trace(popped: seq<Entry>, rest: seq<Entry>)

  function Replay(q: seq<Entry>, ops: seq<Op>): Trace
    decreases |ops|
  {
    if ops == [] then Trace([], q)
    else
      var a := Apply(q, ops[0]);
      var t := Replay(a.queue, ops[1..]);
      Trace((if a.popped.Some? then [a.popped.value] else []) + t.popped, t.rest)
  }

  /** The entries a run of calls pushes, in push order. */
  function Pushed(ops: seq<Op>): seq<Entry>
    decreases |ops|
  {
    if ops == [] then []
    else (if ops[0].PushOp? then [ops[0].e] else []) + Pushed(ops[1..])
  }

  /**
    FIFO: whatever mix of pushes and pops is applied, the entries handed out
    followed by those left behind are exactly the initial contents followed by
    the pushed entries, in order. Nothing is lost, duplicated or reordered.
  */
  lemma {:induction false} ReplayIsFifo(q: seq<Entry>, ops: seq<Op>)
    ensures Replay(q, ops).popped + Replay(q, ops).rest == q + Pushed(ops)
    decreases |ops|
  {
    if ops != [] {
      var a := Apply(q, ops[0]);
      ReplayIsFifo(a.queue, ops[1..]);
      match ops[0]
      case PushOp(e) =>
        assert a.queue == q + [e];
        assert Pushed(ops) == [e] + Pushed(ops[1..]);
        assert q + [e] + Pushed(ops[1..]) == q + ([e] + Pushed(ops[1..]));
      case PopOp =>
        assert Pushed(ops) == Pushed(ops[1..]);
        if q != [] {
          assert q == [q[0]] + a.queue;
          assert [q[0]] + a.queue + Pushed(ops) == [q[0]] + (a.queue + Pushed(ops));
        }
    }
  }

  /**
    Consequence of FIFO: the entries handed out are a prefix of the initial
    contents followed by the pushed entries, so the i-th entry handed out is
    the i-th of that stream and an entry pushed before another is handed out
    before it.
  */
  lemma {:induction false} PoppedInPushOrder(q: seq<Entry>, ops: seq<Op>)
    ensures |Replay(q, ops).popped| <= |q + Pushed(ops)|
    ensures Replay(q, ops).popped == (q + Pushed(ops))[..|Replay(q, ops).popped|]
  {
    ReplayIsFifo(q, ops);
    var t := Replay(q, ops);
    assert t.popped == (t.popped + t.rest)[..|t.popped|];
  }
}
