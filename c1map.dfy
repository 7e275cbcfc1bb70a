/**
  The pending-task table (`C1map` in `src/queue.rs`) and the delivery rule
  `when_ci_comed`. The table maps a task id to the task and its continuation
  while the task still waits for input slots. The mutex is not modelled: each
  method is one critical section, run sequentially.
*/
module PendingTable {
  import opened Wrappers
  import opened Tasks
  import opened Queues

  /** The table after `update_ci` and its answer: `None` on failure, else whether the task is now full. */
  datatype Updated = Updated(full: Option<bool>, table: map<nat, Entry>)

  /**
    `update_ci`: write slot `to.i` of the pending task `to.id`. It fails, with
    the table unchanged, when the id is not pending, when the task has no slot
    store, or when the store refuses the write (slot out of range, already set
    or of another type); otherwise only that slot changes and the answer is
    whether the task is now full. The entry stays in the table in every case.
  */
  function Update(table: map<nat, Entry>, to: Anchor, v: Value): (r: Updated)
    ensures r.table.Keys == table.Keys
    ensures forall k | k in table && k != to.id :: r.table[k] == table[k]
    ensures to.id !in table ==> r.full == None && r.table == table
    ensures to.id in table && table[to.id].task.params.None? ==> r.full == None && r.table == table
    ensures r.full.Some? <==>
      to.id in table && table[to.id].task.params.Some? && Settable(table[to.id].task.params.value, to.i, v)
    ensures r.full.None? ==> r.table == table
    ensures r.full.Some? ==>
      var e, e' := table[to.id], r.table[to.id];
      && e'.postdo == e.postdo
      && e'.task == e.task.(params := e'.task.params)
      && e'.task.params == Some(Set(e.task.params.value, to.i, v).params)
      && (r.full.value <==> IsFull(e'.task.params.value))
  {
    if to.id !in table then Updated(None, table)
    else
      var e := table[to.id];
      if e.task.params.None? then Updated(None, table)
      else
        var s := Set(e.task.params.value, to.i, v);
        if !s.ok then Updated(None, table)
        else Updated(Some(IsFull(s.params)), table[to.id := Entry(e.task.(params := Some(s.params)), e.postdo)])
  }

  /** The table and the queue after a delivery, and whether the destination moved. */
  datatype Delivered = Delivered(table: map<nat, Entry>, queue: seq<Entry>, moved: bool)

  /**
    `when_ci_comed`: deliver `v` to `to`. When the delivery fills the task, the
    task (with the new value in place) leaves the table and becomes the last
    entry of the queue; otherwise nothing moves and the queue is unchanged.
  */
  function Deliver(table: map<nat, Entry>, queue: seq<Entry>, to: Anchor, v: Value): (r: Delivered)
    ensures r.moved <==> Update(table, to, v).full == Some(true)
    ensures r.moved ==>
      && to.id in table && to.id !in r.table
      && r.table.Keys == table.Keys - {to.id}
      && |r.queue| == |queue| + 1 && r.queue[..|queue|] == queue
      && r.queue[|queue|] == Update(table, to, v).table[to.id]
      && r.queue[|queue|].task.id == table[to.id].task.id
      && r.queue[|queue|].task.params.Some? && IsFull(r.queue[|queue|].task.params.value)
    ensures !r.moved ==> r.queue == queue && r.table == Update(table, to, v).table && r.table.Keys == table.Keys
    ensures forall k | k in r.table && k != to.id :: r.table[k] == table[k]
  {
    var u := Update(table, to, v);
    if u.full == Some(true) then Delivered(u.table - {to.id}, queue + [u.table[to.id]], true)
    else Delivered(u.table, queue, false)
  }

  class C1Map {
    /** Pending tasks by id. */
    var table: map<nat, Entry>

    /** `C1map::new`: an empty table. */
    constructor ()
      ensures table == map[]
    {
      table := map[];
    }

    /**
      `insert`: store the task under the caller's id or, when none is given,
      under `next`, the id `taskid_next` hands out; an entry already under that
      id is replaced. The answer is always `Some(id)`. An id from the counter
      is fresh as long as the counter is ahead of every id in the table.
    */
    method Insert(task: Task, postdo: PostDo, taskid: Option<nat>, next: nat) returns (r: Option<nat>)
      modifies this
      ensures r == Some(if taskid.Some? then taskid.value else next)
      ensures table == old(table)[r.value := Entry(task, postdo)]
      ensures taskid.None? && (forall k | k in old(table) :: k < next) ==> r.value !in old(table)
    {
      var id := if taskid.Some? then taskid.value else next;
      table := table[id := Entry(task, postdo)];
      r := Some(id);
    }

    /** `remove`: take the entry out of the table and hand it back, if there is one. */
    method Remove(id: nat) returns (r: Option<Entry>)
      modifies this
      ensures id in old(table) ==> r == Some(old(table)[id])
      ensures id !in old(table) ==> r == None
      ensures table == old(table) - {id}
    {
      if id in table {
        r := Some(table[id]);
        table := table - {id};
      } else {
        r := None;
      }
    }

    /** `update_ci`, as `Update` specifies it. */
    method UpdateCi(to: Anchor, v: Value) returns (r: Option<bool>)
      modifies this
      ensures Updated(r, table) == Update(old(table), to, v)
    {
      if to.id !in table {
        // the destination is not pending
        return None;
      }
      var e := table[to.id];
      if e.task.params.None? {
        // the task has no slot store
        return None;
      }
      var s := Set(e.task.params.value, to.i, v);
      if !s.ok {
        // the store refused the value
        return None;
      }
      table := table[to.id := Entry(e.task.(params := Some(s.params)), e.postdo)];
      r := Some(IsFull(s.params));
    }
  }

  /**
    `when_ci_comed`, as `Deliver` specifies it: update the slot, and when that
    made the task full, remove it from the table and push it onto the queue.
    `wake` is the queue's wake-up signal raised by that push.
  */
  method WhenCiComed(to: Anchor, v: Value, c1map: C1Map, q: Queue) returns (moved: bool, wake: bool)
    modifies c1map, q
    ensures Delivered(c1map.table, q.entries, moved) == Deliver(old(c1map.table), old(q.entries), to, v)
    ensures wake <==> moved && old(q.entries) == []
  {
    wake := false;
    var full := c1map.UpdateCi(to, v);
    if full != Some(true) {
      return false, false;
    }
    var e := c1map.Remove(to.id);
    if e.None? {
      // reachable only when another thread removed the task between the two
      // critical sections; a sequential run never takes this branch
      return false, false;
    }
    wake := q.AddBoxTask(e.value.task, e.value.postdo);
    moved := true;
  }

  /** Every pending task sits under its own id. */
  predicate KeysMatch(table: map<nat, Entry>)
  {
    forall k | k in table :: table[k].task.id == k
  }

  /** No task id is queued twice. */
  predicate NoDupIds(queue: seq<Entry>)
  {
    forall i, j | 0 <= i < j < |queue| :: queue[i].task.id != queue[j].task.id
  }

  /** No task is both pending and queued. */
  predicate Exclusive(table: map<nat, Entry>, queue: seq<Entry>)
  {
    forall j | 0 <= j < |queue| :: queue[j].task.id !in table
  }

  /**
    A delivery keeps every task id in at most one of the table and the queue,
    and at most once in the queue;
    a delivery that moves its destination leaves that id in the queue and no
    longer in the table.
  */
  lemma DeliverKeepsExclusive(table: map<nat, Entry>, queue: seq<Entry>, to: Anchor, v: Value)
    requires KeysMatch(table) && Exclusive(table, queue) && NoDupIds(queue)
    ensures var r := Deliver(table, queue, to, v);
      && KeysMatch(r.table) && Exclusive(r.table, r.queue) && NoDupIds(r.queue)
      && (r.moved ==> to.id !in r.table && r.queue[|r.queue| - 1].task.id == to.id)
      && (!r.moved ==> (to.id in r.table <==> to.id in table))
  {
  }

  /** One message of a fan-in: a value for one slot of one task. */
  datatype Message = Message(to: Anchor, v: Value)

  /** The table and queue after a run of deliveries, and which of them moved their destination. */
  datatype Fanned = Fanned(table: map<nat, Entry>, queue: seq<Entry>, moves: seq<bool>)

  /** A run of `Deliver` calls, one per message in order; used to state fan-in. */
  function DeliverAll(table: map<nat, Entry>, queue: seq<Entry>, ms: seq<Message>): (r: Fanned)
    ensures |r.moves| == |ms|
    decreases |ms|
  {
    if ms == [] then Fanned(table, queue, [])
    else
      var d := Deliver(table, queue, ms[0].to, ms[0].v);
      var rest := DeliverAll(d.table, d.queue, ms[1..]);
      Fanned(rest.table, rest.queue, [d.moved] + rest.moves)
  }

  /** The slot indices a run of messages targets. */
  function Targets(ms: seq<Message>): set<nat>
  {
    set j | 0 <= j < |ms| :: ms[j].to.i
  }

  /**
    The messages fill exactly the unset slots of pending task `id`: each goes to
    `id`, to a distinct slot, with a value of that slot's type, and together they
    cover every unset slot.
  */
  predicate FillsExactly(table: map<nat, Entry>, id: nat, ms: seq<Message>)
  {
    && id in table && table[id].task.params.Some?
    && var p := table[id].task.params.value;
    && WellShaped(p)
    && (forall j | 0 <= j < |ms| :: ms[j].to.id == id && Settable(p, ms[j].to.i, ms[j].v))
    && (forall j, j' | 0 <= j < j' < |ms| :: ms[j].to.i != ms[j'].to.i)
    && Targets(ms) == Unset(p)
  }

  /**
    Fan-in: when a run of deliveries fills the last unset slots of a pending
    task, the task is enqueued exactly once, by the last delivery and by no
    other; it ends up off the table and at the back of the queue, full.
  */
  lemma {:induction false} FanInEnqueuesOnce(table: map<nat, Entry>, queue: seq<Entry>, id: nat, ms: seq<Message>)
    requires ms != []
    requires FillsExactly(table, id, ms)
    ensures var r := DeliverAll(table, queue, ms);
      && (forall j | 0 <= j < |ms| :: r.moves[j] <==> j == |ms| - 1)
      && id !in r.table
      && |r.queue| == |queue| + 1 && r.queue[..|queue|] == queue
      && r.queue[|queue|].task.id == table[id].task.id
      && r.queue[|queue|].task.params.Some? && IsFull(r.queue[|queue|].task.params.value)
    decreases |ms|
  {
    var p := table[id].task.params.value;
    var m := ms[0];
    var d := Deliver(table, queue, m.to, m.v);
    var u := Update(table, m.to, m.v);
    var p' := u.table[id].task.params.value;
    assert Unset(p') == Unset(p) - {m.to.i} by {
      assert forall i :: i in Unset(p') <==> i in Unset(p) && i != m.to.i;
    }
    assert Targets(ms[1..]) == Targets(ms) - {m.to.i} by {
      forall i ensures i in Targets(ms[1..]) <==> i in Targets(ms) && i != m.to.i {
        if i in Targets(ms) && i != m.to.i {
          var j :| 0 <= j < |ms| && ms[j].to.i == i;
          assert ms[1..][j - 1].to.i == i;
        }
        if i in Targets(ms[1..]) {
          var j :| 0 <= j < |ms[1..]| && ms[1..][j].to.i == i;
          assert ms[j + 1].to.i == i;
        }
      }
    }
    FullIffNothingUnset(p');
    if |ms| == 1 {
      assert Targets(ms[1..]) == {};
      assert d.moved;
    } else {
      assert ms[1].to.i in Targets(ms[1..]);
      assert !d.moved;
      assert d.table[id].task.params == Some(p');
      assert FillsExactly(d.table, id, ms[1..]) by {
        forall j | 0 <= j < |ms[1..]| ensures Settable(p', ms[1..][j].to.i, ms[1..][j].v) {
          assert ms[1..][j] == ms[j + 1];
        }
      }
      FanInEnqueuesOnce(d.table, d.queue, id, ms[1..]);
    }
  }

  /**
    The fan-in of `examples/spsc.rs`: a pending two-argument `add` task
    receives its two `i32` arguments from one fan-out; the first delivery
    leaves it pending, the second moves it onto the empty queue and wakes a
    worker.
  */
  method SpscAddFanIn() returns (first: bool, second: bool, wake: bool, queued: seq<Entry>)
    ensures !first && second && wake
    ensures |queued| == 1 && queued[0].task.id == 3 && queued[0].task.params.Some?
    ensures queued[0].task.params.value.slots == [Some(Value(I32, 1)), Some(Value(I32, 2))]
  {
    var c1map := new C1Map();
    var q := new Queue();
    var add := Task(3, Normal, Some(Params([I32, I32], [None, None])));
    var _ := c1map.Insert(add, PostDo(0), Some(3), 4);
    first, wake := WhenCiComed(Anchor(3, 0), Value(I32, 1), c1map, q);
    second, wake := WhenCiComed(Anchor(3, 1), Value(I32, 2), c1map, q);
    queued := q.entries;
  }

  /** The type tag the scenario gives to `i32`. */
  const I32: nat := 0
}
