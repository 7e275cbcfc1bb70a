/**
  The body of the worker loop in `spawn_thread` (`src/queue.rs`), run
  sequentially. The thread, the atomic quit flag and the condition-variable
  wait are not modelled: the flag is a parameter and an empty queue ends a
  step with `Wait`, where the thread would block. The task's `run` is a
  parameter, since the task module is not part of this model.
*/
module Worker {
  import opened Wrappers
  import opened Tasks
  import opened Queues

  /**
    What one pass of the loop does: stop on the quit flag, find nothing to do,
    or run an entry, hand its result (if any) to the continuation and say
    whether the loop ends because the task was an Exit task.
  */
  datatype StepOutcome =
    | Quit
    | Wait
    | Ran(entry: Entry, invoked: Option<Value>, stop: bool)

  datatype StepResult = StepResult(outcome: StepOutcome, queue: seq<Entry>)

  /**
    One pass of the loop. The quit flag is read before the queue is touched;
    the kind is read before the task runs, so what `run` does to the task
    cannot change whether the loop ends; the continuation is invoked exactly
    when `run` produced a value, and with that value.
  */
  function Step(quit: bool, queue: seq<Entry>, run: Task -> RunResult): (r: StepResult)
    ensures quit ==> r == StepResult(Quit, queue)
    ensures !quit && queue == [] ==> r == StepResult(Wait, [])
    ensures !quit && queue != [] ==> r.outcome.Ran? && r.outcome.entry == queue[0] && r.queue == queue[1..]
    ensures r.outcome.Ran? ==>
      && (r.outcome.invoked.Some? <==> run(r.outcome.entry.task).output.Some?)
      && (r.outcome.invoked.Some? ==> r.outcome.invoked == run(r.outcome.entry.task).output)
      && (r.outcome.stop <==> r.outcome.entry.task.kind == Exit)
  {
    if quit then StepResult(Quit, queue)
    else if queue == [] then StepResult(Wait, queue)
    else
      var e := queue[0];
      var kind := e.task.kind;
      var result := run(e.task);
      StepResult(Ran(e, result.output, kind == Exit), queue[1..])
  }

  /** The loop body on a queue object, as `Step` specifies it. */
  method WorkerStep(quit: bool, q: Queue, run: Task -> RunResult) returns (o: StepOutcome)
    modifies q
    ensures StepResult(o, q.entries) == Step(quit, old(q.entries), run)
  {
    if quit {
      return Quit;
    }
    var popped := q.Pop();
    if popped.None? {
      return Wait;
    }
    var e := popped.value;
    var kind := e.task.kind;
    var result := run(e.task);
    // the continuation receives run's value, if there is one
    o := Ran(e, result.output, kind == Exit);
  }

  /** How many entries a worker takes before it stops: up to and including the first Exit task, or all of them. */
  function StopPoint(queue: seq<Entry>): (k: nat)
    ensures k <= |queue|
    ensures forall j | 0 <= j < k - 1 :: queue[j].task.kind == Normal
    ensures (0 < k && queue[k - 1].task.kind == Exit) || (k == |queue| && forall j | 0 <= j < k :: queue[j].task.kind == Normal)
    decreases |queue|
  {
    if queue == [] then 0
    else if queue[0].task.kind == Exit then 1
    else
      var k := StopPoint(queue[1..]);
      assert queue[0].task.kind == Normal;
      assert forall j | 0 < j <= k :: queue[j] == queue[1..][j - 1];
      assert 0 < k ==> queue[k] == queue[1..][k - 1];
      1 + k
  }

  /** Why a worker's loop ended. */
  datatype LoopEnd = QuitFlag | ExitTask | WouldWait

  /**
    The loop of `spawn_thread` with a quit flag nobody changes meanwhile and
    continuations that push nothing: it runs the queue's entries in FIFO order
    up to and including the first Exit task and leaves the rest untouched; with
    no Exit task it empties the queue and reaches the wait.
  */
  method RunWorker(quit: bool, q: Queue, run: Task -> RunResult) returns (ran: seq<StepOutcome>, end: LoopEnd)
    modifies q
    ensures quit ==> end == QuitFlag && ran == [] && q.entries == old(q.entries)
    ensures !quit ==>
      var k := StopPoint(old(q.entries));
      && |ran| == k
      && q.entries == old(q.entries)[k..]
      && (forall j | 0 <= j < k :: ran[j] == Ran(old(q.entries)[j], run(old(q.entries)[j].task).output, old(q.entries)[j].task.kind == Exit))
      && (end == ExitTask <==> k > 0 && old(q.entries)[k - 1].task.kind == Exit)
      && (end == WouldWait <==> forall j | 0 <= j < |old(q.entries)| :: old(q.entries)[j].task.kind == Normal)
  {
    ran := [];
    while true
      invariant quit ==> ran == [] && q.entries == old(q.entries)
      invariant !quit ==> |ran| <= StopPoint(old(q.entries)) && q.entries == old(q.entries)[|ran|..]
      invariant forall j | 0 <= j < |ran| :: ran[j] == Ran(old(q.entries)[j], run(old(q.entries)[j].task).output, old(q.entries)[j].task.kind == Exit)
      invariant forall j | 0 <= j < |ran| :: old(q.entries)[j].task.kind == Normal
      decreases |q.entries|
    {
      var o := WorkerStep(quit, q, run);
      match o
      case Quit =>
        return ran, QuitFlag;
      case Wait =>
        return ran, WouldWait;
      case Ran(_, _, stop) =>
        if stop {
          return ran + [o], ExitTask;
        }
        ran := ran + [o];
    }
  }
}
