# Scheduling core of a dataflow task orchestrator, in Dafny

This project models the scheduling core of a small Rust task-orchestration
library: the ready queue that worker threads take tasks from, the table of
pending tasks that still wait for input slots, the delivery rule that fills a
slot and moves a task that became full onto a queue, and one pass of a
worker's loop. It also models the routine that shortens a formatted thread id
for log lines. Everything is modelled sequentially: each locked critical
section of the Rust code is one method call.

Modules:

- `Tasks` (tasks.dfy): the task interface the core uses. The task module
  (`src/task.rs`) is not part of this model, so its interface is given
  concretely: a task has an id, a kind (Normal or Exit), maybe a store of
  typed input slots, and is run through a parameter. The store's `set` succeeds
  exactly when the slot exists, is unset and has the value's type tag. A failed
  `set` changes nothing. `is_full` holds when every slot holds a value.
- `Queues` (queue.dfy): the class `Queue` with its `seq` of entries, and the
  FIFO law for any run of pushes and pops.
- `PendingTable` (c1map.dfy): the class `C1Map` with its `map` from task id to
  entry, the specification functions `Update` and `Deliver`, the method
  `WhenCiComed`, and the lemmas about exclusivity and fan-in.
- `Worker` (worker.dfy): one pass of the loop in `spawn_thread` (`Step`,
  `WorkerStep`), and the loop itself (`RunWorker`) up to the point where the
  thread would block.
- `Utf8` (utf8.dfy): well-formed UTF-8 after section 4 of RFC 3629, the test
  `str::from_utf8` makes.
- `ThreadIdLog` (log.dfy): `concise_threadid` and its caller.

The condition variable's `notify_one` in `add_boxtask` is the `wake` result of
`Queue.AddBoxTask`. The counter behind `taskid_next` is the argument `next` of
`C1Map.Insert`. A task's `run` is a parameter `run: Task -> RunResult`. It
returns the output and the task as it is after running. A continuation is an
opaque token; the model records whether it is invoked, and with which value.

## Model

| member | source | states |
|---|---|---|
| `Queues.Queue.constructor` | src/queue.rs:19-22 | a new queue is empty |
| `Queues.Queue.AddBoxTask` | src/queue.rs:24-31 | the entry is appended at the back and every earlier entry stays in place; a wake-up is raised exactly when the queue was empty before the push |
| `Queues.Queue.Pop` | src/queue.rs:33-40 | on an empty queue, returns None and leaves it empty; otherwise removes and returns the front entry and keeps the rest in order |
| `Queues.Queue.Clear` | src/queue.rs:42-49 | the queue is empty afterwards |
| `Queues.Queue.Len` | src/queue.rs:51-58 | returns the number of entries waiting |
| `Queues.Apply` | src/queue.rs:24-40 | one call, push or pop, described by its effect: a push grows the queue by exactly that entry at the back; a pop hands out the front entry and leaves the remainder |
| `Queues.ReplayIsFifo` | src/queue.rs:24-40 | for any run of pushes and pops, the entries handed out followed by those left are the initial entries followed by the pushed ones, in order: nothing is lost, duplicated or reordered |
| `Queues.PoppedInPushOrder` | src/queue.rs:27 | the entries handed out are a prefix of the initial contents followed by the pushed entries, so an entry pushed before another comes out before it |
| `Tasks.Set` | src/queue.rs:128 | a slot write succeeds exactly when the slot exists, is unset and matches the value's type; it then sets only that slot, and on failure the store is unchanged |
| `Tasks.FullIffNothingUnset` | src/queue.rs:132 | a store is full exactly when no slot is left unset |
| `PendingTable.C1Map.constructor` | src/queue.rs:98-102 | a new table is empty |
| `PendingTable.C1Map.Insert` | src/queue.rs:103-112 | always answers `Some(id)`, with the caller's id if given, else the counter's; the table then holds the new entry under that id, replacing any earlier one, and no other key changes; a counter id ahead of every key is fresh |
| `PendingTable.C1Map.Remove` | src/queue.rs:113-116 | returns the entry under the id, or None if there is none, and the id is no longer in the table |
| `PendingTable.Update` | src/queue.rs:118-133 | returns None with the table unchanged when the id is absent, when the task has no slot store, or when the slot write fails; otherwise only that slot of that task changes and the answer is whether the task is now full; the keys never change |
| `PendingTable.C1Map.UpdateCi` | src/queue.rs:118-133 | the answer and the new table are those `Update` gives for the old table |
| `PendingTable.Deliver` | src/queue.rs:136-147 | the destination moves exactly when the update reported full; it then leaves the table and becomes the last queue entry, full and with its id; otherwise the queue is unchanged and the set of pending ids is the same |
| `PendingTable.WhenCiComed` | src/queue.rs:136-147 | the new table, the new queue and the answer are those `Deliver` gives; a wake-up is raised exactly when the task moved onto an empty queue |
| `PendingTable.DeliverKeepsExclusive` | src/queue.rs:136-147 | if every pending task is under its own id, no queued task is pending and no id is queued twice, a delivery keeps all three; a task that moved is queued and no longer pending, one that did not stays pending |
| `PendingTable.FanInEnqueuesOnce` | src/queue.rs:136-147 | when deliveries fill exactly the unset slots of a pending task, one slot each, the task is enqueued exactly once, by the last delivery, and ends up full at the back of the queue and off the table |
| `PendingTable.SpscAddFanIn` | examples/spsc.rs:54-59 | a two-argument task fed two values by one fan-out stays pending after the first and is queued, with both values, after the second, waking a worker |
| `Worker.Step` | src/queue.rs:68-84 | the quit flag stops a pass before the queue is touched; an empty queue means waiting; otherwise the front entry runs, its continuation is invoked exactly when run produced a value, and the loop stops exactly when the kind read before running is Exit |
| `Worker.WorkerStep` | src/queue.rs:68-87 | the outcome and the new queue contents are those `Step` gives for the old contents |
| `Worker.StopPoint` | src/queue.rs:81-84 | the number of entries a worker takes is either up to and including the first Exit task, or all of them when all are Normal |
| `Worker.RunWorker` | src/queue.rs:67-88 | with the quit flag set nothing is dequeued; otherwise the worker runs the entries in FIFO order up to and including the first Exit task, leaves the rest in the queue, and reaches the wait exactly when no entry was an Exit task; each pass invokes the continuation exactly when run produced a value, with that value, and stops exactly when the kind read before running is Exit |
| `Utf8.LeadWidth` | src/log.rs:333 | the width of the well-formed character a byte string starts with is at most 4 and at most the string's length, and is 1 exactly for an ASCII byte |
| `Utf8.AsciiIsValid` | src/log.rs:328 | ASCII text is valid UTF-8 |
| `Utf8.SuffixAfterAsciiIsValid` | src/log.rs:330 | what follows an ASCII prefix of valid UTF-8 is valid UTF-8 |
| `ThreadIdLog.ConciseThreadId` | src/log.rs:321-336 | for `1 <= len <= 32`: a recognised text is at least 10 bytes long, its head is `Th`, its tail is bytes 6 to `len`, and `Th`, `read` and the tail give the text back; otherwise the tail is empty and the head is the text if it is valid UTF-8, else the placeholder |
| `ThreadIdLog.NoCloseInHead` | src/log.rs:323-325 | a buffer that starts with `ThreadId(` has no `)` among its first 9 bytes |
| `ThreadIdLog.RecognisedIffTextHasShape` | src/log.rs:324-325 | testing the prefix of the whole buffer gives the same answer as testing the prefix of the text |
| `ThreadIdLog.HalvesAreUtf8` | src/log.rs:327-334 | whenever the text is valid UTF-8, both halves are valid UTF-8, including the tail built without a check |
| `ThreadIdLog.FormatConciseCurrentThreadId` | src/log.rs:339-342 | the split of the formatted text written over the start of the buffer: the same as over a zeroed buffer, so earlier buffer contents never matter; a split text reassembles with `read` and an unsplit valid text is kept whole |
| `ThreadIdLog.FormattedThreadIdSplits` | src/log.rs:339-349 | for the text `ThreadId(N)` a thread id formats to, whatever the buffer held before, the head is `Th` and the tail `Id(N)`, both non-empty and valid UTF-8 |

## Left out

- Threads, locks and atomics: `Arc`, `Mutex`, `Condvar::wait` and `notify_one`, `AtomicBool`, `thread::spawn` and `Jhandle`. Each critical section is one sequential call, and the blocking wait is the `Wait` outcome. `update_ci` and `remove` take the table lock separately, so no claim is made that filling and removing a task happen in one critical section under concurrency.
- `PendingTable.WhenCiComed`: the branch where `remove` finds nothing is kept but cannot happen sequentially. It needs another thread to remove the task between the two critical sections.
- `src/task.rs` is not part of this model. `Task`, `Kind`, `Anchor`, the slot store's `set` and `is_full`, and `run` are given the interface described above. `taskid_next` is a counter argument; nothing is claimed about it beyond the freshness of its id.
- `Tasks.Set`: the slot store's failure rules (out of range, already set, wrong type; failure leaves the store unchanged) follow the library's documented contract for the store. They are not taken from its code.
- Type erasure: `Box<dyn Any>` values are a type tag plus an opaque payload, and `Debug` formatting of values is not modelled. The bodies of the post-run continuations are not modelled either, so `Worker.RunWorker` assumes continuations push nothing back onto the queue.
- `Worker.Step` and `Worker.RunWorker`: tasks and continuations are assumed not to panic, and the queue's mutex not to be poisoned. In the source, a panic in `run` or in the continuation, or a failed `lock().unwrap()`, ends the worker thread; the model has no such fourth way for the loop to end.
- `Worker.RunWorker`: the quit flag is a constant for the whole run, because nothing else runs to set it.
- `when_nil_comed`, which is empty.
- The logging macros (`log!`, `log_str!`, `error!` to `trace!`, `log_print!`), `sleep_millis!` and `uptime`. They print or read the clock.
- `format_threadid`, which writes the `Debug` text of the current thread's id through a `Cursor`. Its output is the `text` argument of `ThreadIdLog.FormatConciseCurrentThreadId`.
- `ThreadIdLog.ConciseThreadId`: strings are byte sequences. When the text is not valid UTF-8, the recognised case's tail is still returned as bytes; in Rust, `from_utf8_unchecked` would then build an invalid `&str`. `ThreadIdLog.HalvesAreUtf8` shows this cannot happen when the text is valid UTF-8, which the thread-id formatter's ASCII output always is.
- Integer widths: ids, slot indices and `len` are unbounded naturals; `usize` overflow of the id counter is not modelled.
- The pool, submitters and the example programs, apart from the fan-in scenario of `examples/spsc.rs`.
