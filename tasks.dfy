/**
  The task interface the scheduling core uses. The task module itself
  (`src/task.rs`) is not part of this model; only the shape the queue and the
  pending-task table rely on is given here: a task has an id, a kind fixed at
  construction, possibly a store of input slots, and it can be run.
*/
module Tasks {
  import opened Wrappers

  /** Normal tasks do not affect the worker; an Exit task ends its worker's loop. */
  datatype Kind = Normal | Exit

  /** A type-erased value: the tag of its dynamic type and an opaque payload. */
  datatype Value = Value(ty: nat, payload: int)

  /** The input slots of a task: the declared type of each slot and what it holds so far. */
  datatype Params = Params(types: seq<nat>, slots: seq<Option<Value>>)

  /** A store declares a type for each of its slots. */
  predicate WellShaped(p: Params)
  {
    |p.types| == |p.slots|
  }

  /** Writing `v` into slot `i` succeeds exactly when the slot exists, is still unset and its declared type is `v`'s. */
  predicate Settable(p: Params, i: nat, v: Value)
  {
    i < |p.slots| && i < |p.types| && p.slots[i].None? && p.types[i] == v.ty
  }

  datatype SetResult = SetResult(ok: bool, params: Params)

  /** The store's `set(i, v)`: a slot is written once; a failed write changes nothing. */
  function Set(p: Params, i: nat, v: Value): (r: SetResult)
    ensures r.ok <==> Settable(p, i, v)
    ensures !r.ok ==> r.params == p
    ensures WellShaped(p) ==> WellShaped(r.params)
    ensures r.ok ==> r.params.types == p.types && |r.params.slots| == |p.slots|
    ensures r.ok ==> r.params.slots[i] == Some(v)
    ensures forall j | 0 <= j < |p.slots| && j != i :: r.params.slots[j] == p.slots[j]
  {
    if Settable(p, i, v) then SetResult(true, p.(slots := p.slots[i := Some(v)])) else SetResult(false, p)
  }

  /** The store's `is_full()`: every slot holds a value. */
  predicate IsFull(p: Params)
  {
    forall i | 0 <= i < |p.slots| :: p.slots[i].Some?
  }

  /** The indices of the slots still waiting for a value. */
  function Unset(p: Params): set<nat>
  {
    set i: nat | i < |p.slots| && p.slots[i].None?
  }

  lemma FullIffNothingUnset(p: Params)
    ensures IsFull(p) <==> Unset(p) == {}
  {
    if !IsFull(p) {
      var i :| 0 <= i < |p.slots| && p.slots[i].None?;
      assert i in Unset(p);
    }
  }

  datatype Task = Task(id: nat, kind: Kind, params: Option<Params>)

  /** What `run` yields: the optional result and the task as it is after running. */
  datatype RunResult = RunResult(output: Option<Value>, after: Task)

  /** The post-run continuation, kept as an opaque token: the model records only whether it is invoked and with what. */
  datatype PostDo = PostDo(token: nat)

  /** What the queue and the pending-task table hold: a task paired with its continuation. */
  datatype Entry = Entry(task: Task, postdo: PostDo)

  /** A routing address: the destination task id and the slot index there. */
  datatype Anchor = Anchor(id: nat, i: nat)
}
