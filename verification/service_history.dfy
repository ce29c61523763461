/** Sequences of service calls on one store, as a single process sees them.

    The service is used by one caller at a time, so its whole history is a
    list of calls applied in order. This module states what holds over any
    such history: the invariant survives, ids come out consecutively, and an
    id that has been removed never comes back.
 */
module ServiceHistory {
  import opened TodosService

  /** One call on the service. */
  datatype Op =
    | FindAllOp
    | FindOneOp(id: int)
    | CreateOp(title: string)
    | UpdateOp(id: int, dto: UpdateTodoDto)
    | RemoveOp(id: int)

  /** The store after one call (the lookups leave it as it was). */
  function Apply(s: Store, op: Op): Store
  {
    match op
    case FindAllOp => s
    case FindOneOp(_) => s
    case CreateOp(title) => Create(s, title).store
    case UpdateOp(id, dto) => Update(s, id, dto).store
    case RemoveOp(id) => Remove(s, id).store
  }

  /** The ids that `create` hands back during one call: one for a create, none otherwise. */
  function CreatedId(s: Store, op: Op): seq<nat>
  {
    if op.CreateOp? then [Create(s, op.title).value.id] else []
  }

  /** Runs the calls in order; the value is every id handed out by `create`, in call order. */
  function Run(s: Store, ops: seq<Op>): Step<seq<nat>>
    decreases |ops|
  {
    if |ops| == 0 then Step(s, [])
    else
      var rest := Run(Apply(s, ops[0]), ops[1..]);
      Step(rest.store, CreatedId(s, ops[0]) + rest.value)
  }

  /** How many of the calls are creates. */
  function CountCreates(ops: seq<Op>): nat
    decreases |ops|
  {
    if |ops| == 0 then 0
    else (if ops[0].CreateOp? then 1 else 0) + CountCreates(ops[1..])
  }

  /** Every call keeps the store's invariant. */
  lemma ApplyPreservesValid(s: Store, op: Op)
    requires Valid(s)
    ensures Valid(Apply(s, op))
  {
  }

  /** Any history keeps the store's invariant. */
  lemma {:induction false} RunPreservesValid(s: Store, ops: seq<Op>)
    requires Valid(s)
    ensures Valid(Run(s, ops).store)
    decreases |ops|
  {
    if |ops| > 0 {
      ApplyPreservesValid(s, ops[0]);
      RunPreservesValid(Apply(s, ops[0]), ops[1..]);
    }
  }

  /** `nextId` only grows: it advances by exactly one per create and the
      ids handed out are consecutive from the starting `nextId`, whatever
      updates and removes happen in between. */
  lemma {:induction false} RunCreatesConsecutiveIds(s: Store, ops: seq<Op>)
    ensures Run(s, ops).store.nextId == s.nextId + CountCreates(ops)
    ensures |Run(s, ops).value| == CountCreates(ops)
    ensures forall i :: 0 <= i < |Run(s, ops).value| ==> Run(s, ops).value[i] == s.nextId + i
    decreases |ops|
  {
    if |ops| > 0 {
      var s1 := Apply(s, ops[0]);
      RunCreatesConsecutiveIds(s1, ops[1..]);
      assert s1.nextId == s.nextId + |CreatedId(s, ops[0])|;
    }
  }

  /** On a fresh service the n creates of any history return ids 1 to n, in order. */
  lemma FreshServiceIdsCountFromOne(ops: seq<Op>)
    ensures |Run(Init(), ops).value| == CountCreates(ops)
    ensures forall i :: 0 <= i < |Run(Init(), ops).value| ==> Run(Init(), ops).value[i] == i + 1
  {
    RunCreatesConsecutiveIds(Init(), ops);
  }

  /** One call never brings back an id that is absent and below `nextId`. */
  lemma ApplyKeepsAbsent(s: Store, op: Op, id: int)
    requires !Contains(s.todos, id) && id < s.nextId
    ensures !Contains(Apply(s, op).todos, id) && id < Apply(s, op).nextId
    ensures id !in CreatedId(s, op)
  {
  }

  /** No history brings back an id that is absent and below `nextId`. */
  lemma {:induction false} RunKeepsAbsent(s: Store, ops: seq<Op>, id: int)
    requires !Contains(s.todos, id) && id < s.nextId
    ensures !Contains(Run(s, ops).store.todos, id)
    ensures id !in Run(s, ops).value
    decreases |ops|
  {
    if |ops| > 0 {
      ApplyKeepsAbsent(s, ops[0], id);
      RunKeepsAbsent(Apply(s, ops[0]), ops[1..], id);
    }
  }

  /** Ids are never reused: once `remove` has deleted an id from a valid
      store, no later history lists it again or hands it out from `create`. */
  lemma RemovedIdNeverReturns(s: Store, id: int, ops: seq<Op>)
    requires Valid(s)
    requires Remove(s, id).value
    ensures !Contains(Run(Remove(s, id).store, ops).store.todos, id)
    ensures id !in Run(Remove(s, id).store, ops).value
  {
    RemoveThenFindOne(s, id, id);
    RunKeepsAbsent(Remove(s, id).store, ops, id);
  }
}
