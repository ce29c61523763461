/** Requests served one after another by one process, and the end-to-end
    walk-through of the service: create, read, update, delete, then read
    the deleted id and an id that never existed.
 */
module Scenarios {
  import S = TodosService
  import opened TodosController

  /** Serves the requests in order, each paired with the service calls that
      fault while it is handled; the value is the responses in the same order. */
  function Serve(s: S.Store, reqs: seq<(Request, set<ServiceCall>)>, policy: CatchPolicy): S.Step<seq<Response>>
    decreases |reqs|
  {
    if |reqs| == 0 then S.Step(s, [])
    else
      var x := Handle(s, reqs[0].0, reqs[0].1, policy);
      var rest := Serve(x.store, reqs[1..], policy);
      S.Step(rest.store, [x.response] + rest.value)
  }

  /** Any sequence of requests keeps the store's invariant. */
  lemma {:induction false} ServePreservesValid(s: S.Store, reqs: seq<(Request, set<ServiceCall>)>, policy: CatchPolicy)
    requires S.Valid(s)
    ensures S.Valid(Serve(s, reqs, policy).store)
    ensures |Serve(s, reqs, policy).value| == |reqs|
    decreases |reqs|
  {
    if |reqs| > 0 {
      HandlePreservesValid(s, reqs[0].0, reqs[0].1, policy);
      ServePreservesValid(Handle(s, reqs[0].0, reqs[0].1, policy).store, reqs[1..], policy);
    }
  }

  /** The stores the walk-through passes through. */
  const AfterPost := S.Store([S.Todo(1, "Buy milk", false)], 2)
  const AfterPut := S.Store([S.Todo(1, "Buy milk", true)], 2)
  const AfterDelete := S.Store([], 2)

  // The walk-through on a fresh service: POST, GET, PUT, DELETE, then GET
  // of the deleted id and of an id that never existed. The first four
  // answers do not depend on the `catch` policy.

  /** POST /todos {title: "Buy milk"} answers 201 with id 1, not completed. */
  lemma WalkthroughCreate(policy: CatchPolicy)
    ensures Handle(S.Init(), Post("Buy milk"), {}, policy)
            == Exchange(AfterPost, Response(CREATED, TodoJson(S.Todo(1, "Buy milk", false))))
  {
  }

  /** GET /todos/1 answers 200 with the created record. */
  lemma WalkthroughRead(policy: CatchPolicy)
    ensures Handle(AfterPost, GetOne(1), {}, policy)
            == Exchange(AfterPost, Response(OK, TodoJson(S.Todo(1, "Buy milk", false))))
  {
  }

  /** PUT /todos/1 {title: "Buy milk", completed: true} answers 200 with the updated record. */
  lemma WalkthroughUpdate(policy: CatchPolicy)
    ensures Handle(AfterPost, Put(1, S.UpdateTodoDto("Buy milk", true)), {}, policy)
            == Exchange(AfterPut, Response(OK, TodoJson(S.Todo(1, "Buy milk", true))))
  {
  }

  /** DELETE /todos/1 answers 200 with no body (the framework's default status). */
  lemma WalkthroughDelete(policy: CatchPolicy)
    ensures Handle(AfterPut, Delete(1), {}, policy)
            == Exchange(AfterDelete, Response(OK, NoBody))
  {
  }

  /** GET of the deleted id 1, or of the unknown id 999, answers 500 as
      written and 404 "Todo not found" with the corrected `catch`. */
  lemma WalkthroughReadMissing(policy: CatchPolicy, id: int)
    requires id == 1 || id == 999
    ensures Handle(AfterDelete, GetOne(id), {}, policy)
            == Exchange(AfterDelete, if policy == WrapEverything then InternalErrorResponse else NotFoundResponse)
  {
  }
}
