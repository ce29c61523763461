/** The HTTP endpoints over the store (src/todos/todos.controller.ts).

    Each endpoint is a pure function from the store and the request to the
    new store and the HTTP response. The body of each handler's `try` block
    is an "attempt" that either returns a body or throws an exception; the
    handler's `catch` is `Catch`; turning the result into a status and a
    JSON body is `Send`.

    Faults of the service (an exception thrown out of a service call, as the
    controller's own tests inject) are a parameter: the set of service calls
    that throw. A faulting call throws before it changes anything.

    The handlers' `catch` blocks replace EVERY exception, including the
    `HttpException(NOT_FOUND)` thrown inside the same `try`. `CatchPolicy`
    selects between that behaviour (`WrapEverything`, the code as written)
    and the evidently intended one (`RethrowHttp`, which lets an
    `HttpException` through unchanged).
 */
module TodosController {
  import S = TodosService

  const OK: nat := 200
  const CREATED: nat := 201
  const NOT_FOUND: nat := 404
  const INTERNAL_SERVER_ERROR: nat := 500

  const InternalErrorMessage := "Internal server error"
  const NotFoundMessage := "Todo not found"
  const DeleteFailedMessage := "Failed to delete todo"

  /** A service method the controller calls. */
  datatype ServiceCall = FindAllCall | FindOneCall | CreateCall | UpdateCall | RemoveCall

  /** An exception inside a handler: an `HttpException(message, status)`,
      or an arbitrary error thrown by the service. */
  datatype Exception = HttpException(message: string, status: nat) | ServiceError

  /** A JSON response body; `NoBody` is a handler that returns nothing. */
  datatype Body = TodoList(todos: seq<S.Todo>) | TodoJson(todo: S.Todo) | NoBody | ErrorJson(message: string)

  /** How a `try` block (or a whole handler) ends. */
  datatype Outcome = Returned(body: Body) | Thrown(error: Exception)

  datatype Response = Response(status: nat, body: Body)

  /** The store after a request, and the response sent. It has the shape of
      the service's `Step<Response>`; a separate type keeps an endpoint's
      result (an HTTP exchange) apart from a service call's result. */
  datatype Exchange = Exchange(store: S.Store, response: Response)

  /** What a handler's `catch` does with the exception it caught. */
  datatype CatchPolicy =
    | WrapEverything   // as written: every exception becomes a 500
    | RethrowHttp      // intended: an HttpException passes through unchanged

  /** A request, with the path id already parsed to an integer. */
  datatype Request =
    | GetAll
    | GetOne(id: int)
    | Post(title: string)
    | Put(id: int, dto: S.UpdateTodoDto)
    | Delete(id: int)

  const InternalErrorResponse := Response(INTERNAL_SERVER_ERROR, ErrorJson(InternalErrorMessage))
  const NotFoundResponse := Response(NOT_FOUND, ErrorJson(NotFoundMessage))

  /** The handler's `catch (error) { throw new HttpException('Internal server error', 500) }`. */
  function Catch(o: Outcome, policy: CatchPolicy): Outcome
  {
    match o
    case Returned(_) => o
    case Thrown(HttpException(_, _)) =>
      if policy == RethrowHttp then o
      else Thrown(HttpException(InternalErrorMessage, INTERNAL_SERVER_ERROR))
    case Thrown(ServiceError) => Thrown(HttpException(InternalErrorMessage, INTERNAL_SERVER_ERROR))
  }

  /** How the framework answers a handler's outcome: the endpoint's success
      status with the returned body, or the exception's status and message.
      An exception that is not an `HttpException` is answered as a 500. */
  function Send(o: Outcome, success: nat): Response
  {
    match o
    case Returned(b) => Response(success, b)
    case Thrown(HttpException(m, status)) => Response(status, ErrorJson(m))
    case Thrown(ServiceError) => InternalErrorResponse
  }

  // ---------------------------------------------------------------------
  // The `try` blocks

  function FindAllAttempt(s: S.Store, faults: set<ServiceCall>): Outcome
  {
    if FindAllCall in faults then Thrown(ServiceError)
    else Returned(TodoList(S.FindAll(s)))
  }

  function FindOneAttempt(s: S.Store, id: int, faults: set<ServiceCall>): Outcome
  {
    if FindOneCall in faults then Thrown(ServiceError)
    else
      match S.FindOne(s, id)
      case None => Thrown(HttpException(NotFoundMessage, NOT_FOUND))
      case Some(todo) => Returned(TodoJson(todo))
  }

  function CreateAttempt(s: S.Store, title: string, faults: set<ServiceCall>): S.Step<Outcome>
  {
    if CreateCall in faults then S.Step(s, Thrown(ServiceError))
    else
      var r := S.Create(s, title);
      S.Step(r.store, Returned(TodoJson(r.value)))
  }

  function UpdateAttempt(s: S.Store, id: int, dto: S.UpdateTodoDto, faults: set<ServiceCall>): S.Step<Outcome>
  {
    if FindOneCall in faults then S.Step(s, Thrown(ServiceError))
    else if S.FindOne(s, id).None? then S.Step(s, Thrown(HttpException(NotFoundMessage, NOT_FOUND)))
    else if UpdateCall in faults then S.Step(s, Thrown(ServiceError))
    else
      var r := S.Update(s, id, dto);
      // the handler returns whatever the service returned; `undefined` is an empty body
      S.Step(r.store, Returned(if r.value.Some? then TodoJson(r.value.value) else NoBody))
  }

  function RemoveAttempt(s: S.Store, id: int, faults: set<ServiceCall>): S.Step<Outcome>
  {
    if FindOneCall in faults then S.Step(s, Thrown(ServiceError))
    else if S.FindOne(s, id).None? then S.Step(s, Thrown(HttpException(NotFoundMessage, NOT_FOUND)))
    else if RemoveCall in faults then S.Step(s, Thrown(ServiceError))
    else
      var r := S.Remove(s, id);
      if !r.value then S.Step(r.store, Thrown(HttpException(DeleteFailedMessage, INTERNAL_SERVER_ERROR)))
      else S.Step(r.store, Returned(NoBody))
  }

  // ---------------------------------------------------------------------
  // The endpoints

  /** GET /todos. */
  function FindAll(s: S.Store, faults: set<ServiceCall>, policy: CatchPolicy): (r: Exchange)
    ensures r.store == s
    ensures FindAllCall !in faults ==> r.response == Response(OK, TodoList(s.todos))
    ensures FindAllCall in faults ==> r.response == InternalErrorResponse
  {
    Exchange(s, Send(Catch(FindAllAttempt(s, faults), policy), OK))
  }

  /** GET /todos/:id. */
  function FindOne(s: S.Store, id: int, faults: set<ServiceCall>, policy: CatchPolicy): (r: Exchange)
    ensures r.store == s
    // the first four conjuncts follow from the last; they are spelled out for callers
    ensures FindOneCall !in faults && S.Contains(s.todos, id) ==>
              && r.response.status == OK
              && r.response.body.TodoJson?
              && r.response.body.todo.id == id
              && r.response.body.todo in s.todos
              && r.response == Response(OK, TodoJson(s.todos[S.FindIndex(s.todos, id)]))
    ensures FindOneCall !in faults && !S.Contains(s.todos, id) ==>
              r.response == (if policy == WrapEverything then InternalErrorResponse else NotFoundResponse)
    ensures FindOneCall in faults ==> r.response == InternalErrorResponse
  {
    Exchange(s, Send(Catch(FindOneAttempt(s, id, faults), policy), OK))
  }

  /** POST /todos (status 201 on success). */
  function Create(s: S.Store, title: string, faults: set<ServiceCall>, policy: CatchPolicy): (r: Exchange)
    ensures CreateCall !in faults ==>
              && r.store == S.Create(s, title).store
              && r.response == Response(CREATED, TodoJson(S.Todo(s.nextId, title, false)))
    ensures CreateCall in faults ==> r.store == s && r.response == InternalErrorResponse
  {
    var a := CreateAttempt(s, title, faults);
    Exchange(a.store, Send(Catch(a.value, policy), CREATED))
  }

  /** PUT /todos/:id: the service's `update` runs only when `findOne` found the id. */
  function Update(s: S.Store, id: int, dto: S.UpdateTodoDto, faults: set<ServiceCall>, policy: CatchPolicy): (r: Exchange)
    ensures FindOneCall !in faults && S.Contains(s.todos, id) && UpdateCall !in faults ==>
              && r.store == S.Update(s, id, dto).store
              && r.response == Response(OK, TodoJson(S.Todo(id, dto.title, dto.completed)))
    ensures !(FindOneCall !in faults && S.Contains(s.todos, id) && UpdateCall !in faults) ==>
              r.store == s
    ensures FindOneCall !in faults && !S.Contains(s.todos, id) ==>
              r.response == (if policy == WrapEverything then InternalErrorResponse else NotFoundResponse)
    ensures FindOneCall in faults || (S.Contains(s.todos, id) && UpdateCall in faults) ==>
              r.response == InternalErrorResponse
  {
    var a := UpdateAttempt(s, id, dto, faults);
    Exchange(a.store, Send(Catch(a.value, policy), OK))
  }

  /** DELETE /todos/:id: the service's `remove` runs only when `findOne` found the id. */
  function Remove(s: S.Store, id: int, faults: set<ServiceCall>, policy: CatchPolicy): (r: Exchange)
    ensures FindOneCall !in faults && S.Contains(s.todos, id) && RemoveCall !in faults ==>
              && r.store == S.Remove(s, id).store
              && r.response == Response(OK, NoBody)
    ensures !(FindOneCall !in faults && S.Contains(s.todos, id) && RemoveCall !in faults) ==>
              r.store == s
    ensures FindOneCall !in faults && !S.Contains(s.todos, id) ==>
              r.response == (if policy == WrapEverything then InternalErrorResponse else NotFoundResponse)
    ensures FindOneCall in faults || (S.Contains(s.todos, id) && RemoveCall in faults) ==>
              r.response == InternalErrorResponse
  {
    var a := RemoveAttempt(s, id, faults);
    Exchange(a.store, Send(Catch(a.value, policy), OK))
  }

  /** Routes a request to its endpoint. */
  function Handle(s: S.Store, req: Request, faults: set<ServiceCall>, policy: CatchPolicy): Exchange
  {
    match req
    case GetAll => FindAll(s, faults, policy)
    case GetOne(id) => FindOne(s, id, faults, policy)
    case Post(title) => Create(s, title, faults, policy)
    case Put(id, dto) => Update(s, id, dto, faults, policy)
    case Delete(id) => Remove(s, id, faults, policy)
  }

  // ---------------------------------------------------------------------
  // Properties of the endpoints

  /** The id a request names, if it names one. */
  function RequestId(req: Request): S.Option<int>
  {
    match req
    case GetOne(id) => S.Some(id)
    case Put(id, _) => S.Some(id)
    case Delete(id) => S.Some(id)
    case _ => S.None
  }

  /** No request breaks the store's invariant, whatever faults occur. */
  lemma HandlePreservesValid(s: S.Store, req: Request, faults: set<ServiceCall>, policy: CatchPolicy)
    requires S.Valid(s)
    ensures S.Valid(Handle(s, req, faults, policy).store)
  {
    match req
    case GetAll =>
    case GetOne(_) =>
    case Post(title) => S.CreatePreservesValid(s, title);
    case Put(id, dto) => S.UpdatePreservesValid(s, id, dto);
    case Delete(id) => S.RemovePreservesValid(s, id);
  }

  /** As written, every error of every endpoint reaches the caller as
      500 "Internal server error": no request is ever answered 404. */
  lemma AsWrittenEveryErrorIsInternal(s: S.Store, req: Request, faults: set<ServiceCall>)
    ensures var r := Handle(s, req, faults, WrapEverything).response;
            r.status == OK || r.status == CREATED || r == InternalErrorResponse
    ensures Handle(s, req, faults, WrapEverything).response.status != NOT_FOUND
  {
  }

  /** With the corrected `catch`, every response is a success (200 or 201),
      404 "Todo not found", or exactly 500 "Internal server error". */
  lemma CorrectedEveryErrorIsNotFoundOrInternal(s: S.Store, req: Request, faults: set<ServiceCall>)
    ensures var r := Handle(s, req, faults, RethrowHttp).response;
            r.status == OK || r.status == CREATED || r == NotFoundResponse || r == InternalErrorResponse
  {
    match req
    case Delete(id) => DeleteFailureUnreachable(s, id, faults);
    case _ =>
  }

  /** As written, a GET, PUT or DELETE of a missing id is answered 500
      "Internal server error" (the 404 thrown inside the `try` is replaced by
      the `catch`), and the store is left unchanged. */
  lemma MissingIdAnswers500(s: S.Store, req: Request, faults: set<ServiceCall>)
    requires RequestId(req).Some? && !S.Contains(s.todos, RequestId(req).value)
    requires FindOneCall !in faults
    ensures Handle(s, req, faults, WrapEverything) == Exchange(s, InternalErrorResponse)
  {
  }

  /** With the corrected `catch`, the same requests are answered 404
      "Todo not found", and 404 is answered exactly for a missing id. */
  lemma MissingIdAnswers404WhenCorrected(s: S.Store, req: Request, faults: set<ServiceCall>)
    ensures RequestId(req).Some? && !S.Contains(s.todos, RequestId(req).value) && FindOneCall !in faults
            ==> Handle(s, req, faults, RethrowHttp) == Exchange(s, NotFoundResponse)
    ensures Handle(s, req, faults, RethrowHttp).response.status == NOT_FOUND ==>
              RequestId(req).Some? && !S.Contains(s.todos, RequestId(req).value) && FindOneCall !in faults
  {
  }

  /** In the sequential store, `remove` after a successful `findOne` always
      deletes, so the "Failed to delete todo" branch of DELETE is dead. */
  lemma DeleteFailureUnreachable(s: S.Store, id: int, faults: set<ServiceCall>)
    ensures RemoveAttempt(s, id, faults).value != Thrown(HttpException(DeleteFailedMessage, INTERNAL_SERVER_ERROR))
  {
  }

  /** Likewise the service's `update` never returns `undefined` after the
      handler's `findOne` found the id, so PUT never answers an empty body. */
  lemma UpdateNeverAnswersEmpty(s: S.Store, id: int, dto: S.UpdateTodoDto, faults: set<ServiceCall>)
    ensures UpdateAttempt(s, id, dto, faults).value != Returned(NoBody)
  {
  }
}
