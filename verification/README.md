# To-do service: a verified model

This project models the core of a small NestJS to-do service: the in-memory
store `TodosService` and the HTTP controller `TodosController` on top of it.

- `todos_service.dfy` (module `TodosService`): the store as an immutable
  value, `Store(todos, nextId)`, where `todos` holds the `Todo {id, title,
  completed}` records in insertion order and `nextId` is the next id to hand
  out. `findAll` and `findOne` are pure functions that return the list and
  the found record. `create`, `update` and `remove` are pure functions that
  return the new store together with the method's return value (`Step`).
  `null` and `undefined` become `None`. `Valid` is the store's
  invariant: ids are at least 1, lie below `nextId` and strictly increase in
  list order, so no two records share an id.
- `service_history.dfy` (module `ServiceHistory`): any sequence of service
  calls. Over every history the invariant holds, the ids handed out are
  consecutive, and an id that was removed never comes back.
- `todos_controller.dfy` (module `TodosController`): each endpoint is a pure
  function from (store, request) to (new store, response). The `try` body of
  each handler is an "attempt" that returns a body or throws an `Exception`.
  The handler's `catch` is `Catch`, and the framework's translation of the
  outcome into a status and a JSON body is `Send`. Service faults (a service
  method that throws) are a parameter: the set of service calls that throw.
- `scenarios.dfy` (module `Scenarios`): requests served one after another,
  and the create / read / update / delete walk-through on a fresh service.

The handlers' `catch` blocks replace every exception they catch, and that
includes the `HttpException(NOT_FOUND)` thrown inside the same `try`. So a
missing id is answered 500 "Internal server error", not 404. The model keeps
this behaviour as `CatchPolicy.WrapEverything`. It also models the evidently
intended behaviour as `CatchPolicy.RethrowHttp`, where an `HttpException`
passes through the `catch` unchanged. Every endpoint's contract,
`HandlePreservesValid` and the walk-through cover both policies. The set of
possible responses is stated for each policy (`AsWrittenEveryErrorIsInternal`,
`CorrectedEveryErrorIsNotFoundOrInternal`), and the answer to a missing id is
stated once as written and once corrected (see "## Findings").

Where the code departs from the usual REST answers (404 for a missing id, 204 for a DELETE), the model follows the code:
- A missing id on GET, PUT or DELETE is answered 500, not 404. The corrected
  policy answers 404.
- DELETE has no `@HttpCode`, so a successful delete gets the framework's
  default status 200 with an empty body, not 204.
- When `remove` returns false after a successful `findOne`, the code answers
  500, not 404. In the sequential store this branch cannot be reached
  (`DeleteFailureUnreachable`).

## Model

| member | source | states |
|---|---|---|
| `TodosService.Init` | src/todos/todos.service.ts:12-17 | A fresh service satisfies the invariant, `findAll` returns `[]`, `findOne` finds nothing for any id, and the first create gets id 1 |
| `TodosService.FindIndex` | src/todos/todos.service.ts:43 | The result is -1 exactly when no record carries the id. Otherwise it is the position of the first record that carries it |
| `TodosService.FindAll` | src/todos/todos.service.ts:15-17 | Returns the store's whole list in insertion order, and every listed record can be found again by its id |
| `TodosService.FindOne` | src/todos/todos.service.ts:19-21 | Returns a record exactly when some record carries the id. The record returned carries that id, is in the list, and is the first record carrying it (as `find` picks) |
| `TodosService.Create` | src/todos/todos.service.ts:23-31 | Returns `{id: old nextId, title, completed: false}` and appends it as the last element. Earlier records are unchanged and `nextId` grows by exactly one |
| `TodosService.Update` | src/todos/todos.service.ts:33-40 | On a missing id: returns `None` and the store is unchanged (no upsert). Otherwise only the matched record changes, to `{id, new title, new completed}` at the same position. The length, the other records and `nextId` are unchanged, and the updated record is returned |
| `TodosService.Remove` | src/todos/todos.service.ts:42-49 | Answers true exactly when the id is present. False leaves the store unchanged. True removes that one element and keeps the others in their relative order. `nextId` never changes |
| `TodosService.FindOneUnique` | src/todos/todos.service.ts:19-21 | In a valid store, `findOne` of any listed record's id returns exactly that record |
| `TodosService.FindOneBeyondNextId` | src/todos/todos.service.ts:23-29 | In a valid store, no id at or above `nextId` is found |
| `TodosService.CreatePreservesValid` | src/todos/todos.service.ts:23-31 | `create` keeps ids distinct, increasing in list order, and below `nextId` |
| `TodosService.UpdatePreservesValid` | src/todos/todos.service.ts:33-40 | `update` keeps ids distinct, increasing in list order, and below `nextId` |
| `TodosService.RemovePreservesValid` | src/todos/todos.service.ts:42-49 | `remove` keeps ids distinct, increasing in list order, and below `nextId` |
| `TodosService.CreateThenFindOne` | src/todos/todos.service.spec.ts:22-25 | Right after `create`, `findOne` of the new id returns the created record. Every other id is found exactly as before |
| `TodosService.UpdateThenFindOne` | src/todos/todos.service.spec.ts:38-45 | After updating an existing id, `findOne` of that id returns `{id, new title, new completed}` |
| `TodosService.RemoveThenFindOne` | src/todos/todos.service.ts:42-49 | In a valid store, after `remove(id)`, `findOne(id)` is `None`. Every other id is found exactly as before |
| `ServiceHistory.ApplyPreservesValid` | src/todos/todos.service.ts:15-49 | No single service call breaks the invariant |
| `ServiceHistory.RunPreservesValid` | src/todos/todos.service.ts:15-49 | No sequence of service calls breaks the invariant |
| `ServiceHistory.RunCreatesConsecutiveIds` | src/todos/todos.service.ts:25 | Over any history, `nextId` grows by exactly the number of creates. The ids returned by create are consecutive from the starting `nextId`, whatever updates and removes come between them |
| `ServiceHistory.FreshServiceIdsCountFromOne` | src/todos/todos.service.ts:12-31 | On a fresh service, the n creates of any history return ids 1..n in call order |
| `ServiceHistory.ApplyKeepsAbsent` | src/todos/todos.service.ts:23-49 | No single call brings back an id that is absent and below `nextId` |
| `ServiceHistory.RunKeepsAbsent` | src/todos/todos.service.ts:23-49 | No history brings back an id that is absent and below `nextId` |
| `ServiceHistory.RemovedIdNeverReturns` | src/todos/todos.service.ts:42-49 | Ids are never reused. After a successful remove, no later history lists that id again or returns it from create |
| `TodosController.FindAll` | src/todos/todos.controller.ts:11-17 | Never changes the store. Without a fault it answers 200 with the store's list. With a fault it answers 500 "Internal server error" |
| `TodosController.FindOne` | src/todos/todos.controller.ts:20-30 | Never changes the store. A present id is answered 200 with the first listed record that carries the id. A missing id is answered 500 as written and 404 with the corrected `catch`. A fault is answered 500 |
| `TodosController.Create` | src/todos/todos.controller.ts:32-40 | Without a fault: the store is the service's `create` result and the answer is 201 `{id: old nextId, title, completed: false}`. With a fault: the store is unchanged and the answer is 500 |
| `TodosController.Update` | src/todos/todos.controller.ts:42-56 | The store changes only when `findOne` found the id and nothing faulted, and then it is the service's update result with answer 200 `{id, title, completed}`. A missing id is answered 500 as written and 404 when corrected. Faults are answered 500 |
| `TodosController.Remove` | src/todos/todos.controller.ts:58-72 | The store changes only when `findOne` found the id and nothing faulted, and then it is the service's remove result with answer 200 and no body. A missing id is answered 500 as written and 404 when corrected. Faults are answered 500 |
| `TodosController.HandlePreservesValid` | src/todos/todos.controller.ts:11-72 | No request breaks the store's invariant, whatever faults occur |
| `TodosController.AsWrittenEveryErrorIsInternal` | src/todos/todos.controller.ts:11-72 | As written, every response is a success (200 or 201) or exactly 500 "Internal server error". No request is ever answered 404 |
| `TodosController.CorrectedEveryErrorIsNotFoundOrInternal` | src/todos/todos.controller.ts:11-72 | With the corrected `catch`, every response is a success (200 or 201), 404 "Todo not found", or exactly 500 "Internal server error"; the "Failed to delete todo" message never reaches the caller |
| `TodosController.MissingIdAnswers500` | src/todos/todos.controller.ts:22-29 | As written, GET, PUT or DELETE of a missing id is answered 500 "Internal server error" and leaves the store unchanged |
| `TodosController.MissingIdAnswers404WhenCorrected` | src/todos/todos.controller.ts:22-29 | With the corrected `catch`, a missing id (and no fault) is answered 404 "Todo not found", and a 404 is answered only in that case |
| `TodosController.DeleteFailureUnreachable` | src/todos/todos.controller.ts:61-68 | After `findOne` found the id, `remove` always deletes it, so the "Failed to delete todo" exception is never thrown |
| `TodosController.UpdateNeverAnswersEmpty` | src/todos/todos.controller.ts:48-52 | After `findOne` found the id, the service's `update` never returns `undefined`, so PUT never answers an empty body |
| `Scenarios.ServePreservesValid` | src/todos/todos.controller.ts:11-72 | Any sequence of requests, each with its own set of faulting service calls, keeps the store's invariant and gets one response per request |
| `Scenarios.WalkthroughCreate` | src/todos/todos.controller.ts:32-40 | On a fresh service, POST "Buy milk" is answered 201 `{id: 1, title: "Buy milk", completed: false}` |
| `Scenarios.WalkthroughRead` | src/todos/todos.controller.ts:20-30 | GET /todos/1 is then answered 200 with that record |
| `Scenarios.WalkthroughUpdate` | src/todos/todos.controller.ts:42-56 | PUT /todos/1 with completed true is answered 200 with the updated record |
| `Scenarios.WalkthroughDelete` | src/todos/todos.controller.ts:58-72 | DELETE /todos/1 is answered 200 with no body and empties the list |
| `Scenarios.WalkthroughReadMissing` | src/todos/todos.controller.ts:22-29 | After that, GET of id 1 or of id 999 is answered 500 as written and 404 with the corrected `catch` |

## Findings

| source | as written | input that shows it | evidently intended | confidence | as-written member | corrected member |
|---|---|---|---|---|---|---|
| src/todos/todos.controller.ts:22-29 | The `HttpException(NOT_FOUND)` is thrown inside the `try`, and the blanket `catch` replaces it with 500 "Internal server error" | `GET /todos/999` on a fresh service | 404 "Todo not found" | not executed; high (follows from the control flow) | `TodosController.MissingIdAnswers500` | `TodosController.MissingIdAnswers404WhenCorrected` |
| src/todos/todos.controller.ts:48-55 | The same 404 in `update` is replaced by 500 | `PUT /todos/999` on a fresh service | 404 "Todo not found" | not executed; high | `TodosController.MissingIdAnswers500` | `TodosController.MissingIdAnswers404WhenCorrected` |
| src/todos/todos.controller.ts:61-71 | The same 404 in `remove` is replaced by 500 | `DELETE /todos/999` on a fresh service | 404 "Todo not found" | not executed; high | `TodosController.MissingIdAnswers500` | `TodosController.MissingIdAnswers404WhenCorrected` |

The corrected policy `RethrowHttp` still turns a non-HTTP service fault into
500 "Internal server error", as the controller's tests expect (src/todos/todos.controller.spec.ts:65-70, 109-115, 133-138).

## Left out

- src/main.ts (process bootstrap, listening on port 3000) is I/O with no logic.
- NestJS decorators, dependency injection, `ParseIntPipe` and `@HttpCode`. The path id is an already-parsed `int`, and a non-integer id never reaches the handler. Status codes are plain numbers. The success status is 201 for POST (from its `@HttpCode`) and the framework default 200 for the other endpoints.
- The class-validator decorators of `UpdateTodoDto`. The DTO is a plain record `{title, completed}`. src/todos/dto/create-todo.dto.ts is not part of this model, so the create body is represented only by its title.
- Object aliasing. `findAll` returns the live array and `update` mutates the shared record. The model uses value semantics, so every returned list and record is a snapshot.
- JavaScript number semantics. Ids are unbounded `nat`s and `nextId` never overflows.
- JSON serialisation. A body is an abstract value, and an `HttpException`'s error body is represented by its message alone.
- Service faults are thrown before the faulting call changes anything. A fault halfway through a mutation is not modelled.
- The controller spec's mock service, whose ids come from `Date.now()`. It is test scaffolding.
- Concurrency. Requests are handled one at a time, so nothing can run between the controller's `findOne` check and its `update` or `remove`.
