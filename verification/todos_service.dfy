/** The in-memory to-do store (src/todos/todos.service.ts).

    The store is an ordered list of to-do records plus the counter that
    hands out the next id. Every operation is a pure function from the old
    store to the new store and the value the service method returns.
 */
module TodosService {

  /** One to-do record. Ids are handed out by the store and never change. */
  datatype Todo = Todo(id: nat, title: string, completed: bool)

  /** The body of an update request: both fields are overwritten. */
  datatype UpdateTodoDto = UpdateTodoDto(title: string, completed: bool)

  /** `null`/`undefined` on the service's side. */
  datatype Option<+T> = None | Some(value: T)

  /** The service's state: the records in insertion order and the next id. */
  datatype Store = Store(todos: seq<Todo>, nextId: nat)

  /** The store after an operation, together with what the operation returned. */
  datatype Step<+T> = Step(store: Store, value: T)

  /** Some record in `todos` carries `id`. */
  predicate Contains(todos: seq<Todo>, id: int)
  {
    exists i :: 0 <= i < |todos| && todos[i].id == id
  }

  /** The store's invariant: ids start at 1, lie below `nextId`, and strictly
      increase in list order (so no two records share an id). */
  ghost predicate Valid(s: Store)
  {
    && 1 <= s.nextId
    && (forall i :: 0 <= i < |s.todos| ==> 1 <= s.todos[i].id < s.nextId)
    && (forall i, j :: 0 <= i < j < |s.todos| ==> s.todos[i].id < s.todos[j].id)
  }

  /** A fresh service: no records, and the first id to hand out is 1. */
  function Init(): (s: Store)
    ensures Valid(s)
    ensures FindAll(s) == []
    ensures forall id :: FindOne(s, id) == None
    ensures forall title :: Create(s, title).value.id == 1
  {
    Store([], 1)
  }

  /** `findAll`: every record, in insertion order. */
  function FindAll(s: Store): (r: seq<Todo>)
    ensures r == s.todos
    ensures forall i :: 0 <= i < |r| ==> FindOne(s, r[i].id).Some?
  {
    s.todos
  }

  /** `Array.prototype.findIndex` with the predicate `todo.id === id`:
      the position of the first record carrying `id`, or -1. */
  function FindIndex(todos: seq<Todo>, id: int): (k: int)
    ensures -1 <= k < |todos|
    ensures k == -1 <==> !Contains(todos, id)
    ensures 0 <= k ==> todos[k].id == id
    ensures 0 <= k ==> forall j :: 0 <= j < k ==> todos[j].id != id
    decreases |todos|
  {
    if |todos| == 0 then -1
    else if todos[0].id == id then 0
    else
      var k := FindIndex(todos[1..], id);
      if k == -1 then
        assert forall i :: 1 <= i < |todos| ==> todos[i] == todos[1..][i - 1];
        -1
      else k + 1
  }

  /** `findOne`: the record carrying `id`, or `None` (the source's `null`). */
  function FindOne(s: Store, id: int): (r: Option<Todo>)
    ensures r.Some? <==> Contains(s.todos, id)
    // follows from the next clause and FindIndex's contract; spelled out for callers
    ensures r.Some? ==> r.value.id == id && r.value in s.todos
    ensures r.Some? ==> r.value == s.todos[FindIndex(s.todos, id)]
  {
    var k := FindIndex(s.todos, id);
    if k == -1 then None else Some(s.todos[k])
  }

  /** `create`: takes the next id, defaults `completed` to false, appends the
      record at the end and returns it. */
  function Create(s: Store, title: string): (r: Step<Todo>)
    ensures r.value.id == s.nextId && r.value.title == title && !r.value.completed
    ensures r.store.nextId == s.nextId + 1
    ensures |r.store.todos| == |s.todos| + 1
    ensures r.store.todos[..|s.todos|] == s.todos
    ensures r.store.todos[|s.todos|] == r.value
  {
    var todo := Todo(s.nextId, title, false);
    Step(Store(s.todos + [todo], s.nextId + 1), todo)
  }

  /** `update`: overwrites `title` and `completed` of the record found by
      `findOne` and returns it; a missing id returns `None` (the source's
      `undefined`) and creates nothing. */
  function Update(s: Store, id: int, dto: UpdateTodoDto): (r: Step<Option<Todo>>)
    ensures !Contains(s.todos, id) ==> r.store == s && r.value == None
    ensures Contains(s.todos, id) ==>
              var k := FindIndex(s.todos, id);
              && r.store.nextId == s.nextId
              && |r.store.todos| == |s.todos|
              && r.store.todos[k] == Todo(id, dto.title, dto.completed)
              && (forall j :: 0 <= j < |s.todos| && j != k ==> r.store.todos[j] == s.todos[j])
              && r.value == Some(r.store.todos[k])
  {
    var k := FindIndex(s.todos, id);
    if k == -1 then Step(s, None)
    else
      var todo := s.todos[k].(title := dto.title, completed := dto.completed);
      Step(s.(todos := s.todos[k := todo]), Some(todo))
  }

  /** `remove`: splices out the first record carrying `id` and answers true,
      or answers false and leaves the store alone. */
  function Remove(s: Store, id: int): (r: Step<bool>)
    ensures r.value <==> Contains(s.todos, id)
    ensures r.store.nextId == s.nextId
    ensures !r.value ==> r.store == s
    ensures r.value ==>
              var k := FindIndex(s.todos, id);
              && |r.store.todos| == |s.todos| - 1
              && (forall j :: 0 <= j < k ==> r.store.todos[j] == s.todos[j])
              && (forall j :: k <= j < |r.store.todos| ==> r.store.todos[j] == s.todos[j + 1])
  {
    var k := FindIndex(s.todos, id);
    if k != -1 then Step(s.(todos := s.todos[..k] + s.todos[k + 1..]), true)
    else Step(s, false)
  }

  // ---------------------------------------------------------------------
  // Properties of the store

  /** In a valid store an id names at most one record, so `findOne` returns
      exactly the record at the position that carries it. */
  lemma FindOneUnique(s: Store, i: int)
    requires Valid(s)
    requires 0 <= i < |s.todos|
    ensures FindOne(s, s.todos[i].id) == Some(s.todos[i])
  {
  }

  /** In a valid store a lookup by an id at or above `nextId` finds nothing. */
  lemma FindOneBeyondNextId(s: Store, id: int)
    requires Valid(s)
    requires s.nextId <= id
    ensures FindOne(s, id) == None
  {
  }

  /** `create` keeps the invariant: the new id exceeds every id in the list. */
  lemma CreatePreservesValid(s: Store, title: string)
    requires Valid(s)
    ensures Valid(Create(s, title).store)
  {
  }

  /** `update` keeps the invariant: it changes no id and no position. */
  lemma UpdatePreservesValid(s: Store, id: int, dto: UpdateTodoDto)
    requires Valid(s)
    ensures Valid(Update(s, id, dto).store)
  {
  }

  /** `remove` keeps the invariant: a sub-list of a strictly increasing list
      is strictly increasing. */
  lemma RemovePreservesValid(s: Store, id: int)
    requires Valid(s)
    ensures Valid(Remove(s, id).store)
  {
  }

  /** Right after `create`, `findOne` of the new id returns the new record,
      and every other id is looked up exactly as before. */
  lemma CreateThenFindOne(s: Store, title: string, other: int)
    requires Valid(s)
    ensures var r := Create(s, title);
            FindOne(r.store, r.value.id) == Some(Todo(s.nextId, title, false))
    ensures other != s.nextId ==>
              FindOne(Create(s, title).store, other) == FindOne(s, other)
  {
  }

  /** After updating an existing id, `findOne` returns the record with that id
      and exactly the new title and completion flag. */
  lemma UpdateThenFindOne(s: Store, id: int, dto: UpdateTodoDto)
    requires Contains(s.todos, id)
    ensures FindOne(Update(s, id, dto).store, id) == Some(Todo(id, dto.title, dto.completed))
  {
  }

  /** Removal is permanent: after a successful `remove` in a valid store,
      `findOne` of that id is `None`, and every other id is looked up as
      before. */
  lemma RemoveThenFindOne(s: Store, id: int, other: int)
    requires Valid(s)
    ensures FindOne(Remove(s, id).store, id) == None
    ensures other != id ==> FindOne(Remove(s, id).store, other) == FindOne(s, other)
  {
    var r := Remove(s, id);
    RemovePreservesValid(s, id);
    if r.value {
      var k := FindIndex(s.todos, id);
      var t := r.store.todos;
      // every surviving record sits one place earlier or where it was
      forall i | 0 <= i < |t|
        ensures t[i] == s.todos[if i < k then i else i + 1]
        ensures t[i].id != id
      {
        var i' := if i < k then i else i + 1;
        assert i' != k;
        if i' < k {
          assert s.todos[i'].id < s.todos[k].id;
        } else {
          assert s.todos[k].id < s.todos[i'].id;
        }
      }
      if other != id && Contains(s.todos, other) {
        var i :| 0 <= i < |s.todos| && s.todos[i].id == other;
        var i2 := if i < k then i else i - 1;
        assert t[i2] == s.todos[i];
        FindOneUnique(s, i);
        FindOneUnique(r.store, i2);
      } else if other != id {
        forall i | 0 <= i < |t|
          ensures t[i].id != other
        {
          assert t[i] == s.todos[if i < k then i else i + 1];
        }
      }
    }
  }
}
