/**
 * models/repositories/memrepo/memrepo.go: the repository that keeps the todos
 * in a slice in memory. Creation numbers the todos by position, update keeps
 * the id of the entry it replaces, and delete changes nothing: it only hands
 * back the todo it was given.
 */
module MemRepo {
  import opened Errors
  import opened Strconv
  import opened Todos
  import opened TodoSeqs

  /** The store after CreateTodo: the todo appended with id decimal(length + 1). */
  function StoreAfterCreate(store: seq<Todo>, todo: Todo): (r: seq<Todo>)
    ensures |r| == |store| + 1 && r[..|store|] == store
    ensures r[|store|].id == Itoa(|store| + 1)
    ensures r[|store|] == todo.(id := r[|store|].id)
  {
    store + [todo.(id := Itoa(|store| + 1))]
  }

  /** The store after UpdateTodoById: the first entry of the id replaced, its id kept. */
  function StoreAfterUpdate(store: seq<Todo>, id: string, todoUpdate: Todo): (r: seq<Todo>)
    ensures |r| == |store|
    ensures forall i :: 0 <= i < |r| ==> r[i].id == store[i].id
    ensures !HasId(store, id) ==> r == store
    ensures HasId(store, id) ==> var k := IndexOfId(store, id).value;
      r[k] == todoUpdate.(id := id) && forall i :: 0 <= i < |r| && i != k ==> r[i] == store[i]
  {
    ReplaceFirst(store, id, todoUpdate.(id := id))
  }

  /** What UpdateTodoById answers for a store. */
  function UpdateAnswer(store: seq<Todo>, id: string, todoUpdate: Todo): (r: Result<Todo>)
    ensures r.Ok? <==> HasId(store, id)
    ensures r.Ok? ==> r.value == todoUpdate.(id := id)
    ensures r.Err? ==> r.error == UpdateNotFound(id)
  {
    if HasId(store, id) then Ok(todoUpdate.(id := id)) else Err(UpdateNotFound(id))
  }

  /** clone: a copy built by appending every todo in order. */
  method Clone(todos: seq<Todo>) returns (todoStoreClone: seq<Todo>)
    ensures todoStoreClone == todos
  {
    todoStoreClone := [];
    for i := 0 to |todos|
      invariant todoStoreClone == todos[..i]
    {
      todoStoreClone := todoStoreClone + [todos[i]];
    }
    assert todos[..|todos|] == todos;
  }

  class MemoryTodoRepository {
    var todoStore: seq<Todo>

    /** `&memrepo.MemoryTodoRepository{}`: a nil store, which reads as empty. */
    constructor ()
      ensures todoStore == []
    {
      todoStore := [];
    }

    method Initialize() returns (err: Option<Error>)
      modifies this
      ensures todoStore == [] && err == None
    {
      todoStore := [];
      return None;
    }

    /** ReadTodos: a copy of the store, never an error. */
    method ReadTodos() returns (r: Result<seq<Todo>>)
      ensures r.Ok? && r.value == todoStore
    {
      var copy := Clone(todoStore);
      return Ok(copy);
    }

    /** ReadTodoById: the first entry of the id, or "id not found". */
    method ReadTodoById(id: string) returns (r: Result<Todo>)
      ensures r == FindById(todoStore, id)
    {
      for i := 0 to |todoStore|
        invariant forall j :: 0 <= j < i ==> todoStore[j].id != id
      {
        if id == todoStore[i].id {
          assert IndexOfId(todoStore, id) == Some(i);
          return Ok(todoStore[i]);
        }
      }
      return Err(IdNotFound);
    }

    /** CreateTodo: ignores the incoming id and appends the todo as entry number length + 1. */
    method CreateTodo(todo: Todo) returns (r: Result<Todo>)
      modifies this
      ensures todoStore == StoreAfterCreate(old(todoStore), todo)
      ensures r == Ok(todoStore[|old(todoStore)|])
    {
      var todoCount := |todoStore| + 1;
      var created := todo.(id := Itoa(todoCount));
      todoStore := todoStore + [created];
      return Ok(created);
    }

    /** UpdateTodoById: replaces the first entry of the id in place, or fails and changes nothing. */
    method UpdateTodoById(id: string, todoUpdate: Todo) returns (r: Result<Todo>)
      modifies this
      ensures todoStore == StoreAfterUpdate(old(todoStore), id, todoUpdate)
      ensures r == UpdateAnswer(old(todoStore), id, todoUpdate)
    {
      for index := 0 to |todoStore|
        invariant todoStore == old(todoStore)
        invariant forall j :: 0 <= j < index ==> todoStore[j].id != id
      {
        if todoStore[index].id == id {
          assert IndexOfId(todoStore, id) == Some(index);
          var updated := todoUpdate.(id := id);
          todoStore := todoStore[index := updated];
          return Ok(updated);
        }
      }
      return Err(UpdateNotFound(id));
    }

    /** DeleteTodoById: hands back its todo argument and leaves the store alone. */
    method DeleteTodoById(id: string, todoDelete: Todo) returns (r: Result<Todo>)
      ensures r == Ok(todoDelete)
    {
      return Ok(todoDelete);
    }
  }

  /** One call that may change the store. */
  datatype StoreOp = CreateOp(todo: Todo) | UpdateOp(id: string, todoUpdate: Todo) | DeleteOp(id: string, todoDelete: Todo)

  function StoreAfter(store: seq<Todo>, op: StoreOp): seq<Todo> {
    match op
    case CreateOp(t) => StoreAfterCreate(store, t)
    case UpdateOp(id, u) => StoreAfterUpdate(store, id, u)
    case DeleteOp(_, _) => store
  }

  /** The store after Initialize and then the calls in ops, in order. */
  function Replay(ops: seq<StoreOp>): seq<Todo> {
    if ops == [] then [] else StoreAfter(Replay(ops[..|ops| - 1]), ops[|ops| - 1])
  }

  /** Every call keeps a numbered store numbered. */
  lemma StoreAfterNumbered(store: seq<Todo>, op: StoreOp)
    requires Numbered(store)
    ensures Numbered(StoreAfter(store, op))
  {
  }

  /** After Initialize and any calls, entry i has id decimal(i + 1). */
  lemma {:induction false} ReplayNumbered(ops: seq<StoreOp>)
    ensures Numbered(Replay(ops))
  {
    if ops != [] {
      ReplayNumbered(ops[..|ops| - 1]);
      StoreAfterNumbered(Replay(ops[..|ops| - 1]), ops[|ops| - 1]);
    }
  }

  /**
   * In a numbered store, updating id decimal(k + 1) changes entry k only;
   * the store's ids stay distinct, so no later entry is touched.
   */
  lemma UpdateNumbered(store: seq<Todo>, k: nat, todoUpdate: Todo)
    requires Numbered(store) && k < |store|
    ensures StoreAfterUpdate(store, Itoa(k + 1), todoUpdate) == store[k := todoUpdate.(id := Itoa(k + 1))]
  {
    NumberedIndex(store, k);
  }
}
