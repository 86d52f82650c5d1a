/**
 * models/model.go: the package-level repository the HTTP layer talks to, the
 * facades that refuse to run without one and forward to it otherwise, and the
 * sort of todos by numeric id.
 */
module Models {
  import opened Errors
  import opened Strconv
  import opened Todos
  import opened TodoSeqs
  import opened Files
  import opened MemRepo
  import opened CsvRepo
  import opened Repositories

  /**
   * The package state of model.go: the installed repository, None while it is
   * nil.
   */
  class Model {
    var todoRepository: Option<TodoRepository>

    constructor ()
      ensures todoRepository == None
    {
      todoRepository := None;
    }

    /** The objects the installed backend may change. */
    function Repr(): set<object>
      reads this
    {
      if todoRepository.Some? then todoRepository.value.Footprint() else {}
    }

    ghost predicate Valid()
      reads this, Repr()
    {
      todoRepository.Some? ==> todoRepository.value.Valid()
    }

    /** SetTodoRepository: a nil repository is refused and the installed one kept. */
    method SetTodoRepository(todoRepositoryNew: Option<TodoRepository>) returns (err: Option<Error>)
      modifies this
      ensures todoRepositoryNew.None? ==> err == Some(NilRepository("todo")) && todoRepository == old(todoRepository)
      ensures todoRepositoryNew.Some? ==> err == None && todoRepository == todoRepositoryNew
    {
      if todoRepositoryNew.None? {
        return Some(NilRepository("todo"));
      }
      todoRepository := todoRepositoryNew;
      return None;
    }

    method Initialize() returns (err: Option<Error>)
      requires Valid()
      modifies Repr()
      ensures Valid()
      ensures todoRepository.None? ==> err == Some(NilRepository("todo"))
      ensures todoRepository.Some? && todoRepository.value.Memory? ==>
        err == None && todoRepository.value.mem.todoStore == []
      ensures todoRepository.Some? && todoRepository.value.Csv? ==>
        var f := todoRepository.value.csv.file;
        InitializeOutcome(old(f.present), old(f.rows), f.present, f.rows, err)
    {
      match todoRepository {
        case None =>
          return Some(NilRepository("todo"));
        case Some(Memory(m)) =>
          err := m.Initialize();
        case Some(Csv(c)) =>
          err := c.Initialize();
      }
    }

    method ReadTodos() returns (r: Result<seq<Todo>>)
      requires Valid()
      ensures todoRepository.None? ==> r == Err(NilRepository("todo"))
      ensures todoRepository.Some? && todoRepository.value.Memory? ==>
        r == Ok(todoRepository.value.mem.todoStore)
      ensures todoRepository.Some? && todoRepository.value.Csv? ==>
        var f := todoRepository.value.csv.file;
        ReadOutcome(f.present, f.rows, r)
    {
      match todoRepository {
        case None =>
          return Err(NilRepository("todo"));
        case Some(Memory(m)) =>
          r := m.ReadTodos();
        case Some(Csv(c)) =>
          r := c.ReadTodos();
      }
    }

    method ReadTodoById(id: string) returns (r: Result<Todo>)
      requires Valid()
      ensures todoRepository.None? ==> r == Err(NilRepository("todo"))
      ensures todoRepository.Some? && todoRepository.value.Memory? ==>
        r == FindById(todoRepository.value.mem.todoStore, id)
      ensures todoRepository.Some? && todoRepository.value.Csv? ==>
        var f := todoRepository.value.csv.file;
        ReadByIdOutcome(f.present, f.rows, id, r)
    {
      match todoRepository {
        case None =>
          return Err(NilRepository("todo"));
        case Some(Memory(m)) =>
          r := m.ReadTodoById(id);
        case Some(Csv(c)) =>
          r := c.ReadTodoById(id);
      }
    }

    method CreateTodo(todoToCreate: Todo) returns (r: Result<Todo>)
      requires Valid()
      modifies Repr()
      ensures Valid()
      ensures todoRepository.None? ==> r == Err(NilRepository("todoToCreate"))
      ensures todoRepository.Some? && todoRepository.value.Memory? ==>
        var m := todoRepository.value.mem;
        m.todoStore == StoreAfterCreate(old(m.todoStore), todoToCreate) && r == Ok(m.todoStore[|old(m.todoStore)|])
      ensures todoRepository.Some? && todoRepository.value.Csv? ==>
        var f := todoRepository.value.csv.file;
        CreateOutcome(old(f.rows), f.rows, todoToCreate, r)
    {
      match todoRepository {
        case None =>
          return Err(NilRepository("todoToCreate"));
        case Some(Memory(m)) =>
          r := m.CreateTodo(todoToCreate);
        case Some(Csv(c)) =>
          r := c.CreateTodo(todoToCreate);
      }
    }

    method UpdateTodoById(id: string, todoUpdate: Todo) returns (r: Result<Todo>)
      requires Valid()
      modifies Repr()
      ensures Valid()
      ensures todoRepository.None? ==> r == Err(NilRepository("todo"))
      ensures todoRepository.Some? && todoRepository.value.Memory? ==>
        var m := todoRepository.value.mem;
        m.todoStore == StoreAfterUpdate(old(m.todoStore), id, todoUpdate) && r == UpdateAnswer(old(m.todoStore), id, todoUpdate)
      ensures todoRepository.Some? && todoRepository.value.Csv? ==>
        var f := todoRepository.value.csv.file;
        UpdateOutcome(old(f.rows), f.rows, id, todoUpdate, r)
    {
      match todoRepository {
        case None =>
          return Err(NilRepository("todo"));
        case Some(Memory(m)) =>
          r := m.UpdateTodoById(id, todoUpdate);
        case Some(Csv(c)) =>
          r := c.UpdateTodoById(id, todoUpdate);
      }
    }

    method DeleteTodoById(id: string, todoDelete: Todo) returns (r: Result<Todo>)
      requires Valid()
      modifies Repr()
      ensures Valid()
      ensures todoRepository.None? ==> r == Err(NilRepository("todoToDelete"))
      ensures todoRepository.Some? && todoRepository.value.Memory? ==>
        var m := todoRepository.value.mem;
        m.todoStore == old(m.todoStore) && r == Ok(todoDelete)
      ensures todoRepository.Some? && todoRepository.value.Csv? ==>
        var f := todoRepository.value.csv.file;
        DeleteOutcome(old(f.rows), f.rows, id, r)
    {
      match todoRepository {
        case None =>
          return Err(NilRepository("todoToDelete"));
        case Some(Memory(m)) =>
          r := m.DeleteTodoById(id, todoDelete);
        case Some(Csv(c)) =>
          r := c.DeleteTodoById(id, todoDelete);
      }
    }
  }

  /** The sort key: the id read by strconv.Atoi with the error discarded, so 0 for a non-number. */
  function IdKey(t: Todo): (k: int)
    ensures Atoi(t.id).err == Some(ErrSyntax) ==> k == 0
    ensures MinInt64 <= k <= MaxInt64
  {
    Atoi(t.id).value
  }

  predicate SortedById(ts: seq<Todo>) {
    forall i, j :: 0 <= i < j < |ts| ==> IdKey(ts[i]) <= IdKey(ts[j])
  }

  /** Exchanges two adjacent entries; the multiset of entries stays the same. */
  method SwapAdjacent(todos: array<Todo>, j: nat)
    requires 0 < j < todos.Length
    modifies todos
    ensures todos[..] == old(todos[..])[j - 1 := old(todos[j])][j := old(todos[j - 1])]
    ensures multiset(todos[..]) == multiset(old(todos[..]))
  {
    todos[j - 1], todos[j] := todos[j], todos[j - 1];
  }

  /**
   * While entry i moves left it sits at j: the first i + 1 entries without
   * position j are sorted, and every entry it has passed has a larger key.
   */
  ghost predicate Inserting(ts: seq<Todo>, i: nat, j: nat) {
    && j <= i < |ts|
    && (forall a, b :: 0 <= a < b <= i && a != j && b != j ==> IdKey(ts[a]) <= IdKey(ts[b]))
    && (forall b :: j < b <= i ==> IdKey(ts[j]) < IdKey(ts[b]))
  }

  lemma InsertingStart(ts: seq<Todo>, i: nat)
    requires i < |ts| && SortedById(ts[..i])
    ensures Inserting(ts, i, i)
  {
    forall a, b | 0 <= a < b <= i && a != i && b != i
      ensures IdKey(ts[a]) <= IdKey(ts[b])
    {
      assert ts[a] == ts[..i][a] && ts[b] == ts[..i][b];
    }
  }

  lemma InsertingStep(ts: seq<Todo>, i: nat, j: nat)
    requires Inserting(ts, i, j) && 0 < j && IdKey(ts[j - 1]) > IdKey(ts[j])
    ensures Inserting(ts[j - 1 := ts[j]][j := ts[j - 1]], i, j - 1)
  {
  }

  lemma InsertingDone(ts: seq<Todo>, i: nat, j: nat)
    requires Inserting(ts, i, j) && (j == 0 || IdKey(ts[j - 1]) <= IdKey(ts[j]))
    ensures SortedById(ts[..i + 1])
  {
    forall a, b | 0 <= a < b <= i
      ensures IdKey(ts[a]) <= IdKey(ts[b])
    {
      if b == j && a < j - 1 {
        assert IdKey(ts[a]) <= IdKey(ts[j - 1]);
      }
    }
    assert forall a :: 0 <= a <= i ==> ts[..i + 1][a] == ts[a];
  }

  /** Moves entry i left past every larger key, so that the first i + 1 entries are sorted. */
  method InsertLeft(todos: array<Todo>, i: nat)
    requires i < todos.Length && SortedById(todos[..i])
    modifies todos
    ensures SortedById(todos[..i + 1])
    ensures multiset(todos[..]) == multiset(old(todos[..]))
  {
    InsertingStart(todos[..], i);
    var j: nat := i;
    while j > 0 && IdKey(todos[j - 1]) > IdKey(todos[j])
      invariant Inserting(todos[..], i, j)
      invariant multiset(todos[..]) == multiset(old(todos[..]))
    {
      InsertingStep(todos[..], i, j);
      SwapAdjacent(todos, j);
      j := j - 1;
    }
    InsertingDone(todos[..], i, j);
  }

  /**
   * SortTodosAfterIdAscending: sorts the slice in place, ascending by IdKey,
   * and returns that same slice.
   */
  method SortTodosAfterIdAscending(todos: array<Todo>) returns (sorted: array<Todo>)
    modifies todos
    ensures sorted == todos
    ensures SortedById(todos[..])
    ensures multiset(todos[..]) == multiset(old(todos[..]))
  {
    var i := 0;
    while i < todos.Length
      invariant 0 <= i <= todos.Length
      invariant SortedById(todos[..i])
      invariant multiset(todos[..]) == multiset(old(todos[..]))
    {
      InsertLeft(todos, i);
      i := i + 1;
    }
    assert todos[..todos.Length] == todos[..];
    return todos;
  }

  /** Entry i of a numbered sequence has key i + 1. */
  lemma NumberedKey(ts: seq<Todo>, i: nat)
    requires Numbered(ts) && i < |ts| <= MaxInt64
    ensures IdKey(ts[i]) == i + 1
  {
    AtoiItoa(i + 1);
  }

  /** The ids decimal(1), decimal(2), ... that both backends assign are already in ascending order. */
  lemma NumberedIsSorted(ts: seq<Todo>)
    requires Numbered(ts) && |ts| <= MaxInt64
    ensures SortedById(ts)
  {
    forall i, j | 0 <= i < j < |ts|
      ensures IdKey(ts[i]) <= IdKey(ts[j])
    {
      NumberedKey(ts, i);
      NumberedKey(ts, j);
    }
  }
}
