/**
 * models/repositories/csvrepo/csvrepo.go: the file-backed repository.
 *
 * Every operation re-reads the data file. Update and delete read all todos,
 * edit the list, truncate the file and re-enter CreateTodo once per todo, so
 * the rewrite renumbers every row by its position: after any mutation row i
 * carries the id decimal(i + 1), and a delete shifts the later rows down.
 */
module CsvRepo {
  import opened Errors
  import opened Strconv
  import opened Todos
  import opened TodoSeqs
  import opened Files
  import Utils

  /** parseTodoData: fields 0 to 2 verbatim, field 3 through ToBool. */
  function ParseTodoData(rec: seq<string>): (t: Todo)
    requires |rec| >= 4
    ensures t.id == rec[0] && t.title == rec[1] && t.description == rec[2]
    ensures t.terminated <==> rec[3] in TrueSpellings
  {
    Todo(rec[0], rec[1], rec[2], Utils.ToBool(rec[3]))
  }

  /** Decoding serialized data gives back the todo. */
  lemma ParseSerialize(t: Todo)
    ensures ParseTodoData(Serialize(t)) == t
  {
    Utils.ToBoolFormatBool(t.terminated);
  }

  /** Encoding a decoded row gives back the row, when its flag is in the form Serialize writes. */
  lemma SerializeParse(row: Row)
    requires row[3] == "true" || row[3] == "false"
    ensures Serialize(ParseTodoData(row)) == row
  {
    var back := Serialize(ParseTodoData(row));
    assert back[3] == row[3];
    assert back == [row[0], row[1], row[2], row[3]] == row;
  }

  /** Re-entering a decoded row at position i changes its id field only. */
  lemma RenumberRow(row: Row, i: nat)
    requires row[3] == "true" || row[3] == "false"
    ensures Serialize(ParseTodoData(row).(id := Itoa(i + 1))) == row[0 := Itoa(i + 1)]
  {
    var back := Serialize(ParseTodoData(row).(id := Itoa(i + 1)));
    assert back[3] == row[3];
    assert back == [Itoa(i + 1), row[1], row[2], row[3]] == row[0 := Itoa(i + 1)];
  }

  /** The todos a successful read returns: one per row, in file order. */
  function ParseAll(rows: seq<Row>): seq<Todo> {
    seq(|rows|, i requires 0 <= i < |rows| => ParseTodoData(rows[i]))
  }

  /** The rows the rewrite loop leaves: todo i re-entered through CreateTodo gets id decimal(i + 1). */
  function Renumbered(ts: seq<Todo>): seq<Row> {
    seq(|ts|, i requires 0 <= i < |ts| => Serialize(ts[i].(id := Itoa(i + 1))))
  }

  /** Row i has id decimal(i + 1) and its flag in the form Serialize writes. */
  predicate WellNumbered(rows: seq<Row>) {
    forall i :: 0 <= i < |rows| ==> rows[i][0] == Itoa(i + 1) && (rows[i][3] == "true" || rows[i][3] == "false")
  }

  lemma RenumberedWellNumbered(ts: seq<Todo>)
    ensures WellNumbered(Renumbered(ts))
    ensures forall i :: 0 <= i <= |ts| ==> Renumbered(ts[..i]) == Renumbered(ts)[..i]
  {
    forall i | 0 <= i <= |ts|
      ensures Renumbered(ts[..i]) == Renumbered(ts)[..i]
    {
      assert forall j :: 0 <= j < i ==> Renumbered(ts[..i])[j] == Renumbered(ts)[..i][j];
    }
  }

  /** Reading a well-numbered file gives a numbered list of todos. */
  lemma ParseAllNumbered(rows: seq<Row>)
    requires WellNumbered(rows)
    ensures Numbered(ParseAll(rows))
  {
  }

  /** Rewriting a well-numbered file without changes leaves it as it was. */
  lemma RenumberedParseAll(rows: seq<Row>)
    requires WellNumbered(rows)
    ensures Renumbered(ParseAll(rows)) == rows
  {
    var back := Renumbered(ParseAll(rows));
    forall i | 0 <= i < |rows|
      ensures back[i] == rows[i]
    {
      RenumberedKeepsRow(rows, ParseAll(rows), i);
    }
  }

  /** A todo decoded from row i of a well-numbered file is re-entered at position i as that same row. */
  lemma RenumberedKeepsRow(rows: seq<Row>, ts: seq<Todo>, i: nat)
    requires WellNumbered(rows) && i < |rows| && i < |ts|
    requires ts[i] == ParseTodoData(rows[i])
    ensures Renumbered(ts)[i] == rows[i]
  {
    RenumberRow(rows[i], i);
    assert rows[i][0 := Itoa(i + 1)] == rows[i];
  }

  /** Re-entering the decoded rows with entry k replaced by a todo of id decimal(k + 1) rewrites row k only. */
  lemma RenumberedReplaced(rows: seq<Row>, k: nat, u: Todo)
    requires WellNumbered(rows) && k < |rows| && u.id == Itoa(k + 1)
    ensures Renumbered(ParseAll(rows)[k := u]) == rows[k := Serialize(u)]
  {
    var replaced := ParseAll(rows)[k := u];
    var back := Renumbered(replaced);
    var expected := rows[k := Serialize(u)];
    forall i | 0 <= i < |rows|
      ensures back[i] == expected[i]
    {
      if i == k {
        assert u.(id := Itoa(k + 1)) == u;
      } else {
        RenumberedKeepsRow(rows, replaced, i);
      }
    }
  }

  /**
   * In a well-numbered file, updating the todo of id decimal(k + 1) rewrites
   * row k and leaves every other row as it was.
   */
  lemma UpdateRewritesOneRow(rows: seq<Row>, k: nat, todoUpdate: Todo)
    requires WellNumbered(rows) && k < |rows|
    ensures var u := todoUpdate.(id := Itoa(k + 1));
      Renumbered(ReplaceFirst(ParseAll(rows), Itoa(k + 1), u)) == rows[k := Serialize(u)]
  {
    var u := todoUpdate.(id := Itoa(k + 1));
    ParseAllNumbered(rows);
    NumberedIndex(ParseAll(rows), k);
    RenumberedReplaced(rows, k, u);
  }

  lemma {:induction false} WithoutAbsent(ts: seq<Todo>, id: string)
    requires !HasId(ts, id)
    ensures Without(ts, id) == ts
  {
    if ts != [] {
      var init := ts[..|ts| - 1];
      WithoutAbsent(init, id);
      assert init + [ts[|ts| - 1]] == ts;
    }
  }

  /** Removing the only todo of an id drops exactly its position. */
  lemma {:induction false} WithoutSingle(ts: seq<Todo>, id: string, k: nat)
    requires k < |ts| && ts[k].id == id
    requires forall j :: 0 <= j < |ts| && j != k ==> ts[j].id != id
    ensures Without(ts, id) == ts[..k] + ts[k + 1..]
  {
    var init := ts[..|ts| - 1];
    var last := ts[|ts| - 1];
    assert Without(ts, id) == Without(init, id) + (if last.id == id then [] else [last]);
    if k == |ts| - 1 {
      assert !HasId(init, id) by {
        forall j | 0 <= j < |init| ensures init[j].id != id {
          assert init[j] == ts[j];
        }
      }
      WithoutAbsent(init, id);
      assert ts[..k] == init;
    } else {
      assert forall j :: 0 <= j < |init| && j != k ==> init[j].id != id;
      WithoutSingle(init, id, k);
      assert last.id != id;
      assert init[..k] == ts[..k];
      assert ts[k + 1..] == init[k + 1..] + [last];
    }
  }

  /** In a well-numbered file the todo of id decimal(k + 1) is the only one of that id. */
  lemma WithoutNumbered(rows: seq<Row>, k: nat)
    requires WellNumbered(rows) && k < |rows|
    ensures Without(ParseAll(rows), Itoa(k + 1)) == ParseAll(rows)[..k] + ParseAll(rows)[k + 1..]
  {
    var ts := ParseAll(rows);
    var id := Itoa(k + 1);
    forall j | 0 <= j < |ts| && j != k
      ensures ts[j].id != id
    {
      assert ts[j].id == Itoa(j + 1);
      if ts[j].id == id {
        ItoaInjective(j + 1, k + 1);
      }
    }
    WithoutSingle(ts, id, k);
  }

  /**
   * In a well-numbered file, deleting id decimal(k + 1) removes row k only:
   * the rows before it stay as they were, and every later row moves down one
   * place and takes the id of its new position.
   */
  lemma DeleteShiftsRows(rows: seq<Row>, k: nat)
    requires WellNumbered(rows) && k < |rows|
    ensures var after := Renumbered(Without(ParseAll(rows), Itoa(k + 1)));
      && |after| == |rows| - 1
      && after[..k] == rows[..k]
      && forall i :: k <= i < |after| ==> after[i] == rows[i + 1][0 := Itoa(i + 1)]
  {
    var ts := ParseAll(rows);
    WithoutNumbered(rows, k);
    var rest := ts[..k] + ts[k + 1..];
    assert |rest| == |rows| - 1;
    var after := Renumbered(rest);
    forall i | 0 <= i < k
      ensures after[i] == rows[i]
    {
      assert rest[i] == ParseTodoData(rows[i]);
      RenumberedKeepsRow(rows, rest, i);
    }
    forall i | k <= i < |after|
      ensures after[i] == rows[i + 1][0 := Itoa(i + 1)]
    {
      assert rest[i] == ts[k + 1..][i - k] == ts[i + 1];
      RenumberRow(rows[i + 1], i);
    }
  }

  /** What ReadTodos answers: every row decoded in file order, or an open or read error. */
  predicate ReadOutcome(present: bool, rows: seq<Row>, r: Result<seq<Todo>>) {
    && (r.Ok? ==> r.value == ParseAll(rows))
    && (!present ==> r == Err(Io(Open)))
    && (r.Err? ==> r.error in {Io(Open), Io(Read)})
  }

  /** What ReadTodoById answers: the lookup in the decoded rows, or an open or read error. */
  predicate ReadByIdOutcome(present: bool, rows: seq<Row>, id: string, r: Result<Todo>) {
    && (r == FindById(ParseAll(rows), id) || (r.Err? && r.error in {Io(Open), Io(Read)}))
    && (!present ==> r == Err(Io(Open)))
  }

  /** What Initialize leaves behind: the file present with its rows kept, or a failed create of an absent file. */
  ghost predicate InitializeOutcome(presentBefore: bool, before: seq<Row>, presentAfter: bool, after: seq<Row>, err: Option<Error>) {
    && (err.None? ==> presentAfter && after == before)
    && (err.Some? ==> err == Some(Io(IoOp.Create)) && !presentBefore && !presentAfter && after == before)
  }

  /** What CreateTodo leaves behind, given the rows before and after. */
  ghost predicate CreateOutcome(before: seq<Row>, after: seq<Row>, todoToCreate: Todo, r: Result<Todo>) {
    && (r.Ok? ==> r.value == todoToCreate.(id := Itoa(|before| + 1)) && after == before + [Serialize(r.value)])
    && (r.Err? ==> after == before)
  }

  /**
   * What UpdateTodoById leaves behind: on success the first todo of the id
   * replaced (keeping the id) and every row renumbered; an absent id fails
   * before the file is touched; a failure during the rewrite leaves a prefix
   * of the intended rows.
   */
  ghost predicate UpdateOutcome(before: seq<Row>, after: seq<Row>, id: string, todoUpdate: Todo, r: Result<Todo>) {
    var ts := ParseAll(before);
    var intended := Renumbered(ReplaceFirst(ts, id, todoUpdate.(id := id)));
    && (r.Ok? ==> HasId(ts, id) && r.value == todoUpdate.(id := id) && after == intended)
    && (!HasId(ts, id) ==> after == before && r.Err? && r.error in {UpdateNotFound(id), Io(Open), Io(Read)})
    && (r.Err? ==> after == before || after < intended)
  }

  /**
   * What DeleteTodoById leaves behind: on success every todo of the id
   * dropped, the last of them returned, and the remaining rows renumbered in
   * their original order; an absent id fails before the file is touched; a
   * failure during the rewrite leaves a prefix of the intended rows.
   */
  ghost predicate DeleteOutcome(before: seq<Row>, after: seq<Row>, id: string, r: Result<Todo>) {
    var ts := ParseAll(before);
    var intended := Renumbered(Without(ts, id));
    && (r.Ok? ==> HasId(ts, id) && r.value == ts[LastIndexOfId(ts, id).value] && after == intended)
    && (!HasId(ts, id) ==> after == before && r.Err? && (r.error == DeleteNotFound(id) || r.error.ReadingTodos?))
    && (r.Err? ==> after == before || after < intended)
  }

  /** Create keeps a well-numbered file well numbered. */
  lemma CreateKeepsNumbering(before: seq<Row>, after: seq<Row>, todoToCreate: Todo, r: Result<Todo>)
    requires CreateOutcome(before, after, todoToCreate, r) && WellNumbered(before)
    ensures WellNumbered(after)
  {
  }

  /** After an update the file is well numbered, unless it failed early on a file that was not. */
  lemma UpdateKeepsNumbering(before: seq<Row>, after: seq<Row>, id: string, todoUpdate: Todo, r: Result<Todo>)
    requires UpdateOutcome(before, after, id, todoUpdate, r)
    ensures WellNumbered(before) ==> WellNumbered(after)
    ensures r.Ok? ==> WellNumbered(after)
  {
    var intended := ReplaceFirst(ParseAll(before), id, todoUpdate.(id := id));
    RenumberedWellNumbered(intended);
  }

  /** After a delete the file is well numbered, unless it failed early on a file that was not. */
  lemma DeleteKeepsNumbering(before: seq<Row>, after: seq<Row>, id: string, r: Result<Todo>)
    requires DeleteOutcome(before, after, id, r)
    ensures WellNumbered(before) ==> WellNumbered(after)
    ensures r.Ok? ==> WellNumbered(after)
  {
    var intended := Without(ParseAll(before), id);
    RenumberedWellNumbered(intended);
  }

  /** One call that may change the data file, with the answer it gave. */
  datatype FileCall =
    | InitializeCall(err: Option<Error>)
    | CreateCall(todoToCreate: Todo, r: Result<Todo>)
    | UpdateCall(id: string, todoUpdate: Todo, r: Result<Todo>)
    | DeleteCall(id: string, r: Result<Todo>)

  /** The rows before and after a call are related as that call's contract says. */
  ghost predicate Follows(before: seq<Row>, after: seq<Row>, call: FileCall) {
    match call
    case InitializeCall(_) => after == before
    case CreateCall(t, r) => CreateOutcome(before, after, t, r)
    case UpdateCall(id, u, r) => UpdateOutcome(before, after, id, u, r)
    case DeleteCall(id, r) => DeleteOutcome(before, after, id, r)
  }

  /**
   * Starting from an empty or absent file, after any sequence of calls, row i
   * of the file has id decimal(i + 1), whichever calls failed.
   */
  lemma {:induction false} TraceWellNumbered(states: seq<seq<Row>>, calls: seq<FileCall>)
    requires |states| == |calls| + 1 && states[0] == []
    requires forall i :: 0 <= i < |calls| ==> Follows(states[i], states[i + 1], calls[i])
    ensures WellNumbered(states[|calls|])
  {
    if calls != [] {
      var n := |calls| - 1;
      TraceWellNumbered(states[..n + 1], calls[..n]);
      assert states[..n + 1][n] == states[n];
      match calls[n]
      case InitializeCall(_) =>
      case CreateCall(t, r) => CreateKeepsNumbering(states[n], states[n + 1], t, r);
      case UpdateCall(id, u, r) => UpdateKeepsNumbering(states[n], states[n + 1], id, u, r);
      case DeleteCall(id, r) => DeleteKeepsNumbering(states[n], states[n + 1], id, r);
    }
  }

  /**
   * The scan of DeleteTodoById: every todo of the id left out, the others kept
   * in order, and the last todo of the id remembered (there is no break).
   */
  method SplitOff(ts: seq<Todo>, id: string) returns (remainingTodos: seq<Todo>, itemFound: bool, deletedTodo: Todo)
    ensures remainingTodos == Without(ts, id)
    ensures itemFound <==> HasId(ts, id)
    ensures itemFound ==> deletedTodo == ts[LastIndexOfId(ts, id).value]
    ensures !itemFound ==> deletedTodo == EmptyTodo
  {
    deletedTodo := EmptyTodo;
    remainingTodos := [];
    itemFound := false;
    for i := 0 to |ts|
      invariant remainingTodos == Without(ts[..i], id)
      invariant itemFound == LastIndexOfId(ts[..i], id).Some?
      invariant itemFound ==> deletedTodo == ts[LastIndexOfId(ts[..i], id).value]
      invariant !itemFound ==> deletedTodo == EmptyTodo
    {
      ScanStep(ts, id, i);
      if id == ts[i].id {
        deletedTodo := ts[i];
        itemFound := true;
      } else {
        remainingTodos := remainingTodos + [ts[i]];
      }
    }
    assert ts[..|ts|] == ts;
  }

  /** CsvFileTodoRepository: the Go struct has no fields; its state is the data file. */
  class CsvFileTodoRepository {
    const file: DataFile

    constructor (file: DataFile)
      ensures this.file == file
    {
      this.file := file;
    }

    /** Initialize: creates the file when it is absent and leaves an existing file alone. */
    method Initialize() returns (err: Option<Error>)
      requires file.Valid()
      modifies file
      ensures file.Valid()
      ensures InitializeOutcome(old(file.present), old(file.rows), file.present, file.rows, err)
    {
      var found := file.Stat();
      if !found {
        err := file.Create();
        return;
      }
      return None;
    }

    /** ReadTodos (readDataFromFile): every row decoded in file order, or an error and no todos at all. */
    method ReadTodos() returns (r: Result<seq<Todo>>)
      requires file.Valid()
      ensures ReadOutcome(file.present, file.rows, r)
    {
      var openErr := file.OpenRead();
      if openErr.Some? {
        return Err(openErr.value);
      }
      var readTodos: seq<Todo> := [];
      while true
        invariant |readTodos| <= |file.rows|
        invariant forall j :: 0 <= j < |readTodos| ==> readTodos[j] == ParseTodoData(file.rows[j])
        decreases |file.rows| - |readTodos|
      {
        var step := file.ReadRecord(|readTodos|);
        match step {
          case Eof =>
            return Ok(readTodos);
          case Fault(e) =>
            return Err(e);
          case Record(records) =>
            readTodos := readTodos + [ParseTodoData(records)];
        }
      }
    }

    /** ReadTodoById: the first todo of the id in the file, "id not found", or a read error. */
    method ReadTodoById(id: string) returns (r: Result<Todo>)
      requires file.Valid()
      ensures ReadByIdOutcome(file.present, file.rows, id, r)
    {
      var todos := ReadTodos();
      if todos.Err? {
        return Err(todos.error);
      }
      var ts := todos.value;
      for i := 0 to |ts|
        invariant forall j :: 0 <= j < i ==> ts[j].id != id
      {
        if id == ts[i].id {
          return Ok(ts[i]);
        }
      }
      return Err(IdNotFound);
    }

    /**
     * CreateTodo: ignores the incoming id, appends one row with id
     * decimal(row count + 1) and returns the stored todo.
     */
    method CreateTodo(todoToCreate: Todo) returns (r: Result<Todo>)
      requires file.Valid()
      modifies file
      ensures file.Valid()
      ensures CreateOutcome(old(file.rows), file.rows, todoToCreate, r)
    {
      var todoCount := Utils.GetLineCount(file);
      if todoCount.Err? {
        return Err(todoCount.error);
      }
      var openErr := file.OpenAppend();
      if openErr.Some? {
        return Err(openErr.value);
      }
      var created := todoToCreate.(id := Itoa(todoCount.value + 1));
      var writeErr := file.Append(Serialize(created));
      if writeErr.Some? {
        return Err(writeErr.value);
      }
      return Ok(created);
    }

    /**
     * The rewrite loop UpdateTodoById and DeleteTodoById run after clearing
     * the file: every todo re-entered through CreateTodo, in order, stopping
     * at the first failure.
     */
    method RewriteAll(todos: seq<Todo>) returns (err: Option<Error>)
      requires file.Valid() && file.rows == []
      modifies file
      ensures file.Valid()
      ensures err.None? ==> file.rows == Renumbered(todos)
      ensures err.Some? ==> file.rows < Renumbered(todos)
    {
      for i := 0 to |todos|
        invariant file.Valid()
        invariant file.rows == Renumbered(todos[..i])
      {
        var created := CreateTodo(todos[i]);
        if created.Err? {
          RenumberedWellNumbered(todos);
          return Some(created.error);
        }
        assert Renumbered(todos[..i + 1]) == Renumbered(todos[..i]) + [Serialize(todos[i].(id := Itoa(i + 1)))];
      }
      assert todos[..|todos|] == todos;
      return None;
    }

    /** UpdateTodoById: see UpdateOutcome. */
    method UpdateTodoById(id: string, todoUpdate: Todo) returns (r: Result<Todo>)
      requires file.Valid()
      modifies file
      ensures file.Valid()
      ensures UpdateOutcome(old(file.rows), file.rows, id, todoUpdate, r)
    {
      var todos := ReadTodos();
      if todos.Err? {
        return Err(todos.error);
      }
      ghost var read := todos.value;
      var ts := todos.value;
      var updated := todoUpdate;
      var itemFound := false;
      var index := 0;
      while index < |ts|
        invariant 0 <= index <= |ts| == |read|
        invariant ts == read && updated == todoUpdate
        invariant forall j :: 0 <= j < index ==> read[j].id != id
      {
        if id == ts[index].id {
          updated := updated.(id := id);
          ts := ts[index := updated];
          itemFound := true;
          break;
        }
        index := index + 1;
      }
      assert itemFound ==> IndexOfId(read, id) == Some(index);
      assert !itemFound ==> !HasId(read, id);

      if !itemFound {
        return Err(UpdateNotFound(id));
      }
      assert ts == ReplaceFirst(read, id, todoUpdate.(id := id));

      var clearErr := file.Truncate();
      if clearErr.Some? {
        return Err(clearErr.value);
      }

      var rewriteErr := RewriteAll(ts);
      if rewriteErr.Some? {
        return Err(rewriteErr.value);
      }
      return Ok(updated);
    }

    /** DeleteTodoById: see DeleteOutcome. The todo argument is ignored. */
    method DeleteTodoById(id: string, ignored: Todo) returns (r: Result<Todo>)
      requires file.Valid()
      modifies file
      ensures file.Valid()
      ensures DeleteOutcome(old(file.rows), file.rows, id, r)
    {
      var todos := ReadTodos();
      if todos.Err? {
        return Err(ReadingTodos(todos.error));
      }
      var ts := todos.value;
      var remainingTodos, itemFound, deletedTodo := SplitOff(ts, id);

      if !itemFound {
        return Err(DeleteNotFound(id));
      }

      var clearErr := file.Truncate();
      if clearErr.Some? {
        return Err(ClearingFile(clearErr.value));
      }

      var rewriteErr := RewriteAll(remainingTodos);
      if rewriteErr.Some? {
        return Err(RewritingTodos(rewriteErr.value));
      }
      return Ok(deletedTodo);
    }
  }
}
