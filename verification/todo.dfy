/**
 * The todo record (models/todo/todo.go) and its row form in the data file.
 */
module Todos {
  import opened Strconv

  datatype Todo = Todo(id: string, title: string, description: string, terminated: bool)

  /** A record of the data file: exactly the four fields Serialize writes. */
  type Row = fields: seq<string> | |fields| == 4 witness ["", "", "", ""]

  /** The empty todo Go returns beside an error (`todo.Todo{}`). */
  const EmptyTodo: Todo := Todo("", "", "", false)

  /**
   * Todo.Serialize: four fields in the order id, title, description,
   * terminated-flag; the flag is the literal text "true" or "false".
   */
  function Serialize(t: Todo): (r: seq<string>)
    ensures |r| == 4
    ensures r[0] == t.id && r[1] == t.title && r[2] == t.description
    ensures r[3] == "true" || r[3] == "false"
    ensures r[3] == "true" <==> t.terminated
  {
    [t.id, t.title, t.description, FormatBool(t.terminated)]
  }

  /** Two todos with the same row form are the same todo. */
  lemma SerializeInjective(a: Todo, b: Todo)
    requires Serialize(a) == Serialize(b)
    ensures a == b
  {
    assert Serialize(a)[3] == Serialize(b)[3];
  }
}
