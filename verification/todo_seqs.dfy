/**
 * Specification functions over a sequence of todos, shared by the two
 * backends: the linear scans by id, the first-match replacement UpdateTodoById
 * performs, the filter DeleteTodoById of the CSV backend performs, and the
 * numbering "entry i has id i+1" that CreateTodo establishes.
 */
module TodoSeqs {
  import opened Errors
  import opened Strconv
  import opened Todos

  predicate HasId(ts: seq<Todo>, id: string) {
    exists j :: 0 <= j < |ts| && ts[j].id == id
  }

  /** The position of the first todo with this id. */
  function IndexOfId(ts: seq<Todo>, id: string): (r: Option<nat>)
    ensures r.None? <==> !HasId(ts, id)
    ensures r.Some? ==> r.value < |ts| && ts[r.value].id == id
    ensures r.Some? ==> forall j :: 0 <= j < r.value ==> ts[j].id != id
  {
    if ts == [] then None
    else if ts[0].id == id then Some(0)
    else
      match IndexOfId(ts[1..], id)
      case None => (assert forall j :: 1 <= j < |ts| ==> ts[j] == ts[1..][j - 1]; None)
      case Some(k) => Some(k + 1)
  }

  /** The position of the last todo with this id. */
  function LastIndexOfId(ts: seq<Todo>, id: string): (r: Option<nat>)
    ensures r.None? <==> !HasId(ts, id)
    ensures r.Some? ==> r.value < |ts| && ts[r.value].id == id
    ensures r.Some? ==> forall j :: r.value < j < |ts| ==> ts[j].id != id
  {
    if ts == [] then None
    else if ts[|ts| - 1].id == id then Some(|ts| - 1)
    else LastIndexOfId(ts[..|ts| - 1], id)
  }

  /** What ReadTodoById answers for a store holding ts. */
  function FindById(ts: seq<Todo>, id: string): (r: Result<Todo>)
    ensures r.Ok? <==> HasId(ts, id)
    ensures r.Err? ==> r.error == IdNotFound
    ensures r.Ok? ==> r.value.id == id && r.value in ts
  {
    match IndexOfId(ts, id)
    case Some(k) => Ok(ts[k])
    case None => Err(IdNotFound)
  }

  /** ts with its first todo of this id replaced by u; ts itself when there is none. */
  function ReplaceFirst(ts: seq<Todo>, id: string, u: Todo): (r: seq<Todo>)
    ensures |r| == |ts|
    ensures IndexOfId(ts, id).None? ==> r == ts
    ensures IndexOfId(ts, id).Some? ==> r == ts[IndexOfId(ts, id).value := u]
  {
    match IndexOfId(ts, id)
    case Some(k) => ts[k := u]
    case None => ts
  }

  /** ts without any todo of this id, the others in their original order. */
  function Without(ts: seq<Todo>, id: string): (r: seq<Todo>)
    ensures |r| <= |ts|
    ensures HasId(ts, id) ==> |r| < |ts|
  {
    if ts == [] then []
    else Without(ts[..|ts| - 1], id) + (if ts[|ts| - 1].id == id then [] else [ts[|ts| - 1]])
  }

  /** The filter keeps exactly the todos of another id. */
  lemma {:induction false} WithoutMembers(ts: seq<Todo>, id: string)
    ensures forall t :: t in Without(ts, id) <==> t in ts && t.id != id
  {
    if ts != [] {
      var init := ts[..|ts| - 1];
      WithoutMembers(init, id);
      assert ts == init + [ts[|ts| - 1]];
    }
  }

  /** The filter works piece by piece: the kept todos stay in their relative order. */
  lemma {:induction false} WithoutAppend(a: seq<Todo>, b: seq<Todo>, id: string)
    ensures Without(a + b, id) == Without(a, id) + Without(b, id)
    decreases |b|
  {
    if b == [] {
      assert a + b == a;
    } else {
      var init := b[..|b| - 1];
      var last := b[|b| - 1];
      assert (a + b)[..|a + b| - 1] == a + init;
      WithoutAppend(a, init, id);
    }
  }

  /** Extending a scanned prefix by one todo: how the last match and the filter move on. */
  lemma ScanStep(ts: seq<Todo>, id: string, i: nat)
    requires i < |ts|
    ensures LastIndexOfId(ts[..i + 1], id) == if ts[i].id == id then Some(i) else LastIndexOfId(ts[..i], id)
    ensures Without(ts[..i + 1], id) == Without(ts[..i], id) + (if ts[i].id == id then [] else [ts[i]])
  {
    assert ts[..i + 1][..i] == ts[..i];
  }

  /** Entry i has id decimal(i + 1), as CreateTodo assigns it. */
  predicate Numbered(ts: seq<Todo>) {
    forall i :: 0 <= i < |ts| ==> ts[i].id == Itoa(i + 1)
  }

  /** In a numbered sequence the ids are distinct. */
  lemma NumberedUnique(ts: seq<Todo>, j: nat, k: nat)
    requires Numbered(ts) && j < |ts| && k < |ts| && ts[j].id == ts[k].id
    ensures j == k
  {
    assert ts[j].id == Itoa(j + 1) && ts[k].id == Itoa(k + 1);
    ItoaInjective(j + 1, k + 1);
  }

  /** The entry of id decimal(k + 1) is at k and nowhere else. */
  lemma NumberedIndex(ts: seq<Todo>, k: nat)
    requires Numbered(ts) && k < |ts|
    ensures IndexOfId(ts, Itoa(k + 1)) == Some(k)
    ensures LastIndexOfId(ts, Itoa(k + 1)) == Some(k)
  {
    var id := Itoa(k + 1);
    assert ts[k].id == id;
    NumberedUnique(ts, IndexOfId(ts, id).value, k);
    NumberedUnique(ts, LastIndexOfId(ts, id).value, k);
  }
}
