/** The todo collection shared by both servers: the record, the outcome of a
    handler, the id lookup, and the two mutations (toggle and delete) that the
    Go and the Flask server perform identically. */
module Todos {

  datatype Option<T> = None | Some(value: T)

  /** One todo record. `Due` is how the server holds `dueAt` (a nullable
      string in Go, any JSON value in Python); `Stamp` is how it holds a
      timestamp (`time.Time` in Go, an ISO string in Python). */
  datatype Todo<Due, Stamp> = Todo(
    id: string,
    title: string,
    dueAt: Due,
    completed: bool,
    createdAt: Stamp,
    updatedAt: Stamp)

  /** What a handler ends with. `Ok` carries the collection as persisted and
      the record returned in the response body. `InternalError` is an
      exception that escapes a Flask handler. */
  datatype Outcome<T> =
    | Ok(todos: seq<T>, record: T)
    | BadRequest
    | NotFound
    | StorageError
    | InternalError

  /** A mutation computed on the snapshot only takes effect if the whole
      collection could be written back; otherwise the handler reports a
      storage error. */
  function Persisted<T>(o: Outcome<T>, writeOk: bool): (r: Outcome<T>)
    ensures r.Ok? <==> o.Ok? && writeOk
    ensures !o.Ok? ==> r == o
    ensures o.Ok? && !writeOk ==> r.StorageError?
    ensures r.Ok? ==> r == o
  {
    if o.Ok? && !writeOk then StorageError else o
  }

  /** The HTTP status a handler answers with; `created` marks the POST that
      creates a record. */
  function Status<T>(o: Outcome<T>, created: bool): (code: int)
    ensures 200 <= code < 300 <==> o.Ok?
    ensures o.Ok? ==> code == (if created then 201 else 200)
    ensures o.BadRequest? <==> code == 400
    ensures o.NotFound? <==> code == 404
    ensures o.StorageError? || o.InternalError? <==> code == 500
  {
    match o
    case Ok(_, _) => if created then 201 else 200
    case BadRequest => 400
    case NotFound => 404
    case StorageError => 500
    case InternalError => 500
  }

  predicate HasId<D, S>(todos: seq<Todo<D, S>>, id: string)
  {
    exists k :: 0 <= k < |todos| && todos[k].id == id
  }

  /** No two records share an id. */
  predicate UniqueIds<D, S>(todos: seq<Todo<D, S>>)
  {
    forall i, j :: 0 <= i < j < |todos| ==> todos[i].id != todos[j].id
  }

  /** Replacing a record by one with the same id keeps the ids unique. */
  lemma ReplaceKeepsUniqueIds<D, S>(todos: seq<Todo<D, S>>, i: nat, t: Todo<D, S>)
    requires i < |todos| && t.id == todos[i].id
    ensures UniqueIds(todos) ==> UniqueIds(todos[i := t])
  {
  }

  /** Index of the first record whose id is `id`, or -1 when there is none. */
  function IndexOf<D, S>(todos: seq<Todo<D, S>>, id: string): (r: int)
    ensures -1 <= r < |todos|
    ensures r == -1 <==> !HasId(todos, id)
    ensures r >= 0 ==> todos[r].id == id
    ensures forall k :: 0 <= k < |todos| && (r == -1 || k < r) ==> todos[k].id != id
  {
    if |todos| == 0 then -1
    else if todos[0].id == id then 0
    else
      var k := IndexOf(todos[1..], id);
      if k == -1 then -1 else k + 1
  }

  /** Two collections with the same ids at the same positions agree on every lookup. */
  lemma IndexOfSameIds<D, S>(a: seq<Todo<D, S>>, b: seq<Todo<D, S>>, id: string)
    requires |a| == |b|
    requires forall k :: 0 <= k < |a| ==> a[k].id == b[k].id
    ensures IndexOf(a, id) == IndexOf(b, id)
  {
  }

  /** Toggle on a snapshot: flip `completed` of the first record with `id`
      and stamp it with `now`; 404 when the id is unknown. */
  function Toggle<D, S>(todos: seq<Todo<D, S>>, id: string, now: S): (r: Outcome<Todo<D, S>>)
    ensures r.Ok? || r.NotFound?
    ensures r.NotFound? <==> !HasId(todos, id)
    ensures r.Ok? ==>
      var i := IndexOf(todos, id);
      |r.todos| == |todos| && r.todos[i] == r.record &&
      (forall k :: 0 <= k < |todos| && k != i ==> r.todos[k] == todos[k]) &&
      r.record.completed == !todos[i].completed &&
      r.record.updatedAt == now &&
      r.record.(completed := todos[i].completed, updatedAt := todos[i].updatedAt) == todos[i]
    ensures r.Ok? && UniqueIds(todos) ==> UniqueIds(r.todos)
  {
    var i := IndexOf(todos, id);
    if i == -1 then NotFound
    else
      var t := todos[i].(completed := !todos[i].completed, updatedAt := now);
      Ok(todos[i := t], t)
  }

  /** Delete on a snapshot: remove the first record with `id`, keeping the
      order of the others, and return it as it was; 404 when the id is unknown. */
  function Delete<D, S>(todos: seq<Todo<D, S>>, id: string): (r: Outcome<Todo<D, S>>)
    ensures r.Ok? || r.NotFound?
    ensures r.NotFound? <==> !HasId(todos, id)
    ensures r.Ok? ==>
      var i := IndexOf(todos, id);
      |r.todos| == |todos| - 1 && r.record == todos[i] && r.record.id == id &&
      (forall k :: 0 <= k < i ==> r.todos[k] == todos[k]) &&
      (forall k :: i <= k < |r.todos| ==> r.todos[k] == todos[k + 1])
    ensures r.Ok? && UniqueIds(todos) ==> UniqueIds(r.todos)
  {
    var i := IndexOf(todos, id);
    if i == -1 then NotFound
    else Ok(todos[..i] + todos[i + 1..], todos[i])
  }

  /** A toggle keeps every record at its index, so a lookup after it finds
      the same index as before. */
  lemma ToggleKeepsIndex<D, S>(todos: seq<Todo<D, S>>, id: string, now: S, other: string)
    requires HasId(todos, id)
    ensures IndexOf(Toggle(todos, id, now).todos, other) == IndexOf(todos, other)
  {
    IndexOfSameIds(todos, Toggle(todos, id, now).todos, other);
  }

  /** Toggling the same record twice restores every field but `updatedAt`,
      which carries the second instant. */
  lemma ToggleTwice<D, S>(todos: seq<Todo<D, S>>, id: string, first: S, second: S)
    requires HasId(todos, id)
    ensures Toggle(todos, id, first).Ok?
    ensures
      var i := IndexOf(todos, id);
      var again := Toggle(Toggle(todos, id, first).todos, id, second);
      again.Ok? && again.todos == todos[i := todos[i].(updatedAt := second)] &&
      again.record.completed == todos[i].completed
  {
    ToggleKeepsIndex(todos, id, first, id);
    var i := IndexOf(todos, id);
    var once := todos[i := todos[i].(completed := !todos[i].completed, updatedAt := first)];
    assert once[i := todos[i].(updatedAt := second)] == todos[i := todos[i].(updatedAt := second)];
  }

  /** With unique ids, a successful delete leaves no record with that id. */
  lemma DeleteRemovesId<D, S>(todos: seq<Todo<D, S>>, id: string)
    requires UniqueIds(todos) && HasId(todos, id)
    ensures Delete(todos, id).Ok? && !HasId(Delete(todos, id).todos, id)
  {
    var i := IndexOf(todos, id);
    var rest := Delete(todos, id).todos;
    forall k | 0 <= k < |rest| ensures rest[k].id != id {
      if k >= i {
        assert rest[k] == todos[k + 1];
      }
    }
  }
}
