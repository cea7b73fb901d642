/** The Go server (main.go): its data file with the fail-open read and the
    atomic write, its date check, its id search, and its five handlers with
    the HTTP and JSON layers stripped off. */
module GoServer {
  import opened Text
  import opened Todos

  /** A `time.Time` instant; the server only copies it, never inspects it. */
  type Instant = int

  /** A record as Go holds it: `DueAt` is a `*string`, absent when nil. */
  type GoTodo = Todo<Option<string>, Instant>

  /** `time.Parse(layout, value)` succeeds: library behaviour, supplied by the caller. */
  type TimeParse = (string, string) -> bool

  /** What the data file holds, as `ioutil.ReadFile` and `json.Unmarshal` see it. */
  datatype FileContent =
    | Unreadable               // ReadFile fails (the file is missing, say)
    | Undecodable              // Unmarshal into []Todo fails
    | Decoded(todos: seq<GoTodo>)

  /** The data file `data/todos.json`. */
  class DataFile {
    var content: FileContent

    constructor (content: FileContent)
      ensures this.content == content
    {
      this.content := content;
    }

    /** The collection a read yields: fail-open, so any failure reads as empty. */
    function Snapshot(): (todos: seq<GoTodo>)
      reads this
      ensures content.Decoded? ==> todos == content.todos
      ensures todos != [] ==> content.Decoded?
    {
      if content.Decoded? then content.todos else []
    }

    /** `readTodos`: a fresh slice holding the snapshot, and never an error. */
    method ReadTodos() returns (todos: array<GoTodo>, err: bool)
      ensures fresh(todos) && todos[..] == Snapshot()
      ensures !err
    {
      var s := Snapshot();
      todos := new GoTodo[|s|](i requires 0 <= i < |s| => s[i]);
      err := false;
    }

    /** `writeTodos`: write a temporary file and rename it over the data
        file. `writeOk` says whether the file system let both steps succeed;
        when it did not, the data file keeps its previous content. */
    method WriteTodos(todos: seq<GoTodo>, writeOk: bool) returns (err: bool)
      modifies this
      ensures err == !writeOk
      ensures content == if writeOk then Decoded(todos) else old(content)
    {
      if writeOk {
        content := Decoded(todos);
      }
      err := !writeOk;
    }
  }

  /** `unicode.IsSpace`, the whitespace `strings.TrimSpace` removes. */
  predicate IsSpace(c: char)
  {
    c == ' ' || '\t' <= c <= '\r' ||
    c as int == 0x85 || c as int == 0xA0 || c as int == 0x1680 ||
    0x2000 <= c as int <= 0x200A ||
    c as int == 0x2028 || c as int == 0x2029 || c as int == 0x202F ||
    c as int == 0x205F || c as int == 0x3000
  }

  function TrimSpace(s: string): string
  {
    Trim(s, IsSpace)
  }

  /** The layouts `isValidISODate` tries, in order: `time.RFC3339`, then
      seconds and minutes precision without an offset. */
  const Layouts: seq<string> := ["2006-01-02T15:04:05Z07:00", "2006-01-02T15:04:05", "2006-01-02T15:04"]

  /** A date string is valid when it is not empty and some layout parses it. */
  predicate ValidISODate(parse: TimeParse, s: string)
  {
    s != "" && exists k :: 0 <= k < |Layouts| && parse(Layouts[k], s)
  }

  /** `isValidISODate`: the emptiness check, then a search over the layouts. */
  method IsValidISODate(parse: TimeParse, dateStr: string) returns (ok: bool)
    ensures ok <==> ValidISODate(parse, dateStr)
    ensures dateStr == "" ==> !ok
  {
    if dateStr == "" {
      return false;
    }
    var k := 0;
    while k < |Layouts|
      invariant 0 <= k <= |Layouts|
      invariant forall j :: 0 <= j < k ==> !parse(Layouts[j], dateStr)
    {
      if parse(Layouts[k], dateStr) {
        return true;
      }
      k := k + 1;
    }
    return false;
  }

  /** `findTodoIndex`: a linear search that stops at the first match. */
  method FindTodoIndex(todos: array<GoTodo>, id: string) returns (idx: int)
    ensures idx == IndexOf(todos[..], id)
    ensures -1 <= idx < todos.Length
    ensures idx >= 0 ==> todos[idx].id == id
    ensures forall k :: 0 <= k < todos.Length && (idx == -1 || k < idx) ==> todos[k].id != id
  {
    var i := 0;
    while i < todos.Length
      invariant 0 <= i <= todos.Length
      invariant forall k :: 0 <= k < i ==> todos[k].id != id
    {
      if todos[i].id == id {
        return i;
      }
      i := i + 1;
    }
    return -1;
  }

  /** `append(a[:idx], a[idx+1:]...)`: shift the elements after `idx` one
      place to the left, in the same backing array. The last slot keeps its
      old element; the caller's slice ends before it. */
  method RemoveAt<T>(a: array<T>, idx: nat)
    requires idx < a.Length
    modifies a
    ensures a[..a.Length - 1] == old(a[..idx]) + old(a[idx + 1..])
    ensures a[a.Length - 1] == old(a[a.Length - 1])
  {
    var k := idx;
    while k + 1 < a.Length
      invariant idx <= k < a.Length
      invariant forall j :: 0 <= j < idx ==> a[j] == old(a[j])
      invariant forall j :: idx <= j < k ==> a[j] == old(a[j + 1])
      invariant forall j :: k <= j < a.Length ==> a[j] == old(a[j])
    {
      a[k] := a[k + 1];
      k := k + 1;
    }
  }

  /** The body of a create request once decoded: a missing title decodes to "". */
  datatype CreateInput = CreateInput(title: string, dueAt: Option<string>)

  /** The body of an update request once decoded: each field may be absent (nil). */
  datatype UpdateInput = UpdateInput(title: Option<string>, dueAt: Option<string>, completed: Option<bool>)

  /** A supplied `dueAt` is rejected when it is neither empty nor a valid date. */
  predicate RejectsDue(parse: TimeParse, dueAt: Option<string>)
  {
    dueAt.Some? && dueAt.value != "" && !ValidISODate(parse, dueAt.value)
  }

  /** Create on a snapshot: trim and check the title, check the due date,
      append a fresh, uncompleted record stamped with `now`. */
  function Create(todos: seq<GoTodo>, input: CreateInput, newId: string, now: Instant, parse: TimeParse): (r: Outcome<GoTodo>)
    ensures r.Ok? || r.BadRequest?
    ensures r.BadRequest? <==> TrimSpace(input.title) == "" || RejectsDue(parse, input.dueAt)
    ensures r.Ok? ==>
      |r.todos| == |todos| + 1 && r.todos[..|todos|] == todos && r.todos[|todos|] == r.record &&
      r.record.id == newId && r.record.title == TrimSpace(input.title) && r.record.title != "" &&
      r.record.dueAt == input.dueAt && !r.record.completed &&
      r.record.createdAt == now && r.record.updatedAt == now
  {
    var title := TrimSpace(input.title);
    if title == "" then BadRequest
    else if RejectsDue(parse, input.dueAt) then BadRequest
    else
      var t := Todo(newId, title, input.dueAt, false, now, now);
      Ok(todos + [t], t)
  }

  /** Update on a snapshot: 404 for an unknown id; a supplied title must trim
      to something and a supplied non-empty due date must parse, else 400
      with nothing changed; supplied fields replace the old ones, the others
      stay, and the record stays at its index. */
  function Update(todos: seq<GoTodo>, id: string, input: UpdateInput, now: Instant, parse: TimeParse): (r: Outcome<GoTodo>)
    ensures r.Ok? || r.BadRequest? || r.NotFound?
    ensures r.NotFound? <==> !HasId(todos, id)
    ensures r.BadRequest? <==>
      HasId(todos, id) &&
      ((input.title.Some? && TrimSpace(input.title.value) == "") || RejectsDue(parse, input.dueAt))
    ensures r.Ok? ==>
      var i := IndexOf(todos, id);
      var prior := todos[i];
      |r.todos| == |todos| && r.todos[i] == r.record &&
      (forall k :: 0 <= k < |todos| && k != i ==> r.todos[k] == todos[k]) &&
      r.record.id == prior.id && r.record.createdAt == prior.createdAt && r.record.updatedAt == now &&
      r.record.title == (if input.title.Some? then TrimSpace(input.title.value) else prior.title) &&
      r.record.dueAt == (if input.dueAt.Some? then input.dueAt else prior.dueAt) &&
      r.record.completed == (if input.completed.Some? then input.completed.value else prior.completed)
    ensures r.Ok? && UniqueIds(todos) ==> UniqueIds(r.todos)
  {
    var i := IndexOf(todos, id);
    if i == -1 then NotFound
    else if input.title.Some? && TrimSpace(input.title.value) == "" then BadRequest
    else if RejectsDue(parse, input.dueAt) then BadRequest
    else
      var t := todos[i];
      var t := if input.title.Some? then t.(title := TrimSpace(input.title.value)) else t;
      var t := if input.dueAt.Some? then t.(dueAt := input.dueAt) else t;
      var t := if input.completed.Some? then t.(completed := input.completed.value) else t;
      var t := t.(updatedAt := now);
      Ok(todos[i := t], t)
  }

  /** `getTodos`: the error branch answering 500 can never be taken. */
  method GetTodos(file: DataFile) returns (status: int, data: seq<GoTodo>)
    ensures status == 200
    ensures data == file.Snapshot()
  {
    var todos, err := file.ReadTodos();
    status := if err then 500 else 200;
    data := todos[..];
  }

  /** `createTodo`. */
  method CreateTodo(file: DataFile, input: CreateInput, newId: string, now: Instant, parse: TimeParse, writeOk: bool)
    returns (out: Outcome<GoTodo>)
    modifies file
    ensures out == Persisted(Create(old(file.Snapshot()), input, newId, now, parse), writeOk)
    ensures file.content == if out.Ok? then Decoded(out.todos) else old(file.content)
  {
    var title := TrimSpace(input.title);
    if title == "" {
      return BadRequest;
    }
    if input.dueAt.Some? && input.dueAt.value != "" {
      var valid := IsValidISODate(parse, input.dueAt.value);
      if !valid {
        return BadRequest;
      }
    }
    var todos, _ := file.ReadTodos();
    var newTodo := Todo(newId, title, input.dueAt, false, now, now);
    var next := todos[..] + [newTodo];
    var err := file.WriteTodos(next, writeOk);
    if err {
      return StorageError;
    }
    return Ok(next, newTodo);
  }

  /** `updateTodo`: edits a copy of the record field by field and assigns it
      back only once every check has passed. */
  method UpdateTodo(file: DataFile, id: string, input: UpdateInput, now: Instant, parse: TimeParse, writeOk: bool)
    returns (out: Outcome<GoTodo>)
    modifies file
    ensures out == Persisted(Update(old(file.Snapshot()), id, input, now, parse), writeOk)
    ensures file.content == if out.Ok? then Decoded(out.todos) else old(file.content)
  {
    var todos, _ := file.ReadTodos();
    var idx := FindTodoIndex(todos, id);
    if idx == -1 {
      return NotFound;
    }
    var todo := todos[idx];
    if input.title.Some? {
      var title := TrimSpace(input.title.value);
      if title == "" {
        return BadRequest;
      }
      todo := todo.(title := title);
    }
    if input.dueAt.Some? {
      if input.dueAt.value != "" {
        var valid := IsValidISODate(parse, input.dueAt.value);
        if !valid {
          return BadRequest;
        }
      }
      todo := todo.(dueAt := input.dueAt);
    }
    if input.completed.Some? {
      todo := todo.(completed := input.completed.value);
    }
    todo := todo.(updatedAt := now);
    todos[idx] := todo;
    var err := file.WriteTodos(todos[..], writeOk);
    if err {
      return StorageError;
    }
    return Ok(todos[..], todo);
  }

  /** `toggleTodo`: flips the flag of the element in place. */
  method ToggleTodo(file: DataFile, id: string, now: Instant, writeOk: bool) returns (out: Outcome<GoTodo>)
    modifies file
    ensures out == Persisted(Toggle(old(file.Snapshot()), id, now), writeOk)
    ensures file.content == if out.Ok? then Decoded(out.todos) else old(file.content)
  {
    var todos, _ := file.ReadTodos();
    var idx := FindTodoIndex(todos, id);
    if idx == -1 {
      return NotFound;
    }
    todos[idx] := todos[idx].(completed := !todos[idx].completed);
    todos[idx] := todos[idx].(updatedAt := now);
    var err := file.WriteTodos(todos[..], writeOk);
    if err {
      return StorageError;
    }
    return Ok(todos[..], todos[idx]);
  }

  /** `deleteTodo`: remembers the record, then shifts it out of the slice. */
  method DeleteTodo(file: DataFile, id: string, writeOk: bool) returns (out: Outcome<GoTodo>)
    modifies file
    ensures out == Persisted(Delete(old(file.Snapshot()), id), writeOk)
    ensures file.content == if out.Ok? then Decoded(out.todos) else old(file.content)
  {
    var todos, _ := file.ReadTodos();
    var idx := FindTodoIndex(todos, id);
    if idx == -1 {
      return NotFound;
    }
    var removed := todos[idx];
    RemoveAt(todos, idx);
    var rest := todos[..todos.Length - 1];
    var err := file.WriteTodos(rest, writeOk);
    if err {
      return StorageError;
    }
    return Ok(rest, removed);
  }

  /** A create with an id not yet in use appends the only record with that
      id, and keeps the ids unique. */
  lemma CreateAppendsNewId(todos: seq<GoTodo>, input: CreateInput, newId: string, now: Instant, parse: TimeParse)
    requires !HasId(todos, newId)
    requires Create(todos, input, newId, now, parse).Ok?
    ensures IndexOf(Create(todos, input, newId, now, parse).todos, newId) == |todos|
    ensures UniqueIds(todos) ==> UniqueIds(Create(todos, input, newId, now, parse).todos)
  {
    var next := Create(todos, input, newId, now, parse).todos;
    assert next[|todos|].id == newId;
    forall k | 0 <= k < |todos| ensures next[k].id != newId {
      assert next[k] == todos[k];
    }
  }

  /** Starting from an empty store: create "A", create "B", delete A; what
      remains is exactly B, and the delete returns A. */
  lemma CreateCreateDeleteLeavesSecond(idA: string, idB: string, t1: Instant, t2: Instant, parse: TimeParse)
    requires idA != idB
    ensures
      var first := Create([], CreateInput("A", None), idA, t1, parse);
      first.Ok? &&
      var second := Create(first.todos, CreateInput("B", None), idB, t2, parse);
      second.Ok? &&
      Delete(second.todos, idA) == Ok([second.record], first.record) &&
      second.record.title == "B"
  {
    assert TrimSpace("A") == "A" by {
      assert LeadingSpaces("A", IsSpace) == 0;
      assert TrailingSpaces("A", IsSpace) == 0;
    }
    assert TrimSpace("B") == "B" by {
      assert LeadingSpaces("B", IsSpace) == 0;
      assert TrailingSpaces("B", IsSpace) == 0;
    }
    var first := Create([], CreateInput("A", None), idA, t1, parse);
    var second := Create(first.todos, CreateInput("B", None), idB, t2, parse);
    assert second.todos[0].id == idA;
    assert IndexOf(second.todos, idA) == 0;
  }
}
