/** The Flask server (app.py): its data file with the fail-open read and the
    atomic write, its date check, and its mutating handlers with the HTTP
    layer stripped off. Request bodies are JSON values, so a field may hold
    something other than the string or boolean the handler expects. */
module FlaskServer {
  import opened Text
  import opened Todos

  /** A decoded JSON value, as `request.get_json()` hands it to the handler. */
  datatype Json =
    | JNull
    | JBool(b: bool)
    | JNumber(n: real)
    | JString(s: string)
    | JArray(items: seq<Json>)
    | JObject(fields: map<string, Json>)

  /** Python's truth value of the decoded value: None, False, zero and empty
      strings, lists and dicts are false. */
  predicate Truthy(v: Json)
  {
    match v
    case JNull => false
    case JBool(b) => b
    case JNumber(n) => n != 0.0
    case JString(s) => s != ""
    case JArray(items) => |items| > 0
    case JObject(fields) => |fields| > 0
  }

  /** A record as Flask holds it: `dueAt` is whatever JSON value was stored,
      timestamps are `datetime.isoformat()` strings. */
  type PyTodo = Todo<Json, string>

  /** `datetime.fromisoformat(s)` succeeds: library behaviour, supplied by the caller. */
  type IsoParse = string -> bool

  /** What the data file holds, as `open` and `json.load` see it. */
  datatype FileContent =
    | Unreadable               // open or read raises
    | Undecodable              // json.load raises
    | NotAList                 // valid JSON, but not a list
    | TodoList(todos: seq<PyTodo>)

  /** The data file `data/todos.json`. */
  class DataFile {
    var content: FileContent

    constructor (content: FileContent)
      ensures this.content == content
    {
      this.content := content;
    }

    /** `read_todos`: any exception, and any document that is not a list,
        reads as the empty list. */
    function ReadTodos(): (todos: seq<PyTodo>)
      reads this
      ensures content.TodoList? ==> todos == content.todos
      ensures todos != [] ==> content.TodoList?
    {
      match content
      case TodoList(todos) => todos
      case _ => []
    }

    /** `write_todos`: dump into a temporary file and replace the data file
        with it. `writeOk` says whether both steps succeeded; a failure
        raises, and leaves the data file as it was. */
    method WriteTodos(todos: seq<PyTodo>, writeOk: bool) returns (ok: bool)
      modifies this
      ensures ok == writeOk
      ensures content == if writeOk then TodoList(todos) else old(content)
    {
      if writeOk {
        content := TodoList(todos);
      }
      ok := writeOk;
    }
  }

  /** `str.isspace`, the whitespace `str.strip()` removes; unlike Go's it
      includes the separators U+001C to U+001F. */
  predicate IsSpace(c: char)
  {
    '\t' <= c <= '\r' || 0x1C <= c as int <= 0x20 ||
    c as int == 0x85 || c as int == 0xA0 || c as int == 0x1680 ||
    0x2000 <= c as int <= 0x200A ||
    c as int == 0x2028 || c as int == 0x2029 || c as int == 0x202F ||
    c as int == 0x205F || c as int == 0x3000
  }

  function Strip(s: string): string
  {
    Trim(s, IsSpace)
  }

  /** `s.replace('Z', '+00:00')`: every `Z`, not only a trailing one. */
  function ReplaceZ(s: string): (r: string)
    ensures |r| >= |s|
    ensures forall k :: 0 <= k < |r| ==> r[k] != 'Z'
    ensures (forall k :: 0 <= k < |s| ==> s[k] != 'Z') ==> r == s
  {
    if s == "" then ""
    else (if s[0] == 'Z' then "+00:00" else [s[0]]) + ReplaceZ(s[1..])
  }

  /** The rewrite works character by character, so it distributes over concatenation. */
  lemma {:induction false} ReplaceZConcat(a: string, b: string)
    ensures ReplaceZ(a + b) == ReplaceZ(a) + ReplaceZ(b)
  {
    if a == "" {
      assert a + b == b;
    } else {
      assert (a + b)[0] == a[0];
      assert (a + b)[1..] == a[1..] + b;
      ReplaceZConcat(a[1..], b);
    }
  }

  /** Each `Z` becomes `+00:00`, and the text around it is rewritten on its own. */
  lemma ReplaceZAtZ(a: string, b: string)
    ensures ReplaceZ("Z") == "+00:00"
    ensures ReplaceZ(a + "Z" + b) == ReplaceZ(a) + "+00:00" + ReplaceZ(b)
  {
    assert ("Z" + b)[0] == 'Z' && ("Z" + b)[1..] == b;
    assert a + "Z" + b == a + ("Z" + b);
    ReplaceZConcat(a, "Z" + b);
  }

  /** `is_valid_iso_date`: only a string can be valid, and a string is valid
      when `fromisoformat` accepts it with its `Z`s rewritten. */
  function IsValidIsoDate(v: Json, fromIso: IsoParse): (ok: bool)
    ensures ok ==> v.JString?
    ensures v.JString? && (forall k :: 0 <= k < |v.s| ==> v.s[k] != 'Z') ==> (ok <==> fromIso(v.s))
  {
    v.JString? && fromIso(ReplaceZ(v.s))
  }

  /** A date ending in `Z` is checked with the UTC offset spelled out:
      "2024-01-01T10:00:00Z" is valid exactly when "2024-01-01T10:00:00+00:00" parses. */
  lemma TrailingZIsUtcOffset(d: string, fromIso: IsoParse)
    requires forall k :: 0 <= k < |d| ==> d[k] != 'Z'
    ensures IsValidIsoDate(JString(d + "Z"), fromIso) <==> fromIso(d + "+00:00")
  {
    assert d + "Z" == d + "Z" + "";
    ReplaceZAtZ(d, "");
    assert ReplaceZ(d) == d;
    assert ReplaceZ(d) + "+00:00" + ReplaceZ("") == d + "+00:00";
  }

  /** A `Z` anywhere in the string, not only at its end, is checked as the
      offset `+00:00`, with the text before and after it rewritten on its own. */
  lemma ZAnywhereIsUtcOffset(a: string, b: string, fromIso: IsoParse)
    ensures IsValidIsoDate(JString(a + "Z" + b), fromIso) <==> fromIso(ReplaceZ(a) + "+00:00" + ReplaceZ(b))
  {
    ReplaceZAtZ(a, b);
  }

  /** `body.get(key)`: None when the key is absent. */
  function Get(body: map<string, Json>, key: string): Json
  {
    if key in body then body[key] else JNull
  }

  /** `(v or '')`, ready for `.strip()`: a false value becomes "", a string
      stays; any other true value has no `strip` method, so the handler raises. */
  function TitleText(v: Json): (r: Option<string>)
    ensures r.None? <==> Truthy(v) && !v.JString?
    ensures r.Some? && r.value != "" ==> v == JString(r.value)
    ensures v.JString? ==> r == Some(v.s)
    ensures !Truthy(v) ==> r == Some("")
  {
    if !Truthy(v) then Some("")
    else if v.JString? then Some(v.s)
    else None
  }

  /** A create's date is rejected when it is true-valued and not a valid date. */
  predicate CreateRejectsDue(body: map<string, Json>, fromIso: IsoParse)
  {
    Truthy(Get(body, "dueAt")) && !IsValidIsoDate(Get(body, "dueAt"), fromIso)
  }

  /** Create on a snapshot: strip and check the title, check the date, append
      a fresh, uncompleted record whose two timestamps are both `now`. */
  function Create(todos: seq<PyTodo>, body: map<string, Json>, newId: string, now: string, fromIso: IsoParse): (r: Outcome<PyTodo>)
    ensures r.Ok? || r.BadRequest? || r.InternalError?
    ensures r.InternalError? <==> TitleText(Get(body, "title")).None?
    ensures r.BadRequest? <==>
      TitleText(Get(body, "title")).Some? &&
      (Strip(TitleText(Get(body, "title")).value) == "" || CreateRejectsDue(body, fromIso))
    ensures r.Ok? ==>
      |r.todos| == |todos| + 1 && r.todos[..|todos|] == todos && r.todos[|todos|] == r.record &&
      Get(body, "title") == JString(TitleText(Get(body, "title")).value) &&
      r.record.id == newId && r.record.title == Strip(Get(body, "title").s) && r.record.title != "" &&
      r.record.dueAt == Get(body, "dueAt") && !r.record.completed &&
      r.record.createdAt == now && r.record.updatedAt == now
  {
    match TitleText(Get(body, "title"))
    case None => InternalError
    case Some(text) =>
      var title := Strip(text);
      if title == "" then BadRequest
      else if CreateRejectsDue(body, fromIso) then BadRequest
      else
        var t := Todo(newId, title, Get(body, "dueAt"), false, now, now);
        Ok(todos + [t], t)
  }

  /** A create with an unused id puts the only record with that id at the
      end, so ids that were unique stay unique. */
  lemma CreateAppendsNewId(todos: seq<PyTodo>, body: map<string, Json>, newId: string, now: string, fromIso: IsoParse)
    requires !HasId(todos, newId)
    requires Create(todos, body, newId, now, fromIso).Ok?
    ensures IndexOf(Create(todos, body, newId, now, fromIso).todos, newId) == |todos|
    ensures UniqueIds(todos) ==> UniqueIds(Create(todos, body, newId, now, fromIso).todos)
  {
    var next := Create(todos, body, newId, now, fromIso).todos;
    assert next[|todos|].id == newId;
    forall k | 0 <= k < |todos| ensures next[k].id != newId {
      assert next[k] == todos[k];
    }
  }

  /** An update's title raises when it is present, true-valued and not a string. */
  predicate TitleRaises(body: map<string, Json>)
  {
    "title" in body && TitleText(body["title"]).None?
  }

  /** An update's title is rejected when it is present and strips to "". */
  predicate TitleBlank(body: map<string, Json>)
  {
    "title" in body && TitleText(body["title"]).Some? && Strip(TitleText(body["title"]).value) == ""
  }

  /** An update's date is rejected when it is present, not None, and not a
      valid date; "" is not a valid date. */
  predicate UpdateRejectsDue(body: map<string, Json>, fromIso: IsoParse)
  {
    "dueAt" in body && !body["dueAt"].JNull? && !IsValidIsoDate(body["dueAt"], fromIso)
  }

  /** Update on a snapshot: 404 for an unknown id; then the title (which may
      raise or be rejected) and the date are checked before anything is
      stored; `completed` is applied only when it is a boolean. The record
      stays at its index and the others are unchanged. */
  function Update(todos: seq<PyTodo>, id: string, body: map<string, Json>, now: string, fromIso: IsoParse): (r: Outcome<PyTodo>)
    ensures r.Ok? || r.BadRequest? || r.NotFound? || r.InternalError?
    ensures r.NotFound? <==> !HasId(todos, id)
    ensures r.InternalError? <==> HasId(todos, id) && TitleRaises(body)
    ensures r.BadRequest? <==>
      HasId(todos, id) && !TitleRaises(body) && (TitleBlank(body) || UpdateRejectsDue(body, fromIso))
    ensures r.Ok? ==>
      var i := IndexOf(todos, id);
      |r.todos| == |todos| && r.todos[i] == r.record &&
      forall k :: 0 <= k < |todos| && k != i ==> r.todos[k] == todos[k]
    ensures r.Ok? ==>
      var prior := todos[IndexOf(todos, id)];
      r.record.id == prior.id && r.record.createdAt == prior.createdAt && r.record.updatedAt == now
    ensures r.Ok? ==>
      var prior := todos[IndexOf(todos, id)];
      r.record.title == (if "title" in body then Strip(body["title"].s) else prior.title) &&
      r.record.dueAt == (if "dueAt" in body then body["dueAt"] else prior.dueAt) &&
      r.record.completed == (if "completed" in body && body["completed"].JBool? then body["completed"].b else prior.completed)
    ensures r.Ok? && UniqueIds(todos) ==> UniqueIds(r.todos)
  {
    var i := IndexOf(todos, id);
    if i == -1 then NotFound
    else if TitleRaises(body) then InternalError
    else if TitleBlank(body) then BadRequest
    else if UpdateRejectsDue(body, fromIso) then BadRequest
    else
      var t := todos[i];
      var t := if "title" in body then t.(title := Strip(TitleText(body["title"]).value)) else t;
      var t := if "dueAt" in body then t.(dueAt := body["dueAt"]) else t;
      var t := if "completed" in body && body["completed"].JBool? then t.(completed := body["completed"].b) else t;
      var t := t.(updatedAt := now);
      ReplaceKeepsUniqueIds(todos, i, t);
      Ok(todos[i := t], t)
  }

  /** `create_todo`; a failed write raises, which Flask answers with 500. */
  method CreateTodo(file: DataFile, body: map<string, Json>, newId: string, now: string, fromIso: IsoParse, writeOk: bool)
    returns (out: Outcome<PyTodo>)
    modifies file
    ensures out == Persisted(Create(old(file.ReadTodos()), body, newId, now, fromIso), writeOk)
    ensures file.content == if out.Ok? then TodoList(out.todos) else old(file.content)
  {
    var text := TitleText(Get(body, "title"));
    if text.None? {
      return InternalError;
    }
    var title := Strip(text.value);
    var dueAt := Get(body, "dueAt");
    if title == "" {
      return BadRequest;
    }
    if Truthy(dueAt) && !IsValidIsoDate(dueAt, fromIso) {
      return BadRequest;
    }
    var todos := file.ReadTodos();
    var newTodo := Todo(newId, title, dueAt, false, now, now);
    todos := todos + [newTodo];
    var ok := file.WriteTodos(todos, writeOk);
    if !ok {
      return StorageError;
    }
    return Ok(todos, newTodo);
  }

  /** `update_todo`: edits a copy of the record and stores it back at its
      index only once every check has passed. */
  method UpdateTodo(file: DataFile, id: string, body: map<string, Json>, now: string, fromIso: IsoParse, writeOk: bool)
    returns (out: Outcome<PyTodo>)
    modifies file
    ensures out == Persisted(Update(old(file.ReadTodos()), id, body, now, fromIso), writeOk)
    ensures file.content == if out.Ok? then TodoList(out.todos) else old(file.content)
  {
    var todos := file.ReadTodos();
    ghost var spec := Update(todos, id, body, now, fromIso);
    var idx := IndexOf(todos, id);
    if idx == -1 {
      return NotFound;
    }
    var todo := todos[idx];
    if "title" in body {
      var text := TitleText(body["title"]);
      if text.None? {
        assert spec == InternalError;
        return InternalError;
      }
      var title := Strip(text.value);
      if title == "" {
        assert spec == BadRequest;
        return BadRequest;
      }
      todo := todo.(title := title);
    }
    assert !TitleRaises(body) && !TitleBlank(body);
    if "dueAt" in body {
      var dueAt := body["dueAt"];
      if !dueAt.JNull? && !IsValidIsoDate(dueAt, fromIso) {
        assert spec == BadRequest;
        return BadRequest;
      }
      todo := todo.(dueAt := dueAt);
    }
    if "completed" in body && body["completed"].JBool? {
      todo := todo.(completed := body["completed"].b);
    }
    todo := todo.(updatedAt := now);
    todos := todos[idx := todo];
    assert spec == Ok(todos, todo);
    var ok := file.WriteTodos(todos, writeOk);
    if !ok {
      return StorageError;
    }
    return Ok(todos, todo);
  }

  /** `toggle_todo`: flips the flag on a copy and stores it back at its index. */
  method ToggleTodo(file: DataFile, id: string, now: string, writeOk: bool) returns (out: Outcome<PyTodo>)
    modifies file
    ensures out == Persisted(Toggle(old(file.ReadTodos()), id, now), writeOk)
    ensures file.content == if out.Ok? then TodoList(out.todos) else old(file.content)
  {
    var todos := file.ReadTodos();
    var idx := IndexOf(todos, id);
    if idx == -1 {
      return NotFound;
    }
    var todo := todos[idx];
    todo := todo.(completed := !todo.completed);
    todo := todo.(updatedAt := now);
    todos := todos[idx := todo];
    var ok := file.WriteTodos(todos, writeOk);
    if !ok {
      return StorageError;
    }
    return Ok(todos, todo);
  }

  /** `delete_todo`: pops the record at its index. */
  method DeleteTodo(file: DataFile, id: string, writeOk: bool) returns (out: Outcome<PyTodo>)
    modifies file
    ensures out == Persisted(Delete(old(file.ReadTodos()), id), writeOk)
    ensures file.content == if out.Ok? then TodoList(out.todos) else old(file.content)
  {
    var todos := file.ReadTodos();
    var idx := IndexOf(todos, id);
    if idx == -1 {
      return NotFound;
    }
    var removed := todos[idx];
    todos := todos[..idx] + todos[idx + 1..];
    var ok := file.WriteTodos(todos, writeOk);
    if !ok {
      return StorageError;
    }
    return Ok(todos, removed);
  }

  /** `"dueAt": null` clears the date; a non-boolean `completed` is ignored
      and the update still succeeds. */
  lemma UpdateClearsDueAndIgnoresNonBool(todos: seq<PyTodo>, id: string, flag: Json, now: string, fromIso: IsoParse)
    requires HasId(todos, id)
    requires !flag.JBool?
    ensures
      var r := Update(todos, id, map["dueAt" := JNull, "completed" := flag], now, fromIso);
      r.Ok? && r.record.dueAt == JNull && r.record.completed == todos[IndexOf(todos, id)].completed
  {
    var body := map["dueAt" := JNull, "completed" := flag];
    assert "title" !in body && body["dueAt"] == JNull && body["completed"] == flag;
    assert !TitleRaises(body) && !TitleBlank(body) && !UpdateRejectsDue(body, fromIso);
  }
}
