# Todo store: mutation layer of the Go and Flask servers

This project models the in-memory mutation layer of a small todo REST backend
that keeps its whole collection in one JSON file. The backend exists twice:
a Go server (`main.go`) and a Flask server (`app.py`). Every handler works the
same way. It reads the whole collection, finding nothing when the file cannot
be read or decoded. It looks a record up by id and validates the request.
It builds the new collection and writes all of it back through a temporary
file and a rename.

The model keeps each handler's collection logic and drops the HTTP and file
layers:

- `text.dfy` (module `Text`): trimming of leading and trailing whitespace,
  over a whitespace predicate that each server supplies.
- `todos.dfy` (module `Todos`): the record `Todo<Due, Stamp>` and a handler's
  `Outcome`, which is `Ok(collection, record)`, `BadRequest`, `NotFound`,
  `StorageError` or `InternalError`. It also holds the first-match id lookup
  `IndexOf`, and `Toggle` and `Delete` on a snapshot. Both servers toggle and
  delete in the same way.
- `go_server.dfy` (module `GoServer`): the data file as a class. Its read
  fails open and never reports an error. Its write either replaces the
  content or leaves it alone. The module also holds the layout search of
  `isValidISODate` as a loop, the search loop of `findTodoIndex`, and the
  in-place shift behind `append(todos[:idx], todos[idx+1:]...)`. `Create`
  and `Update` are the pure operations on a snapshot. The handler methods
  `UpdateTodo`, `ToggleTodo` and `DeleteTodo` mutate a fresh array the way
  the Go code mutates its slice; `CreateTodo` appends to a new sequence.
  Each of the four is proved to return
  `Persisted(<operation on the snapshot>, writeOk)` and to leave the file
  holding exactly what it returns.
- `flask_server.dfy` (module `FlaskServer`): the same for the Flask server.
  Request bodies are JSON values, so the model keeps Python's truthiness
  (`x or ''`, `if due_at`), the `isinstance` checks, and the `AttributeError`
  raised by `.strip()` on a non-string title. That error reaches the client
  as a 500, modelled as `InternalError`.
- `divergence.dfy` (module `Divergence`): lemmas about requests that the two
  servers answer differently.

Inputs from outside the program are parameters. These are the new id
(`uuid`), the current time, whether the file system let the write succeed
(`writeOk`), and whether the date library accepts a string. The date check
is `parse(layout, s)` in Go and `fromIso(s)` in Python.

Some requests get different answers from the two servers, and the model
keeps each server's own behaviour:

- On update, Go validates a supplied `dueAt` only when it is non-empty and
  stores `""` as the date. Flask rejects `""` with 400, because
  `fromisoformat("")` fails (`Divergence.EmptyDueOnUpdate`).
- Besides validation, not-found and storage errors, Flask also answers 500
  when a title is a true-valued non-string, because `.strip()` raises on it.
- Flask's create checks a date only when it is true-valued, so it stores any
  false-valued JSON value (`0`, `false`, `[]`, `{}`) as the date
  (`Divergence.FalsyDueStoredOnCreate`).
- A non-null, non-boolean `completed` on update is ignored by Flask, which still
  answers 200 (`FlaskServer.UpdateClearsDueAndIgnoresNonBool`). Go's JSON
  decoder refuses such a body with 400 before the handler logic runs; that
  decoding step is not modelled (see the request-body line under "Left out").
  A `completed` of JSON null is accepted by both: Go decodes it to a nil
  pointer and Flask's `isinstance` check skips it, so the flag is kept.

## Model

| member | source | states |
|---|---|---|
| `Todos.IndexOf` | app.py:97 | -1 exactly when no record has the id; otherwise the index of a record with that id that no earlier record shares |
| `GoServer.FindTodoIndex` | main.go:104-111 | the search loop returns the first index whose id matches, or -1 when none does, and agrees with `IndexOf` |
| `Todos.Toggle` | main.go:234-243 | 404 exactly when the id is unknown; otherwise same length, only the found index changes, `completed` flipped, `updatedAt` set to now, every other field kept; unique ids stay unique |
| `Todos.ToggleTwice` | main.go:242-243 | toggling twice restores the collection except for `updatedAt`, which carries the second instant |
| `Todos.Delete` | main.go:258-267 | 404 exactly when the id is unknown; otherwise returns the prior record and the collection without it, the records before it and after it in their old order; unique ids stay unique |
| `Todos.DeleteRemovesId` | app.py:151 | with unique ids, a delete leaves no record with the deleted id |
| `Todos.Persisted` | main.go:163-166 | a computed change is reported as a success exactly when the write succeeds; a failed write turns it into a storage error |
| `Todos.Status` | main.go:133-168 | 2xx exactly for a success (201 for a create), 400 for bad requests, 404 for unknown ids, 500 for storage and internal errors |
| `Text.Trim` | main.go:138 | the result is empty exactly when every character is whitespace; otherwise it starts and ends with a non-space and is the slice of the input between the leading and trailing whitespace |
| `GoServer.DataFile.Snapshot` | main.go:54-66 | a read that fails or cannot be decoded yields the empty collection; a decoded file yields its records |
| `GoServer.DataFile.ReadTodos` | main.go:54-66 | a fresh slice holding the snapshot, and the error result is always nil |
| `GoServer.DataFile.WriteTodos` | main.go:69-81 | a successful write replaces the file's content with the collection; a failed one reports an error and leaves the content as it was |
| `GoServer.GetTodos` | main.go:116-124 | always answers 200 with the snapshot: the 500 branch is unreachable |
| `GoServer.IsValidISODate` | main.go:84-101 | true exactly when the string is non-empty and one of the three layouts parses it; false for "" |
| `GoServer.RemoveAt` | main.go:267 | after the in-place shift, the first length-1 slots hold the elements before and after `idx` in order |
| `GoServer.Create` | main.go:138-161 | 400 exactly when the trimmed title is empty or a non-empty due date fails the date check; otherwise appends one record with the trimmed title, the given date, not completed, `createdAt == updatedAt == now`, and leaves the prior records unchanged |
| `GoServer.Update` | main.go:187-219 | 404 for an unknown id; 400 exactly when a supplied title trims to "" or a supplied non-empty date fails, with nothing changed; otherwise only the found index changes, supplied fields replace old values, unsupplied ones are kept, "" is stored as a date, `updatedAt` is now, id and `createdAt` are kept |
| `GoServer.CreateTodo` | main.go:127-169 | the handler's result is `Create` on the file's snapshot, unless the write fails; the file holds the new collection exactly when it reports success |
| `GoServer.UpdateTodo` | main.go:172-227 | the handler's result is `Update` on the snapshot, persisted; on any failure the file is unchanged |
| `GoServer.ToggleTodo` | main.go:230-251 | the handler's result is `Toggle` on the snapshot, persisted; on any failure the file is unchanged |
| `GoServer.DeleteTodo` | main.go:254-275 | the handler's result is `Delete` on the snapshot, persisted; on any failure the file is unchanged |
| `GoServer.CreateAppendsNewId` | main.go:149-161 | a create with an unused id puts the only record with that id at the end and keeps ids unique |
| `GoServer.CreateCreateDeleteLeavesSecond` | main.go:127-275 | from an empty store, creating A and B and deleting A leaves exactly [B] and returns A |
| `FlaskServer.DataFile.ReadTodos` | app.py:26-33 | a file that cannot be read or decoded, or whose document is not a list, reads as []; a stored list is returned as is |
| `FlaskServer.DataFile.WriteTodos` | app.py:35-40 | a successful write replaces the file's content; a failed one leaves it as it was |
| `FlaskServer.ReplaceZ` | app.py:47 | the result contains no `Z`; a string without `Z` is returned unchanged |
| `FlaskServer.ReplaceZConcat` | app.py:47 | the rewrite distributes over concatenation |
| `FlaskServer.ReplaceZAtZ` | app.py:47 | `"Z"` becomes `"+00:00"`, and a `Z` anywhere in a string is replaced by `+00:00` with the text on either side rewritten on its own |
| `FlaskServer.IsValidIsoDate` | app.py:42-50 | only a string can be valid; a string without `Z` is valid exactly when the ISO parser accepts it |
| `FlaskServer.ZAnywhereIsUtcOffset` | app.py:42-50 | a string with a `Z` at any position is valid exactly when the ISO parser accepts it with that `Z` replaced by `+00:00` and the text on either side rewritten the same way |
| `FlaskServer.TrailingZIsUtcOffset` | app.py:42-50 | for a `d` without `Z`, `d + "Z"` is valid exactly when the ISO parser accepts `d + "+00:00"` |
| `FlaskServer.TitleText` | app.py:65 | `(v or '')` gives a string to strip: a string title is returned as itself, a false value gives "", and a true-valued non-string raises |
| `FlaskServer.Create` | app.py:64-89 | 500 exactly when the title is a true-valued non-string; 400 exactly when the stripped title is empty or a true-valued date is not a valid date; otherwise appends one record with the stripped title and the given date, not completed, `createdAt == updatedAt == now`, prior records unchanged |
| `FlaskServer.Update` | app.py:94-122 | 404 for an unknown id; 500 when the title is a true-valued non-string; 400 exactly when the title strips to "" or a non-None date is not a valid date; otherwise only the found index changes, a present title and date replace the old ones, `completed` is replaced only by a boolean, `updatedAt` is now, id and `createdAt` are kept |
| `FlaskServer.CreateAppendsNewId` | app.py:77-86 | a create with an unused id puts the only record with that id at the end and keeps ids unique |
| `FlaskServer.CreateTodo` | app.py:61-89 | the handler's result is `Create` on the file's list, unless the write fails; the file holds the new list exactly when it reports success |
| `FlaskServer.UpdateTodo` | app.py:91-122 | the handler's result is `Update` on the file's list, persisted; on any failure the file is unchanged |
| `FlaskServer.ToggleTodo` | app.py:124-140 | the handler's result is `Toggle` on the file's list, persisted; on any failure the file is unchanged |
| `FlaskServer.DeleteTodo` | app.py:142-154 | the handler's result is `Delete` on the file's list (the popped record and the rest), persisted; on any failure the file is unchanged |
| `FlaskServer.UpdateClearsDueAndIgnoresNonBool` | app.py:109-116 | `dueAt: null` clears the date, and a non-boolean `completed` is ignored while the update still succeeds |
| `Divergence.EmptyDueOnUpdate` | app.py:109-113 | an update setting `dueAt` to "" succeeds in Go and stores "", while Flask rejects it with 400 |
| `Divergence.NullDueOnUpdate` | main.go:206-212 | a null `dueAt` leaves the date as it was in Go, while Flask clears it |
| `Divergence.SeparatorTitle` | main.go:138-142 | a title of U+001C alone creates a record in Go but is a blank title (400) in Flask |
| `Divergence.FalsyDueStoredOnCreate` | app.py:71-80 | Flask stores a false-valued non-string `dueAt` on create |

## Left out

- HTTP routing, the Flask decorators, CORS, `respondJSON` / `jsonify`, static and SPA serving, `.env` loading, `main` and `app.run`. Only each handler's outcome and its status code (`Todos.Status`) are kept.
- Request-body decoding. The Go model takes the decoded input structs, so the 400 that `json.Decoder` gives for a malformed or wrongly typed body is not modelled. The Flask model takes the body as a JSON object after `get_json() or {}`, so non-object bodies are not modelled.
- JSON serialisation and the file-system calls (`MarshalIndent`, `json.dump` / `json.load`, `WriteFile`, `Rename`, `replace`). The file is an abstract content. A write either succeeds or leaves the previous content. A half-written temporary file is not modelled, because nothing reads it.
- Records in the file that are not well-formed todos (a missing `id`, a non-boolean `completed`): the model's stored records always have every field. In Flask a non-boolean `completed` raises nowhere (`not todo['completed']` accepts any value, and update never reads the stored flag). A record without `id` makes update, toggle and delete raise when the id lookup reaches it before a match; create never raises on it. In Go, a missing field decodes to its zero value (a record without `id` is kept with `id == ""`, an ordinary decoded record), and a JSON null in a non-pointer field is skipped. Only a value of the wrong type (a non-boolean `completed`, an element that is not an object, a timestamp `time.Time` cannot parse) makes `json.Unmarshal` fail, so the whole file reads as empty: that is the `Undecodable` case of `GoServer.FileContent`.
- `ensureDataFile` / `ensure_data_file`, which create the directory and an empty `[]` file at start-up. That is start-up plumbing. A missing file reads as the empty collection in both servers anyway.
- Flask's `get_todos`: it answers 200 with `read_todos()`, which is `FlaskServer.DataFile.ReadTodos`.
- `uuid.New()` / `uuid.uuid4()`, `time.Now()` / `datetime.now()`: these are parameters. Go's `time.Time` is an integer instant, and Python's `isoformat()` is an opaque string.
- The internals of `time.Parse` and `datetime.fromisoformat`: these are function parameters.
- JSON numbers are reals. Python's split between `int` and `float` is not modelled, because only truthiness matters here.
- The lost update when two requests read, modify and write concurrently: neither server has any locking, and the model has no concurrency.
- `GoServer.CreateTodo`: Go's `append` may extend the existing backing array in place. The model builds a new sequence, which is not observable by the handler.
