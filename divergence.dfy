/** Where the Go and the Flask server answer the same request differently. */
module Divergence {
  import opened Text
  import opened Todos
  import GoServer
  import FlaskServer

  /** An update that sets `dueAt` to "" succeeds in Go and stores the empty
      string, but is rejected by Flask, whose date parser refuses "". */
  lemma EmptyDueOnUpdate(
    goTodos: seq<GoServer.GoTodo>, pyTodos: seq<FlaskServer.PyTodo>, id: string,
    goNow: GoServer.Instant, pyNow: string,
    parse: GoServer.TimeParse, fromIso: FlaskServer.IsoParse)
    requires HasId(goTodos, id) && HasId(pyTodos, id)
    requires !fromIso("")
    ensures
      var g := GoServer.Update(goTodos, id, GoServer.UpdateInput(None, Some(""), None), goNow, parse);
      g.Ok? && g.record.dueAt == Some("")
    ensures FlaskServer.Update(pyTodos, id, map["dueAt" := FlaskServer.JString("")], pyNow, fromIso).BadRequest?
  {
    assert FlaskServer.ReplaceZ("") == "";
  }

  /** An update whose `dueAt` is JSON null clears the date in Flask; in Go it
      decodes to a nil pointer, so the date is left as it was. */
  lemma NullDueOnUpdate(
    goTodos: seq<GoServer.GoTodo>, pyTodos: seq<FlaskServer.PyTodo>, id: string,
    goNow: GoServer.Instant, pyNow: string,
    parse: GoServer.TimeParse, fromIso: FlaskServer.IsoParse)
    requires HasId(goTodos, id) && HasId(pyTodos, id)
    ensures
      var g := GoServer.Update(goTodos, id, GoServer.UpdateInput(None, None, None), goNow, parse);
      g.Ok? && g.record.dueAt == goTodos[IndexOf(goTodos, id)].dueAt
    ensures
      var p := FlaskServer.Update(pyTodos, id, map["dueAt" := FlaskServer.JNull], pyNow, fromIso);
      p.Ok? && p.record.dueAt == FlaskServer.JNull
  {
  }

  /** A title made of the separator U+001C alone is a title to Go, whose
      whitespace set lacks it, and a blank title to Flask. */
  lemma SeparatorTitle(
    goTodos: seq<GoServer.GoTodo>, pyTodos: seq<FlaskServer.PyTodo>, newId: string,
    goNow: GoServer.Instant, pyNow: string,
    parse: GoServer.TimeParse, fromIso: FlaskServer.IsoParse)
    ensures
      var g := GoServer.Create(goTodos, GoServer.CreateInput("\U{1C}", None), newId, goNow, parse);
      g.Ok? && g.record.title == "\U{1C}"
    ensures
      FlaskServer.Create(pyTodos, map["title" := FlaskServer.JString("\U{1C}")], newId, pyNow, fromIso).BadRequest?
  {
    SeparatorIsNotGoSpace();
    SeparatorIsFlaskSpace();
    assert FlaskServer.TitleText(FlaskServer.JString("\U{1C}")) == Some("\U{1C}");
  }

  lemma SeparatorIsNotGoSpace()
    ensures GoServer.TrimSpace("\U{1C}") == "\U{1C}"
  {
    assert LeadingSpaces("\U{1C}", GoServer.IsSpace) == 0;
    assert TrailingSpaces("\U{1C}", GoServer.IsSpace) == 0;
  }

  lemma SeparatorIsFlaskSpace()
    ensures FlaskServer.Strip("\U{1C}") == ""
  {
    assert FlaskServer.IsSpace('\U{1C}');
  }

  /** A create whose `dueAt` is a false-valued non-string (0, false, [], {})
      passes Flask's check, and that value is stored as the date. */
  lemma FalsyDueStoredOnCreate(
    pyTodos: seq<FlaskServer.PyTodo>, title: string, due: FlaskServer.Json, newId: string,
    pyNow: string, fromIso: FlaskServer.IsoParse)
    requires FlaskServer.Strip(title) != ""
    requires !FlaskServer.Truthy(due)
    ensures
      var p := FlaskServer.Create(pyTodos, map["title" := FlaskServer.JString(title), "dueAt" := due], newId, pyNow, fromIso);
      p.Ok? && p.record.dueAt == due
  {
  }
}
