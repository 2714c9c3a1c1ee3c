/** Sessions with the controller whose outcome follows from the handlers'
    contracts alone. */
module Scenarios {
  import opened Wrappers
  import opened Text
  import opened Tasks
  import opened View
  import opened App

  /** Add "buy milk", complete it, clear it; clearing again finds nothing. */
  method BuyMilk(now: Id, stamp: Timestamp) {
    var app := new TodoApp(None);
    TrimNoEdge("buy milk");
    var alert := app.AddTodo("buy milk", now, stamp);
    assert alert == None;
    assert app.todos == [Task(now, "buy milk", false, stamp)];

    app.ToggleTodo(now);
    assert IsFirstMatch([Task(now, "buy milk", false, stamp)], now, 0);
    assert app.todos == [Task(now, "buy milk", true, stamp)];
    assert CountsOf(app.todos) == Counts(1, 0, 1);

    alert := app.ClearCompleted(true);
    assert alert == None && app.todos == [] && app.storage == Some([]);

    alert := app.ClearCompleted(true);
    assert alert == Some(NothingToClear);
  }

  /** Newest first; the filters then show what they should. */
  method NewestFirst(a: Id, b: Id, stamp: Timestamp) {
    var app := new TodoApp(None);
    TrimNoEdge("a");
    TrimNoEdge("b");
    var alert := app.AddTodo("a", a, stamp);
    alert := app.AddTodo("b", b, stamp);
    var ta, tb := Task(a, "a", false, stamp), Task(b, "b", false, stamp);
    assert app.todos == [tb, ta];

    app.SetFilter(ActiveFilter);
    FilterKeepsAll([tb, ta], IsActive);
    assert Visible(app.todos, app.currentFilter) == [tb, ta];

    app.ToggleTodo(b);
    assert IsFirstMatch([tb, ta], b, 0) && !IsFirstMatch([tb, ta], b, 1);
    assert app.todos == [Flip(tb), ta];
    app.SetFilter(CompletedFilter);
    FilterKeepsNone([ta], IsCompleted);
    assert [Flip(tb), ta][1..] == [ta];
    assert Completed([Flip(tb), ta]) == [Flip(tb)] + Filter([ta], IsCompleted);
    assert Visible(app.todos, app.currentFilter) == [Flip(tb)];
  }

  /** Committing a blank edit is refused: the text and the edit cursor stay. */
  method BlankEdit(id: Id, stamp: Timestamp) {
    var app := new TodoApp(Some([Task(id, "a", false, stamp)]));
    app.EditTodo(id);
    TrimEmptyIff("   ");
    var alert := app.SaveTodoEdit(id, "   ");
    assert alert == Some(TaskCannotBeEmpty);
    assert app.todos == [Task(id, "a", false, stamp)] && app.editingId == Some(id);
  }

  /** What is saved is what the next session loads. */
  method SaveThenLoad(ts: seq<Task>) {
    var first := new TodoApp(Some(ts));
    first.SaveTodos();
    var second := new TodoApp(first.storage);
    assert second.todos == ts;
  }
}
