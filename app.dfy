/** The `TodoApp` controller: the task list, the filter selection and the
    edit cursor, and the handlers that change them. The browser is reduced
    to values: the answer of `confirm` is a `bool` argument, `Date.now()`
    and the ISO timestamp are arguments, `alert` is the returned `Alert`,
    and the `localStorage` entry "todos" is the field `storage`. */
module App {
  import opened Wrappers
  import opened Text
  import opened Tasks
  import opened View

  /** The messages `showError` raises with `alert`. */
  datatype Alert = EnterATask | TaskCannotBeEmpty | NothingToClear {
    function Message(): string {
      match this
      case EnterATask => "タスクを入力してください"
      case TaskCannotBeEmpty => "タスクは空にできません"
      case NothingToClear => "完了済みのタスクがありません"
    }
  }

  /** The three alerts say different things, and none is blank. */
  lemma AlertMessagesDistinct()
    ensures EnterATask.Message() != TaskCannotBeEmpty.Message()
    ensures EnterATask.Message() != NothingToClear.Message()
    ensures TaskCannotBeEmpty.Message() != NothingToClear.Message()
    ensures EnterATask.Message() != [] && TaskCannotBeEmpty.Message() != [] && NothingToClear.Message() != []
  {
    assert EnterATask.Message()[3] != TaskCannotBeEmpty.Message()[3];
    assert EnterATask.Message()[0] != NothingToClear.Message()[0];
    assert TaskCannotBeEmpty.Message()[0] != NothingToClear.Message()[0];
  }

  class TodoApp {
    var todos: seq<Task>
    var currentFilter: string
    var editingId: Option<Id>
    /** The value stored under the key "todos", already parsed. */
    var storage: Option<seq<Task>>

    /** Every task carries trimmed, non-empty text. The handlers keep this;
        only a stored list can break it. */
    predicate WellFormed()
      reads this
    {
      AllTaskText(todos)
    }

    /** Loads the stored list (`loadTodos`), or starts empty when nothing is
        stored. */
    constructor (stored: Option<seq<Task>>)
      ensures stored.Some? ==> todos == stored.value
      ensures stored.None? ==> todos == []
      ensures storage == stored
      ensures currentFilter == AllFilter && editingId == None
      ensures (forall t :: t in todos ==> IsTaskText(t.text)) ==> WellFormed()
    {
      todos := if stored.Some? then stored.value else [];
      currentFilter := AllFilter;
      editingId := None;
      storage := stored;
    }

    /** `saveTodos`: overwrite the stored list with the current one. */
    method SaveTodos()
      modifies this`storage
      ensures storage == Some(todos)
    {
      storage := Some(todos);
    }

    /** `addTodo`: an input that trims to nothing raises an alert and changes
        nothing; otherwise a new active task with the trimmed text goes in
        front of the list and the list is saved. */
    method AddTodo(input: string, now: Id, createdAt: Timestamp) returns (alert: Option<Alert>)
      modifies this
      ensures Trim(input) == [] ==>
        alert == Some(EnterATask) && todos == old(todos) && storage == old(storage)
      ensures Trim(input) != [] ==>
        && alert == None
        && todos == [Task(now, Trim(input), false, createdAt)] + old(todos)
        && storage == Some(todos)
      ensures currentFilter == old(currentFilter) && editingId == old(editingId)
      ensures old(WellFormed()) ==> WellFormed()
    {
      var text := Trim(input);
      if text == [] {
        alert := Some(EnterATask);
        return;
      }
      TrimmedIsTaskText(input);
      var todo := Task(now, text, false, createdAt);
      todos := [todo] + todos;
      SaveTodos();
      alert := None;
    }

    /** `deleteTodo`: once confirmed, every task with id `id` is removed and
        the list is saved (also when no task had that id); refused, nothing
        changes. */
    method DeleteTodo(id: Id, confirmed: bool)
      modifies this
      ensures confirmed ==> todos == WithoutId(old(todos), id) && storage == Some(todos)
      ensures !confirmed ==> todos == old(todos) && storage == old(storage)
      ensures forall t :: t in todos ==> t in old(todos)
      ensures currentFilter == old(currentFilter) && editingId == old(editingId)
      ensures old(WellFormed()) ==> WellFormed()
    {
      if confirmed {
        if WellFormed() { FilterKeepsTaskText(todos, (t: Task) => t.id != id); }
        todos := WithoutId(todos, id);
        SaveTodos();
      }
    }

    /** `toggleTodo`: flips the flag of the first task with id `id` in place
        and saves; with no such task nothing changes. */
    method ToggleTodo(id: Id)
      modifies this
      ensures todos == Toggled(old(todos), id)
      ensures storage == if HasId(old(todos), id) then Some(todos) else old(storage)
      ensures currentFilter == old(currentFilter) && editingId == old(editingId)
      ensures old(WellFormed()) ==> WellFormed()
    {
      var found := FindIndex(todos, id);
      if found.Some? {
        var k := found.value;
        var todo := todos[k];
        if WellFormed() { ReplaceKeepsTaskText(todos, k, todo.(completed := !todo.completed)); }
        todos := todos[k := todo.(completed := !todo.completed)];
        SaveTodos();
      }
    }

    /** `editTodo`: start editing task `id`; the tasks are not touched. */
    method EditTodo(id: Id)
      modifies this`editingId
      ensures editingId == Some(id)
    {
      editingId := Some(id);
    }

    /** `saveTodoEdit`: a text that trims to nothing raises an alert and
        changes nothing, so editing goes on. Otherwise, if some task has id
        `id`, the first one takes the trimmed text, editing ends and the list
        is saved; if none has, nothing changes and editing goes on. */
    method SaveTodoEdit(id: Id, newText: string) returns (alert: Option<Alert>)
      modifies this
      ensures Trim(newText) == [] ==>
        && alert == Some(TaskCannotBeEmpty)
        && todos == old(todos) && editingId == old(editingId) && storage == old(storage)
      ensures Trim(newText) != [] && HasId(old(todos), id) ==>
        && alert == None
        && todos == Retexted(old(todos), id, Trim(newText))
        && editingId == None && storage == Some(todos)
      ensures Trim(newText) != [] && !HasId(old(todos), id) ==>
        && alert == None
        && todos == old(todos) && editingId == old(editingId) && storage == old(storage)
      ensures currentFilter == old(currentFilter)
      ensures old(WellFormed()) ==> WellFormed()
    {
      var text := Trim(newText);
      if text == [] {
        alert := Some(TaskCannotBeEmpty);
        return;
      }
      alert := None;
      TrimmedIsTaskText(newText);
      var found := FindIndex(todos, id);
      if found.Some? {
        var k := found.value;
        var todo := todos[k];
        RetextedAt(todos, id, k, text);
        if WellFormed() { ReplaceKeepsTaskText(todos, k, todo.(text := text)); }
        todos := todos[k := todo.(text := text)];
        editingId := None;
        SaveTodos();
      }
    }

    /** `cancelEdit`: stop editing; the tasks are not touched. */
    method CancelEdit()
      modifies this`editingId
      ensures editingId == None
    {
      editingId := None;
    }

    /** `clearCompleted`: with no completed task an alert is raised and
        nothing changes; otherwise, once confirmed, exactly the active tasks
        remain, in their order, and the list is saved; refused, nothing
        changes. */
    method ClearCompleted(confirmed: bool) returns (alert: Option<Alert>)
      modifies this
      ensures |Completed(old(todos))| == 0 ==>
        alert == Some(NothingToClear) && todos == old(todos) && storage == old(storage)
      ensures |Completed(old(todos))| > 0 && confirmed ==>
        && alert == None
        && todos == Active(old(todos)) && Completed(todos) == []
        && storage == Some(todos)
      ensures |Completed(old(todos))| > 0 && !confirmed ==>
        alert == None && todos == old(todos) && storage == old(storage)
      ensures currentFilter == old(currentFilter) && editingId == old(editingId)
      ensures old(WellFormed()) ==> WellFormed()
    {
      var completedCount := |Completed(todos)|;
      if completedCount == 0 {
        alert := Some(NothingToClear);
        return;
      }
      alert := None;
      if confirmed {
        ClearedHasNoCompleted(todos);
        if WellFormed() { FilterKeepsTaskText(todos, IsActive); }
        todos := Active(todos);
        SaveTodos();
      }
    }

    /** The filter button handler: select the filter named in its
        `data-filter`; nothing is saved. */
    method SetFilter(filter: string)
      modifies this`currentFilter
      ensures currentFilter == filter
    {
      currentFilter := filter;
    }
  }
}
