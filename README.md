# Task list controller, modelled in Dafny

This project models the `TodoApp` controller of a single-page to-do list
(`script.js`). Its state has three parts: the ordered task list `todos`
(newest first), the filter selection `currentFilter` and the edit cursor
`editingId`. The model also holds a fourth field, `storage`, which stands for
the `localStorage` entry "todos" that every mutation overwrites. The handlers
that change this state are methods of the class `App.TodoApp`. Each method's
`ensures` gives the whole new state in terms of the old one. Beside them are
pure functions for what the handlers compute (filtering, finding, trimming)
and for what `render` derives (the filtered list, the three counters, the
empty-list placeholder), with lemmas about those functions.

Modules, one per concern of the controller:

- `Wrappers` (`wrappers.dfy`): `Option`, used for `null`/`undefined`.
- `Text` (`text.dfy`): ECMAScript's whitespace set and `String.prototype.trim`,
  with `Trim` described independently (`IsTrimOf`) and shown to be the only
  function meeting that description.
- `Tasks` (`tasks.dfy`): the `Task` record, `Array.prototype.filter`
  (`Filter`), `Array.prototype.find` (`FindIndex`), the in-place update of the
  record `find` returns (`UpdateFirst`, `Toggled`, `Retexted`), and the list
  views the handlers use (`Active`, `Completed`, `WithoutId`).
- `View` (`view.dfy`): `getFilteredTodos` (`Visible`), `updateStats`
  (`CountsOf`) and the placeholder choice in `render` (`EmptyState`).
- `App` (`app.dfy`): the `TodoApp` class and its handlers.
- `Scenarios` (`scenarios.dfy`): client sessions whose outcomes follow from the
  handler contracts alone. They cover "buy milk", newest-first with filters, a
  blank edit, and save-then-load.

Browser-provided values are parameters. The answer of `confirm` is a `bool`.
`Date.now()` is the `Id` argument. `new Date().toISOString()` is an opaque
`Timestamp` argument. The `alert` raised by `showError` is the returned
`Option<Alert>`. Ids are not assumed unique, because two tasks added in the
same millisecond share one. So deleting removes every task with the id, while
toggling and editing touch only the first one, exactly as `filter` and `find`
behave.

## Model

| member | source | states |
|---|---|---|
| `Text.TrimStartCuts` | script.js:59 | The leading-whitespace cut leaves a suffix of the input that does not start with whitespace, and only whitespace is dropped. |
| `Text.TrimEndCuts` | script.js:59 | The trailing-whitespace cut leaves a prefix that does not end with whitespace, and only whitespace is dropped. |
| `Text.TrimCutsWhitespace` | script.js:59 | `Text.Trim`, the model of `trim()` (defined as `TrimEnd(TrimStart(s))`, without a contract of its own), yields a slice of the input that has whitespace-only text before and after it and no whitespace at its own edges. |
| `Text.TrimOfUnique` | script.js:59 | Any slice with that description equals `Trim`, so the description fully characterises `trim()`. |
| `Text.TrimNoEdge` | script.js:59 | Text without whitespace at either end trims to itself. |
| `Text.TrimIdempotent` | script.js:106 | Trimming an already trimmed text changes nothing. |
| `Text.TrimEmptyIff` | script.js:59-61 | Input fails the `if (!text)` test exactly when it consists of whitespace only. |
| `Tasks.TrimmedIsTaskText` | script.js:106-115 | Input that survives the empty test trims to non-empty text with no edge whitespace, which is what a task is meant to carry. |
| `Tasks.Filter` | script.js:82 | `filter` keeps exactly the elements its predicate accepts and is never longer than its input. |
| `Tasks.FilterIsSubsequence` | script.js:82 | `filter` preserves the relative order of what it keeps. |
| `Tasks.FilterKeepsAll` | script.js:82 | A filter that accepts every element returns the list unchanged. |
| `Tasks.FilterSplit` | script.js:138 | Two complementary filters split a list: their multisets add up to the list's and their lengths to its length. |
| `Tasks.FilterIdempotent` | script.js:138 | Filtering twice with one predicate equals filtering once. |
| `Tasks.FilterKeepsNone` | script.js:138 | A filter that accepts nothing in the list returns the empty list. |
| `Tasks.FilterUpdateLength` | script.js:170-171 | Replacing one element shifts a filtered length by the difference between what the old and the new element contribute. |
| `Tasks.FilterKeepsTaskText` | script.js:82 | A filtered list keeps the invariant that every task text is well-formed. |
| `Tasks.ReplaceKeepsTaskText` | script.js:92 | Replacing one record with a record whose text is well-formed keeps the text invariant. |
| `Tasks.ActiveCompletedPartition` | script.js:130-138 | Active and completed tasks partition the list. Each is an order-preserving subsequence, and membership in each is by the completion flag. |
| `Tasks.ClearedHasNoCompleted` | script.js:138 | After clearing, no completed task remains, and clearing again would keep every task. |
| `Tasks.DeleteRemovesExactly` | script.js:82 | Deleting keeps exactly the tasks with another id, in order. The removed part is exactly the tasks that carry the id. |
| `Tasks.DeleteAbsentIsNoOp` | script.js:82 | Deleting an id that no task carries leaves the list as it is. |
| `Tasks.FindIndex` | script.js:90 | `find` returns the first task with the id, and returns `undefined` exactly when no task has it. |
| `Tasks.UpdateFirst` | script.js:90-92 | Mutating the found record changes only the first matching position, and every other position keeps its task. |
| `Tasks.Toggled` | script.js:89-95 | Toggling flips `completed` on the first matching task and on no other. Id, text and timestamp never change. |
| `Tasks.Retexted` | script.js:113-115 | Committing an edit sets the text of the first matching task only. Id, flag and timestamp stay. |
| `Tasks.RetextedAt` | script.js:113-115 | The commit's effect is a text write into the record that `find` located. |
| `Tasks.UpdateAbsentIsNoOp` | script.js:90-91 | With no matching id, toggling and editing leave the list as it is. |
| `Tasks.ToggleInvolutive` | script.js:92 | Toggling the same id twice restores the original list. |
| `Tasks.RetextedIdempotent` | script.js:199-207 | Committing the same text twice leaves the list as a single commit does. This covers Enter followed by blur, which both commit. |
| `View.Visible` | script.js:145-153 | The filtered list is an order-preserving subsequence of the list holding exactly the tasks the filter shows. Any other filter name shows all. |
| `View.VisibleOtherIsAll` | script.js:145-153 | Every filter name other than "active" and "completed" returns the list itself. |
| `View.VisiblePartition` | script.js:145-153 | The "active" and "completed" views together cover the list, as multisets and as sets of ids. |
| `View.CountsOf` | script.js:168-171 | The total is the list length, the active and completed counts are the lengths of the two views, and active plus completed equals total. |
| `View.CountsAfterAdd` | script.js:66-73 | Adding raises the total and the active count by one. |
| `View.CountsAfterClear` | script.js:138 | After clearing, the completed count is zero and the active count is unchanged. |
| `View.CountsAfterDelete` | script.js:82 | Deleting lowers the total by the number of tasks that carried the id. |
| `View.CountsAfterToggle` | script.js:92 | Toggling moves exactly one task between the active and completed counts, and the total stays. |
| `View.EmptyMessageCases` | script.js:248-258 | About `View.EmptyMessage`, the placeholder text chosen by filter name: any filter name other than "active" and "completed" gets the default message. The three messages are distinct. |
| `View.EmptyState` | script.js:244-258 | A placeholder appears exactly when the filter shows no task, and its message depends on the filter name alone. |
| `App.TodoApp.constructor` | script.js:3-6 | Loads the stored list as `loadTodos` (script.js:47-50) does, or the empty list if nothing is stored. The filter starts as "all" and the edit cursor as none. A well-formed stored list gives a well-formed state. |
| `App.AlertMessagesDistinct` | script.js:62 | About `App.Alert.Message`, the texts `showError` passes to `alert` (script.js:62, 109, 133): the three are distinct and none is empty. |
| `App.TodoApp.SaveTodos` | script.js:53-55 | The storage entry becomes the current list. |
| `App.TodoApp.AddTodo` | script.js:58-77 | Blank input raises an alert and changes nothing. Otherwise an active task with the trimmed text and the given id and timestamp is prepended in front of the unchanged old list, which is then saved. Filter and cursor stay, and the text invariant is kept. |
| `App.TodoApp.DeleteTodo` | script.js:80-86 | If refused, nothing changes. If confirmed, the list loses exactly the tasks with the id and is saved, even when nothing was removed. |
| `App.TodoApp.ToggleTodo` | script.js:89-96 | The list becomes `Toggled`. It is saved only if some task had the id. |
| `App.TodoApp.EditTodo` | script.js:99-102 | The edit cursor becomes the id, and nothing else may change. |
| `App.TodoApp.SaveTodoEdit` | script.js:105-120 | Blank text raises an alert and changes nothing, so the cursor stays. Otherwise, if the id exists, the first match takes the trimmed text, the cursor clears and the list is saved. If the id is absent, nothing changes. |
| `App.TodoApp.CancelEdit` | script.js:123-126 | The edit cursor becomes none, and nothing else may change. |
| `App.TodoApp.ClearCompleted` | script.js:129-142 | If nothing is completed, an alert is raised and nothing changes. If refused, nothing changes. If confirmed, exactly the active tasks remain in their order, none is completed, and the list is saved. |
| `App.TodoApp.SetFilter` | script.js:35-39 | The filter selection becomes the button's `data-filter` value, and nothing else changes. |

## Left out

- DOM lookup, element creation and the `innerHTML` rebuild in `initElements`, `createTodoElement` and `render` (script.js:14-23, 179-237, 242-267): these are output, not state. The model keeps only what `render` chooses, meaning the visible list, the counters and the placeholder text.
- Event wiring and key dispatch (script.js:26-44, 198-207): these are plumbing. Enter and blur both call `saveTodoEdit` with the field's value, and `Tasks.RetextedIdempotent` shows that a second commit of the same text leaves the list unchanged.
- Clearing the input box after a successful add (script.js:75): the box is a DOM element. A successful add is the case where `AddTodo` returns no alert.
- JSON encoding in `loadTodos`/`saveTodos` (script.js:47-55): `storage` holds the list already parsed. A stored value that fails to parse, or an empty string (which the source treats as absent), is not modelled.
- `alert` and `confirm` (script.js:81, 137, 275): the answer to `confirm` is a parameter. The prompt's text, including the count in the clear-completed prompt, is not modelled.
- `setTimeout` focus after entering edit mode (script.js:209): this is asynchronous UI behaviour.
- Filter-button highlighting in `updateFilterButtons` (script.js:157-165): this is presentation only.
- Aliasing of task records: a JavaScript task is an object that `find` returns by reference. The model treats records as values and writes the updated record back at the found position. The event listeners that `createTodoElement` attaches do capture the record (script.js:188, 200, 206, 221, 227), and the rendered elements hold those listeners. They only read its `id`, and no handler ever writes an `id`, so the captured record and the value in the list lead to the same calls and the two models agree.
- String representation: JavaScript strings are sequences of UTF-16 code units, while Dafny's `string` is a sequence of Unicode scalar values, so a text holding a lone surrogate cannot be represented. For every representable text `trim()` behaves the same, because all whitespace characters lie in the Basic Multilingual Plane.
- `IsWhitespace`: the whitespace set is written out from ECMAScript's WhiteSpace and LineTerminator classes. The Unicode category "space separator" is listed by code point as of Unicode 15.
