# Task manager: state machine and query

This project models the core of a small single-page task manager (`src/App.js`).
Its state has three fields: the task list, the form being filled in, and the id of
the task being edited, if any. Six handlers change that state: `handleChange`,
`addTask`, `deleteTask`, `editTask`, `updateTask` and `cancelEdit`. A pure query,
`filteredTasks`, picks the tasks the list shows for a search term and a priority
filter.

Modules:

- `Wrappers` (`wrappers.dfy`): `Option`. It stands for a JavaScript property that may be absent.
- `Seqs` (`seqs.dfy`): `Filter` and `Map`, the array `filter` and `map` the handlers are built from. It also holds the subsequence relation and lemmas: filters keep order, keep every copy of a kept value, are idempotent, and change nothing when every element passes.
- `Text` (`text.dfy`): ASCII `toLowerCase` and `includes`, where `includes` is a recursive scan. A lemma proves the scan agrees with the reference reading "the term occurs at some position".
- `Tasks` (`tasks.dfy`): the records (`Task`, which is also the type of the form, `Session`, `FieldEdit`, `PriorityFilter`). It also holds the pure computations inside the handlers, with their lemmas: the form spread, the id-stamping spread, the delete filter, the commit map, and the visibility predicate.
- `App` (`app.dfy`): the class `TaskManager`, whose fields are `tasks`, `form` and `session`, with one method per handler. Its client methods prove multi-step scenarios from the handlers' contracts alone.

Modelling choices, taken from the code as written:

- The form and a task have the same shape; `Form` is a synonym of `Task`. `editTask` puts the task itself, id included, into the form. `updateTask` stores a copy of the form as the task. `id: None` means the object has no `id` property, which is the case for a fresh or reset form.
- `editingTaskId` is `Session`. `Idle` stands for `null`, which matches no task, because task ids are numbers or absent. `Editing(target)` holds the id that `editTask` recorded.
- `Date.now()` is the `now` parameter of `AddTask`. In `{ id: Date.now(), ...formData }` the form's own id, when present, overrides the clock. `Tasks.Stamped` states this.
- `handleChange` receives one of four events, one per named input of the form: title, description, due date and the priority select.
- The search term and the priority filter are parameters of `Tasks.Visible`, not fields of the class.

The source itself expects unique ids and complete tasks. The list renders each task with `key={task.id}` (App.js line 146), which React requires to be unique. The guard of `addTask` (line 34) treats title, description and due date as required. The handlers do not keep either expectation, and the model follows the handlers:

- Ids are not kept unique. After `updateTask` the form still holds the edited task, id included, and the interface shows "Add Task" again. A second add then appends a task with the same id, because the form's id overrides the clock reading. `App.DuplicateIdScenario` proves this.
- `updateTask` does not validate the form, so a committed edit can empty a required field (`App.EmptyTitleScenario`).
- `updateTask` does not reset the form. Only `cancelEdit` and a successful `addTask` reset it.
- Committing while `Idle` does nothing: `Tasks.ReplacedNoMatch`.

## Model

| member | source | states |
|---|---|---|
| Seqs.Filter | src/App.js:49 | The result is no longer than the input, and every element of it comes from the input and satisfies the predicate |
| Seqs.Map | src/App.js:59-61 | The result has the input's length, and position i holds the function applied to input element i |
| Seqs.FilterIsSubsequence | src/App.js:49 | A filter's result is an order-preserving subsequence of its input |
| Seqs.FilterCount | src/App.js:49 | Each value occurs in the result as often as in the input if it passes, and never if it fails |
| Seqs.FilterMembership | src/App.js:49 | x is in the result iff x is in the input and passes the predicate |
| Seqs.FilterKeepsAll | src/App.js:76-83 | When every element passes, the filter returns its input unchanged |
| Seqs.FilterIdempotent | src/App.js:49 | Filtering twice by one predicate equals filtering once |
| Seqs.FilterCongruent | src/App.js:76-83 | Predicates that agree on every element give the same result |
| Text.LowerCharEqualIff | src/App.js:78-79 | Two characters lower to the same character iff they are equal or are an ASCII capital and its own lower-case letter |
| Text.LowerEqualIff | src/App.js:78-79 | Two strings lower to the same string iff they have the same length and are case variants at every position |
| Text.LowerIdempotent | src/App.js:78-79 | A lowered string has no ASCII capitals, and lowering it again changes nothing |
| Text.Includes | src/App.js:78-79 | No contract of its own; specified by Text.IncludesIff |
| Text.IncludesIff | src/App.js:78-79 | The `includes` scan returns true iff the term occurs at some index of the string |
| Text.IncludesEmpty | src/App.js:78-79 | The empty term is included in every string |
| Tasks.EMPTY_FORM | src/App.js:6-11 | No contract of its own: no id, empty title, description and due date, priority High (also the reset value at lines 40-45 and 68-73) |
| Tasks.Changed | src/App.js:25-31 | A change event sets its own field to its value; every other field and the id are kept |
| Tasks.ChangedAll | src/App.js:25-31 | No contract of its own; the form after `handleChange` applied to each event in turn; specified by Tasks.ChangedAllKeepsId |
| Tasks.ChangedAllKeepsId | src/App.js:25-31 | No sequence of change events alters the form's id |
| Tasks.IsComplete | src/App.js:34 | No contract of its own; the guard of `addTask`, specified through App.TaskManager.AddTask |
| Tasks.Stamped | src/App.js:35-38 | A new task always has an id: the form's own id when it has one, otherwise `now`. All other fields are the form's |
| Tasks.Without | src/App.js:49 | No contract of its own; specified by Tasks.WithoutSpec, Tasks.WithoutIdempotent and Tasks.WithoutAbsent |
| Tasks.WithoutSpec | src/App.js:48-51 | Deleting gives an order-preserving subsequence; a task stays iff it was listed and its id differs, and every copy of it stays |
| Tasks.WithoutIdempotent | src/App.js:48-51 | Deleting the same id twice gives what deleting it once gives |
| Tasks.WithoutAbsent | src/App.js:48-51 | Deleting an id no task carries leaves the list unchanged |
| Tasks.Matches | src/App.js:60 | No contract of its own; `task.id === editingTaskId`, where Idle matches nothing; specified by Tasks.ReplacedNoMatch |
| Tasks.Replaced | src/App.js:59-61 | No contract of its own; specified by Tasks.ReplacedSpec and Tasks.ReplacedNoMatch |
| Tasks.ReplacedSpec | src/App.js:58-61 | Committing keeps the length, puts the form at every position whose id matches the session, and keeps every other entry |
| Tasks.ReplacedNoMatch | src/App.js:58-61 | When no entry matches the session, in particular when it is Idle, committing leaves the list unchanged |
| Tasks.EditSessionKeepsIds | src/App.js:25-61 | Edit a task, apply any change events, commit: every position keeps its id, and only entries with the task's id change |
| Tasks.PriorityMatches | src/App.js:80-81 | No contract of its own; specified by Tasks.ShownIff |
| Tasks.Shown | src/App.js:77-82 | No contract of its own; specified by Tasks.ShownIff |
| Tasks.Visible | src/App.js:76-83 | No contract of its own; specified by Tasks.VisibleSpec, Tasks.VisibleEverything and Tasks.VisibleIgnoresCase |
| Tasks.ShownIff | src/App.js:76-83 | A task passes the query iff the lowered term occurs in its lowered title or description, and the filter is All or its priority |
| Tasks.VisibleSpec | src/App.js:76-83 | The visible tasks are an order-preserving subsequence; a task is visible iff it is listed, mentions the term and passes the filter; every copy of it stays |
| Tasks.VisibleEverything | src/App.js:76-83 | Search "" with filter All shows every task, in order |
| Tasks.VisibleIgnoresCase | src/App.js:77-79 | Two search terms that differ only in ASCII case show the same tasks |
| Tasks.ShownIgnoresCaseOfTask | src/App.js:77-79 | Whether a task is shown does not depend on the ASCII case of its title or description |
| Tasks.MilkFound | src/App.js:77-79 | Searching "milk" shows a task described "Buy milk and eggs" |
| Tasks.GymSkipped | src/App.js:77-79 | Searching "milk" hides a task titled "Gym" and described "Leg day" |
| App.TaskManager.constructor | src/App.js:5-14 | Initial state: no tasks, the empty form with priority High, no edit |
| App.TaskManager.HandleChange | src/App.js:25-31 | The form becomes the changed form; tasks and session are unchanged |
| App.TaskManager.AddTask | src/App.js:33-46 | An incomplete form changes nothing. A complete one appends exactly one stamped task after the old tasks and resets the form. The session is kept |
| App.TaskManager.DeleteTask | src/App.js:48-51 | The list becomes the old list without the id's tasks; form and session are kept |
| App.TaskManager.EditTask | src/App.js:53-56 | The session records the task's id, the form becomes the task, and the list is untouched |
| App.TaskManager.UpdateTask | src/App.js:58-64 | Matching entries become the old form, the session becomes Idle, and the form is not reset |
| App.TaskManager.CancelEdit | src/App.js:66-74 | The session becomes Idle, the form is reset, and the list is untouched |
| App.EditThenCancel | src/App.js:53-74 | Edit then cancel: the list is unchanged, the session is Idle and the form is empty |
| App.EditThenCommit | src/App.js:53-64 | Edit a listed task, change a field, commit: ids are kept at every position, only that id's entries change, and the task takes the changed form |
| App.DuplicateIdScenario | src/App.js:33-64 | Add, edit, commit, add again: two tasks with the same id |
| App.EmptyTitleScenario | src/App.js:25-64 | Add, edit, clear the title, commit: the stored task has an empty title |

## Left out

- Rendering and button wiring (App.js lines 85-166). The only thing taken from it is which handler each state offers. The form (lines 118-125) shows "Add Task" while `editingTaskId` is falsy, and "Update"/"Cancel" otherwise. Each listed task (lines 151-161) shows "Save"/"Cancel" when `editingTaskId === task.id`, and "Edit"/"Delete" otherwise. So when the session's target is `0` or absent, the form offers "Add Task", yet "Save"/"Cancel" still appear on the edited task (target `0`) or on every task without an id (target absent). The scenarios use only steps the interface offers at that point.
- Loading from and saving to `localStorage`, with `JSON.parse`/`JSON.stringify` (lines 16-23). This is browser I/O through a foreign serialiser, so the class starts from the empty list of `useState([])`.
- `Date.now()`: a clock read. The reading is the `now` parameter of `AddTask`.
- The `searchTerm` and `filterPriority` state and their input handlers (lines 12-13, 128-142). They are parameters of `Tasks.Visible`.
- React's asynchronous, batched state updates and effect scheduling. Each handler is one atomic transition.
- Unicode `toLowerCase`. Lowering is ASCII-only.
- `handleChange` with an arbitrary input `name`. Only the four named inputs exist, and the priority select offers only High, Medium and Low. Priorities outside those (possible only in loaded data) are not modelled.
- The date input's format. `dueDate` is an opaque string; only emptiness matters.
