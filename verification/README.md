# Project and task stores of a CRUD tables client — a Dafny model

The client keeps two Vuex store modules in memory and mirrors them into the
browser's local storage:

* the **task store** (`src/store/tasks.ts`) holds, per project id, the ordered
  list of that project's tasks and the column widths of the tasks table. Its
  mutations replace a project's list, append a task, replace a task by id,
  remove a task by id, move one task (two `splice` calls) and sort a project's
  list in place by a named field. Its getters return a project's list (empty
  when the project has none) and find a task by id. The `addTask` action builds
  the request body from the task, the project id and the clock.
* the **project store** (`src/store/projects.ts`) holds the ordered list of
  projects and the column widths of the projects table. Its mutations replace
  the list, append, replace by id and remove by id. Its getter finds a project
  by id. The `addProject` action builds the draft it sends: task count 0,
  status "To Do", creation date taken from an ISO timestamp.

Every mutation writes the whole collection to a fixed local-storage slot
("tasks" or "projects"); the width mutations write the widths to
"taskColumnWidths" or "projectColumnWidths".

## Layout

| file | module | contents |
|---|---|---|
| `Types.Status.Name` | src/types/common.ts:4 | each status reads as one of the three literals "To Do", "In Progress", "Done", and distinct statuses read as distinct literals |
| `types.dfy` | `Types` | `Status`, `Task`, `Project` (from `src/types/*.ts`) |
| `lists.dfy` | `Lists` | `findIndex`, `find`, `filter`, first-match replacement and `splice` on sequences, with their lemmas |
| `storage.dfy` | `Storage` | local storage as a class holding a map from slot name to stored value; the slot names |
| `task_order.dfy` | `TaskOrder` | the comparator of `sortTasks` and the sort, with sortedness and permutation lemmas |
| `task_store.dfy` | `TaskStore` | class `TasksState` (the mutations), the getters, the `addTask` request body |
| `project_store.dfy` | `ProjectStore` | class `ProjectsState` (the mutations), the getter, the `addProject` draft |

The two states are classes whose fields the mutation methods reassign; each
method's postcondition gives the new collection as a function of the old one,
the unchanged other field, and the new contents of local storage (the written
slot, every other slot unchanged). The functions those postconditions use
(`ReplaceFirst`, `RemoveAll`, `Move`, `SortBy`) carry the properties the source
promises, proved as lemmas.

The task store keeps its tasks in a map from project id to that project's
list. `deleteProject` removes only the project, not the project's tasks, and
`deleteTask` takes no refetch flag.

## Model

| member | source | states |
|---|---|---|
| `TaskStore.TasksState.constructor` | src/store/tasks.ts:10-13 | the store starts with no task lists and no column widths |
| `TaskStore.TasksState.SetTasks` | src/store/tasks.ts:16-19 | the project's list becomes the given list, every other project's list is unchanged, and the "tasks" slot holds the whole new map |
| `TaskStore.TasksState.AddTask` | src/store/tasks.ts:20-24 | the project's list (an empty one if it had none) gets the task appended: one longer, earlier tasks unchanged, other projects unchanged, "tasks" slot mirrors the map |
| `TaskStore.TasksState.UpdateTask` | src/store/tasks.ts:25-32 | for a known project, the first task with the id of `task` is replaced and the length kept, and the map is written out; for an unknown project the call fails with a TypeError and nothing changes or is written |
| `TaskStore.TasksState.DeleteTask` | src/store/tasks.ts:33-38 | every task with that id leaves the project's list and no lookup of that id finds one afterwards; an unknown project is left alone; the map is written out either way |
| `TaskStore.TasksState.ReorderTasks` | src/store/tasks.ts:39-47 | for a known project the list becomes the two-splice move of the task at `oldIndex` to `newIndex`: same length, same tasks with the same multiplicities, map written out; an unknown project fails with a TypeError and nothing changes |
| `TaskStore.TasksState.SortTasks` | src/store/tasks.ts:48-64 | for a known project the list becomes a permutation of itself ordered by the comparator for `key` and `order`, and the map is written out; an unknown project fails with a TypeError and nothing changes |
| `TaskStore.TasksState.UpdateColumnWidths` | src/store/tasks.ts:65-68 | the widths are replaced wholesale and exactly they are written to "taskColumnWidths"; the task lists and the "tasks" slot stay as they were |
| `TaskStore.GetTasksByProjectId` | src/store/tasks.ts:127-129 | total: a known project's list, the empty list for an unknown project |
| `TaskStore.GetTaskById` | src/store/tasks.ts:130-132 | nothing exactly when the project is unknown or none of its tasks has the id; otherwise the first task of the list with that id |
| `TaskStore.AddTaskPayload` | src/store/tasks.ts:90-94 | the request body has the given project id and the clock reading as id, and every other field of the task |
| `TaskStore.GetAfterUpdateTask` | src/store/tasks.ts:25-30 | after an update, looking up the task's id finds the new task if the id was present, and nothing if it was not |
| `TaskStore.DeleteUndoesAddTask` | src/store/tasks.ts:20-36 | deleting a task that was appended under an id not yet in the project gives back the earlier list |
| `TaskStore.ReorderExample` | src/store/tasks.ts:43-45 | moving index 0 to index 2 in [A, B, C] gives [B, C, A] |
| `Lists.FindIndex` | src/store/tasks.ts:27 | -1 exactly when no element has the id; otherwise an index whose element has the id and before which none does |
| `Lists.Find` | src/store/projects.ts:95 | nothing exactly when no element has the id; otherwise the element at the first position with that id |
| `Lists.ReplaceFirst` | src/store/tasks.ts:27-30 | the length is kept; with no element of that id the sequence is unchanged; otherwise exactly the first such position now holds the new element |
| `Lists.ReplaceFirstKeepsIds` | src/store/projects.ts:26-29 | a replacement leaves the id at every position as it was |
| `Lists.FindAfterReplaceFirst` | src/store/projects.ts:26-29 | after a replacement, a lookup of that id finds the new element if the id was present, and nothing otherwise |
| `Lists.FindOtherAfterReplaceFirst` | src/store/projects.ts:26-29 | a replacement does not change the lookup of any other id |
| `Lists.RemoveAll` | src/store/tasks.ts:35 | no element with the id remains, no element is invented (sub-multiset), and the result is no longer than the input |
| `Lists.RemoveAllCount` | src/store/projects.ts:33 | each element with another id is kept as many times as it occurred, each element with the id not at all |
| `Lists.RemoveAllAppend` | src/store/projects.ts:33 | filtering distributes over concatenation, so the kept elements stay in their relative order |
| `Lists.RemoveAllAbsent` | src/store/tasks.ts:35 | filtering an id that does not occur leaves the sequence unchanged |
| `Lists.RemoveAllIdempotent` | src/store/projects.ts:32-35 | deleting an id twice equals deleting it once (both stores' delete mutations) |
| `Lists.RemoveAllUndoesAppend` | src/store/tasks.ts:33-36 | removing the id of an element appended under a fresh id restores the sequence |
| `Lists.SpliceStart` | src/store/tasks.ts:44-45 | the start index `splice` uses lies in [0, len], equals a start inside that range, is len for a start beyond the end, counts a negative start back from the end and clamps one below -len to 0 |
| `Lists.RemoveAt` | src/store/tasks.ts:44 | removing one element shortens the sequence by one |
| `Lists.InsertAt` | src/store/tasks.ts:45 | inserting one element lengthens the sequence by one and puts the element at the index |
| `Lists.Move` | src/store/tasks.ts:43-45 | the moved sequence has the same length and holds the taken element at the clamped target index |
| `Lists.MovePermutes` | src/store/tasks.ts:43-45 | a move is a permutation |
| `Lists.MoveKeepsOthersInOrder` | src/store/tasks.ts:43-45 | taking the moved element out of the result leaves the sequence the first `splice` left: all other elements keep their relative order |
| `Lists.MovePastEndAppends` | src/store/tasks.ts:45 | a target index at or beyond the end of the shortened sequence appends the element |
| `Lists.MoveBack` | src/store/tasks.ts:43-45 | moving from `from` to `to` and then from `to` back to `from` restores the sequence |
| `Lists.RemoveAtInsertAt` | src/store/tasks.ts:44-45 | removing at an index what was just inserted there restores the sequence |
| `Lists.InsertAtRemoveAt` | src/store/tasks.ts:44-45 | putting a removed element back at its index restores the sequence |
| `Storage.LocalStorage.SetItem` | src/store/tasks.ts:18 | writing a slot overwrites that slot and leaves every other slot unchanged |
| `TaskOrder.FieldOf` | src/store/tasks.ts:54-55 | `id` and `projectId` read as numbers (the task's own values), `title`, `assignee`, `status` and `dueDate` read as strings (`status` as its display name), and every other key reads as undefined |
| `TaskOrder.Compare` | src/store/tasks.ts:53-62 | a string field compares by the string order, reversed for "desc"; a number field by subtraction, reversed for "desc"; any other key gives 0, as the NaN the subtraction yields does in the engine's sort |
| `TaskOrder.StrCompare` | src/store/tasks.ts:57 | the string order returns -1, 0 or 1, and 0 exactly for equal strings |
| `TaskOrder.StrCompareFlip` | src/store/tasks.ts:57 | swapping the operands negates the comparison, so `valueB.localeCompare(valueA)` is the reverse order |
| `TaskOrder.StrCompareTransitive` | src/store/tasks.ts:57 | the string order is transitive |
| `TaskOrder.PrecedesTotal` | src/store/tasks.ts:53-62 | for any two tasks one may stand before the other under the comparator |
| `TaskOrder.PrecedesTransitive` | src/store/tasks.ts:53-62 | the comparator's "may stand before" is transitive for every key and order |
| `TaskOrder.PrecedesMeansFieldOrder` | src/store/tasks.ts:56-61 | under "asc" a task may precede another exactly when its field is not greater; under "desc" exactly when it is not smaller (string order for text fields, numeric order for number fields) |
| `TaskOrder.Insert` | src/store/tasks.ts:53 | inserting one task lengthens the list by one |
| `TaskOrder.InsertPermutes` | src/store/tasks.ts:53 | inserting adds exactly that task to the multiset of tasks |
| `TaskOrder.InsertSorted` | src/store/tasks.ts:53-62 | inserting into a sorted list keeps it sorted |
| `TaskOrder.InsertKeepsLowerBound` | src/store/tasks.ts:53-62 | a task that may precede the inserted one and every listed one may still precede every task after the insertion |
| `TaskOrder.SortedCons` | src/store/tasks.ts:53-62 | a lower bound put in front of a sorted list gives a sorted list |
| `TaskOrder.SortedTail` | src/store/tasks.ts:53-62 | the tail of a sorted list is sorted |
| `TaskOrder.InsertBeforeHead` | src/store/tasks.ts:53-62 | a task that may precede the head is inserted at the front |
| `TaskOrder.SortBy` | src/store/tasks.ts:53 | sorting keeps the length |
| `TaskOrder.SortByPermutes` | src/store/tasks.ts:53 | the sorted list is a permutation of the input |
| `TaskOrder.SortBySorted` | src/store/tasks.ts:53-62 | every earlier task may precede every later one in the sorted list |
| `TaskOrder.SortByOrdersField` | src/store/tasks.ts:52-62 | the sorted list is a permutation of the input of the same length whose field `key` never decreases under "asc" and never increases under "desc" |
| `TaskOrder.SortBySortedIsIdentity` | src/store/tasks.ts:53-62 | an already sorted list is left as it is |
| `TaskOrder.SortByIdempotent` | src/store/tasks.ts:53-62 | sorting twice by the same key and order equals sorting once |
| `TaskOrder.InsertTies` | src/store/tasks.ts:53 | inserting a task adds it to the front of its tie class and leaves the other tie classes' order unchanged |
| `TaskOrder.SortByStable` | src/store/tasks.ts:53-62 | the tasks that compare equal to a given task appear in the sorted list in the same order as in the input (the sort is stable) |
| `TaskOrder.SortByUnknownKey` | src/store/tasks.ts:54-61 | sorting by a key that names no task field leaves the list unchanged |
| `TaskOrder.SortExample` | src/store/tasks.ts:52-62 | sorting tasks titled B, A, C by "title" descending gives C, B, A |
| `ProjectStore.ProjectsState.constructor` | src/store/projects.ts:11-14 | the store starts with no projects and no column widths |
| `ProjectStore.ProjectsState.SetProjects` | src/store/projects.ts:17-20 | the list becomes the given list and the "projects" slot holds it |
| `ProjectStore.ProjectsState.AddProject` | src/store/projects.ts:21-24 | the project is appended: one longer, earlier entries unchanged, "projects" slot mirrors the list |
| `ProjectStore.ProjectsState.UpdateProject` | src/store/projects.ts:25-31 | the first entry with the project's id is replaced, length and ids at every position kept, the list unchanged when no id matches, and the list written out in every case |
| `ProjectStore.ProjectsState.DeleteProject` | src/store/projects.ts:32-35 | every entry with the id is removed (the rest in order, by `RemoveAll`), no lookup of the id finds one afterwards, and the list is written out |
| `ProjectStore.ProjectsState.UpdateColumnWidths` | src/store/projects.ts:36-39 | the widths are replaced wholesale and exactly they are written to "projectColumnWidths"; the projects and the "projects" slot stay as they were |
| `ProjectStore.GetProjectById` | src/store/projects.ts:94-96 | total: nothing exactly when no project has the id, otherwise the first project with that id |
| `ProjectStore.GetAfterUpdateProject` | src/store/projects.ts:25-30 | after an update, looking up the project's id finds the new project if the id was present, and nothing otherwise |
| `ProjectStore.GetOtherAfterUpdateProject` | src/store/projects.ts:25-30 | an update leaves the lookup of every other id unchanged |
| `ProjectStore.DatePart` | src/store/projects.ts:61 | the date part is the prefix of the timestamp that contains no 'T' and is followed by a 'T' or by the end |
| `ProjectStore.DatePartOfIsoTimestamp` | src/store/projects.ts:61 | for a 24-character ISO timestamp with 'T' at index 10 and only digits and '-' before it, the date part is its first ten characters |
| `ProjectStore.NewProjectDraft` | src/store/projects.ts:57-62 | the draft keeps the name and description, has task count 0 and status "To Do", and its creation date is the part of the timestamp before the first 'T' |

## Left out

- The actions' network calls (`fetchTasks`, `fetchProjects` and the POST, PUT and DELETE requests), their `async`/`await` and their `try`/`catch` logging: network I/O. Only the request body of `addTask` and the draft of `addProject` are modelled, and a mutation is modelled as if committed with whatever the server returned.
- JSON serialization of the stored values and failures of `localStorage.setItem`: local storage holds the values themselves.
- `Date.now()` and `new Date().toISOString()`: the clock reading and the ISO string are parameters.
- `TaskOrder.StrCompare`: stands in for `localeCompare`, whose collation is ICU's; the model uses code-point lexicographic order, so the proofs hold for any total order but the concrete order of strings differs from the browser's.
- `TaskOrder.SortBy`: a stable insertion sort stands in for the engine's `Array.prototype.sort`. ECMAScript requires that sort to be stable, so for a consistent comparator the two give the same list (`TaskOrder.SortByStable` states the stability); the engine's algorithm itself is not modelled.
- `TaskStore.TasksState.ReorderTasks`: requires `oldIndex` to name an element of the list. For an index outside it the source's first `splice` removes nothing and the second inserts `undefined`; that ill-typed list is not modelled.
- Numbers: ids, indices and widths are unbounded integers. Floating-point ids, `NaN` and the rounding of large subtractions in the comparator are not modelled.
- Aliasing: `setTasks` and `setProjects` store the caller's array itself, so later changes through another reference would show in the store; the model stores values.
- Vue reactivity and the Vuex module wiring (`namespaced`, `commit`), the toast plugin, the router, the Vuetify setup, and the mock server (`server.cjs`) with its task-count recomputation.
