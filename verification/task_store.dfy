/**
 * The task store: per project, the ordered list of its tasks, plus the
 * column widths of the tasks table. Every mutation writes the whole map of
 * lists to the "tasks" storage slot; the width update writes the widths to
 * "taskColumnWidths".
 */
module TaskStore {
  import opened Types
  import opened Lists
  import opened TaskOrder
  import opened Storage

  /**
   * How a mutation ends: normally, or with the TypeError a method call on the
   * missing list of an unknown project raises (before anything is written).
   */
  datatype MutationResult = Committed | TypeError

  // ---------------------------------------------------------------------
  // Getters

  /** `state.tasks[projectId] || []`. */
  function GetTasksByProjectId(tasks: map<int, seq<Task>>, projectId: int): (r: seq<Task>)
    ensures projectId in tasks ==> r == tasks[projectId]
    ensures projectId !in tasks ==> r == []
  {
    if projectId in tasks then tasks[projectId] else []
  }

  /** `state.tasks[projectId]?.find(t => t.id === taskId)`. */
  function GetTaskById(tasks: map<int, seq<Task>>, projectId: int, taskId: int): (r: Option<Task>)
    ensures r.None? <==> projectId !in tasks || forall i :: 0 <= i < |tasks[projectId]| ==> tasks[projectId][i].id != taskId
    ensures r.Some? ==> r.value.id == taskId
    ensures r.Some? ==> exists i :: FirstMatch(tasks[projectId], TaskId, taskId, i) && tasks[projectId][i] == r.value
  {
    if projectId in tasks then Find(tasks[projectId], TaskId, taskId) else None
  }

  // ---------------------------------------------------------------------
  // The request body of the addTask action

  /** `{ ...task, projectId, id: Date.now() }`, the clock reading passed in as `now`. */
  function AddTaskPayload(task: Task, projectId: int, now: int): (r: Task)
    ensures r.projectId == projectId && r.id == now
    ensures r.title == task.title && r.assignee == task.assignee
    ensures r.status == task.status && r.dueDate == task.dueDate
  {
    task.(projectId := projectId, id := now)
  }

  // ---------------------------------------------------------------------
  // The state and its mutations

  class TasksState {
    var tasks: map<int, seq<Task>>
    var columnWidths: map<string, int>
    const storage: LocalStorage

    /** The "tasks" slot holds the whole current map. */
    ghost predicate Mirrored()
      reads this, storage
    {
      TasksSlot in storage.slots && storage.slots[TasksSlot] == TaskLists(tasks)
    }

    constructor(storage: LocalStorage)
      ensures tasks == map[] && columnWidths == map[]
      ensures this.storage == storage
    {
      tasks := map[];
      columnWidths := map[];
      this.storage := storage;
    }

    /** `setTasks`: the project's list becomes `list`; every other project keeps its list. */
    method SetTasks(projectId: int, list: seq<Task>)
      modifies this, storage
      ensures tasks == old(tasks)[projectId := list]
      ensures GetTasksByProjectId(tasks, projectId) == list
      ensures forall p :: p != projectId ==> GetTasksByProjectId(tasks, p) == GetTasksByProjectId(old(tasks), p)
      ensures columnWidths == old(columnWidths)
      ensures storage.slots == old(storage.slots)[TasksSlot := TaskLists(tasks)]
      ensures Mirrored()
    {
      tasks := tasks[projectId := list];
      storage.SetItem(TasksSlot, TaskLists(tasks));
    }

    /** `addTask`: appends to the project's list, creating an empty one first when the project has none. */
    method AddTask(projectId: int, task: Task)
      modifies this, storage
      ensures tasks == old(tasks)[projectId := GetTasksByProjectId(old(tasks), projectId) + [task]]
      ensures |tasks[projectId]| == |GetTasksByProjectId(old(tasks), projectId)| + 1
      ensures tasks[projectId][..|tasks[projectId]| - 1] == GetTasksByProjectId(old(tasks), projectId)
      ensures forall p :: p != projectId ==> GetTasksByProjectId(tasks, p) == GetTasksByProjectId(old(tasks), p)
      ensures columnWidths == old(columnWidths)
      ensures storage.slots == old(storage.slots)[TasksSlot := TaskLists(tasks)]
      ensures Mirrored()
    {
      if projectId !in tasks {
        tasks := tasks[projectId := []];
      }
      tasks := tasks[projectId := tasks[projectId] + [task]];
      storage.SetItem(TasksSlot, TaskLists(tasks));
    }

    /**
     * `updateTask`: the first task of the project with the id of `task` is
     * replaced by `task`; positions and length are kept, and with no such task
     * the list is unchanged. An unknown project is a TypeError.
     */
    method UpdateTask(projectId: int, task: Task) returns (result: MutationResult)
      modifies this, storage
      ensures result == if projectId in old(tasks) then Committed else TypeError
      ensures result == TypeError ==> tasks == old(tasks) && storage.slots == old(storage.slots)
      ensures result == Committed ==>
        && tasks == old(tasks)[projectId := ReplaceFirst(old(tasks)[projectId], TaskId, task)]
        && |tasks[projectId]| == |old(tasks)[projectId]|
        && storage.slots == old(storage.slots)[TasksSlot := TaskLists(tasks)]
        && Mirrored()
      ensures columnWidths == old(columnWidths)
    {
      if projectId !in tasks {
        return TypeError;
      }
      var list := tasks[projectId];
      var index := FindIndex(list, TaskId, task.id);
      if index != -1 {
        list := list[index := task];
      }
      tasks := tasks[projectId := list];
      storage.SetItem(TasksSlot, TaskLists(tasks));
      return Committed;
    }

    /** `deleteTask`: every task of the project with that id is dropped, the rest keep their order. */
    method DeleteTask(projectId: int, taskId: int)
      modifies this, storage
      ensures tasks == if projectId in old(tasks)
        then old(tasks)[projectId := RemoveAll(old(tasks)[projectId], TaskId, taskId)]
        else old(tasks)
      ensures GetTaskById(tasks, projectId, taskId).None?
      ensures columnWidths == old(columnWidths)
      ensures storage.slots == old(storage.slots)[TasksSlot := TaskLists(tasks)]
      ensures Mirrored()
    {
      if projectId in tasks {
        tasks := tasks[projectId := RemoveAll(tasks[projectId], TaskId, taskId)];
      }
      storage.SetItem(TasksSlot, TaskLists(tasks));
    }

    /**
     * `reorderTasks`: the task at `oldIndex` is taken out and put back at
     * `newIndex`; the list keeps its length and its elements. The index
     * taken out must name a task (a relative index, as `splice` reads it).
     */
    method ReorderTasks(projectId: int, oldIndex: int, newIndex: int) returns (result: MutationResult)
      requires projectId in tasks ==> -|tasks[projectId]| <= oldIndex < |tasks[projectId]|
      modifies this, storage
      ensures result == if projectId in old(tasks) then Committed else TypeError
      ensures result == TypeError ==> tasks == old(tasks) && storage.slots == old(storage.slots)
      ensures result == Committed ==>
        && tasks == old(tasks)[projectId := Move(old(tasks)[projectId], oldIndex, newIndex)]
        && |tasks[projectId]| == |old(tasks)[projectId]|
        && multiset(tasks[projectId]) == multiset(old(tasks)[projectId])
        && storage.slots == old(storage.slots)[TasksSlot := TaskLists(tasks)]
        && Mirrored()
      ensures columnWidths == old(columnWidths)
    {
      if projectId !in tasks {
        return TypeError;
      }
      var list := tasks[projectId];
      ghost var moved := Move(list, oldIndex, newIndex);
      var from := SpliceStart(|list|, oldIndex);
      var movedTask := list[from];
      var rest := RemoveAt(list, from);
      list := InsertAt(rest, SpliceStart(|rest|, newIndex), movedTask);
      assert list == moved;
      MovePermutes(tasks[projectId], oldIndex, newIndex);
      tasks := tasks[projectId := list];
      storage.SetItem(TasksSlot, TaskLists(tasks));
      return Committed;
    }

    /**
     * `sortTasks`: the project's list is sorted in place by the field `key`,
     * ascending or descending; it stays a permutation of what it was.
     */
    method SortTasks(projectId: int, key: string, order: SortOrder) returns (result: MutationResult)
      modifies this, storage
      ensures result == if projectId in old(tasks) then Committed else TypeError
      ensures result == TypeError ==> tasks == old(tasks) && storage.slots == old(storage.slots)
      ensures result == Committed ==>
        && tasks == old(tasks)[projectId := SortBy(old(tasks)[projectId], key, order)]
        && multiset(tasks[projectId]) == multiset(old(tasks)[projectId])
        && SortedBy(tasks[projectId], key, order)
        && storage.slots == old(storage.slots)[TasksSlot := TaskLists(tasks)]
        && Mirrored()
      ensures columnWidths == old(columnWidths)
    {
      if projectId !in tasks {
        return TypeError;
      }
      SortBySorted(tasks[projectId], key, order);
      SortByPermutes(tasks[projectId], key, order);
      tasks := tasks[projectId := SortBy(tasks[projectId], key, order)];
      storage.SetItem(TasksSlot, TaskLists(tasks));
      return Committed;
    }

    /** `updateColumnWidths`: the widths are replaced wholesale and written to their own slot. */
    method UpdateColumnWidths(widths: map<string, int>)
      modifies this, storage
      ensures columnWidths == widths
      ensures tasks == old(tasks)
      ensures storage.slots == old(storage.slots)[TaskColumnWidthsSlot := ColumnWidths(widths)]
      ensures old(Mirrored()) ==> Mirrored()
    {
      columnWidths := widths;
      storage.SetItem(TaskColumnWidthsSlot, ColumnWidths(widths));
    }
  }

  // ---------------------------------------------------------------------
  // How the mutations and the getters fit together

  /** After `updateTask`, looking the id up finds the new task if the id was there, and nothing otherwise. */
  lemma GetAfterUpdateTask(tasks: map<int, seq<Task>>, projectId: int, task: Task)
    requires projectId in tasks
    ensures var after := tasks[projectId := ReplaceFirst(tasks[projectId], TaskId, task)];
      GetTaskById(after, projectId, task.id) ==
        if GetTaskById(tasks, projectId, task.id).Some? then Some(task) else None
  {
    FindAfterReplaceFirst(tasks[projectId], TaskId, task);
  }

  /** Deleting a task just added under a fresh id gives back the project's earlier list. */
  lemma DeleteUndoesAddTask(tasks: map<int, seq<Task>>, projectId: int, task: Task)
    requires GetTaskById(tasks, projectId, task.id).None?
    ensures RemoveAll(GetTasksByProjectId(tasks, projectId) + [task], TaskId, task.id)
      == GetTasksByProjectId(tasks, projectId)
  {
    RemoveAllUndoesAppend(GetTasksByProjectId(tasks, projectId), TaskId, task);
  }

  /** `reorderTasks(0, 2)` on [A, B, C] gives [B, C, A]. */
  lemma ReorderExample(a: Task, b: Task, c: Task)
    ensures Move([a, b, c], 0, 2) == [b, c, a]
  {
  }
}
