/**
 * The browser's local storage as the stores use it: a table from fixed slot
 * names to the last value written there. Values are kept as they are; their
 * JSON text form is not modelled.
 */
module Storage {
  import opened Types

  const TasksSlot := "tasks"
  const TaskColumnWidthsSlot := "taskColumnWidths"
  const ProjectsSlot := "projects"
  const ProjectColumnWidthsSlot := "projectColumnWidths"

  /** What a store writes into a slot. */
  datatype Stored =
    | TaskLists(byProject: map<int, seq<Task>>)
    | ProjectList(projects: seq<Project>)
    | ColumnWidths(widths: map<string, int>)

  class LocalStorage {
    var slots: map<string, Stored>

    constructor()
      ensures slots == map[]
    {
      slots := map[];
    }

    /** `localStorage.setItem(key, value)`: overwrites one slot and no other. */
    method SetItem(key: string, value: Stored)
      modifies this
      ensures slots == old(slots)[key := value]
    {
      slots := slots[key := value];
    }
  }
}
