/**
 * The record types the two stores hold: the three-valued workflow status
 * shared by projects and tasks, a task and a project.
 */
module Types {

  /** The `Statuses` union: 'To Do' | 'In Progress' | 'Done'. */
  datatype Status = ToDo | InProgress | Done {
    /** The string literal the status is written as. */
    function Name(): (r: string)
      ensures r in ["To Do", "In Progress", "Done"]
      ensures r == "To Do" <==> this == ToDo
      ensures r == "Done" <==> this == Done
    {
      match this
      case ToDo => "To Do"
      case InProgress => "In Progress"
      case Done => "Done"
    }
  }

  datatype Task = Task(
    id: int,
    projectId: int,
    title: string,
    assignee: string,
    status: Status,
    dueDate: string)

  datatype Project = Project(
    id: int,
    name: string,
    description: string,
    taskCount: int,
    status: Status,
    createdAt: string)

  /** The key both stores look tasks up by (`t.id`). */
  function TaskId(t: Task): int { t.id }

  /** The key the project store looks projects up by (`p.id`). */
  function ProjectId(p: Project): int { p.id }
}
