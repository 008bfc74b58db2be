/**
 * The project store: the ordered list of projects, plus the column widths of
 * the projects table. Every list mutation writes the list to the "projects"
 * storage slot; the width update writes the widths to "projectColumnWidths".
 */
module ProjectStore {
  import opened Types
  import opened Lists
  import opened Storage

  // ---------------------------------------------------------------------
  // The draft the addProject action sends

  /** What the creation form supplies. */
  datatype NewProject = NewProject(name: string, description: string)

  /** A project before the server has given it an id. */
  datatype ProjectDraft = ProjectDraft(
    name: string,
    description: string,
    taskCount: int,
    status: Status,
    createdAt: string)

  /** `iso.split('T')[0]`: everything before the first 'T', or all of it. */
  function DatePart(iso: string): (r: string)
    ensures |r| <= |iso| && r == iso[..|r|]
    ensures forall i :: 0 <= i < |r| ==> r[i] != 'T'
    ensures |r| < |iso| ==> iso[|r|] == 'T'
  {
    if iso == [] || iso[0] == 'T' then []
    else [iso[0]] + DatePart(iso[1..])
  }

  /**
   * For a timestamp as `toISOString` writes it ("YYYY-MM-DDTHH:mm:ss.sssZ")
   * the date part is its first ten characters.
   */
  lemma DatePartOfIsoTimestamp(iso: string)
    requires |iso| == 24 && iso[10] == 'T'
    requires forall i :: 0 <= i < 10 ==> iso[i] in "0123456789-"
    ensures DatePart(iso) == iso[..10]
  {
  }

  /**
   * `{ ...project, taskCount: 0, status: 'To Do', createdAt: iso.split('T')[0] }`,
   * the current time passed in as the ISO string `isoNow`.
   */
  function NewProjectDraft(project: NewProject, isoNow: string): (r: ProjectDraft)
    ensures r.name == project.name && r.description == project.description
    ensures r.taskCount == 0 && r.status == ToDo
    ensures r.createdAt <= isoNow && 'T' !in r.createdAt
    ensures |r.createdAt| < |isoNow| ==> isoNow[|r.createdAt|] == 'T'
  {
    ProjectDraft(project.name, project.description, 0, ToDo, DatePart(isoNow))
  }

  // ---------------------------------------------------------------------
  // Getter

  /** `state.projects.find(p => p.id === projectId)`. */
  function GetProjectById(projects: seq<Project>, projectId: int): (r: Option<Project>)
    ensures r.None? <==> forall i :: 0 <= i < |projects| ==> projects[i].id != projectId
    ensures r.Some? ==> r.value.id == projectId
    ensures r.Some? ==> exists i :: FirstMatch(projects, ProjectId, projectId, i) && projects[i] == r.value
  {
    Find(projects, ProjectId, projectId)
  }

  // ---------------------------------------------------------------------
  // The state and its mutations

  class ProjectsState {
    var projects: seq<Project>
    var columnWidths: map<string, int>
    const storage: LocalStorage

    /** The "projects" slot holds the current list. */
    ghost predicate Mirrored()
      reads this, storage
    {
      ProjectsSlot in storage.slots && storage.slots[ProjectsSlot] == ProjectList(projects)
    }

    constructor(storage: LocalStorage)
      ensures projects == [] && columnWidths == map[]
      ensures this.storage == storage
    {
      projects := [];
      columnWidths := map[];
      this.storage := storage;
    }

    /** `setProjects`: the list becomes `list`. */
    method SetProjects(list: seq<Project>)
      modifies this, storage
      ensures projects == list
      ensures columnWidths == old(columnWidths)
      ensures storage.slots == old(storage.slots)[ProjectsSlot := ProjectList(list)]
      ensures Mirrored()
    {
      projects := list;
      storage.SetItem(ProjectsSlot, ProjectList(list));
    }

    /** `addProject`: appends; the earlier entries stay where they were. */
    method AddProject(project: Project)
      modifies this, storage
      ensures projects == old(projects) + [project]
      ensures |projects| == |old(projects)| + 1 && projects[..|old(projects)|] == old(projects)
      ensures columnWidths == old(columnWidths)
      ensures storage.slots == old(storage.slots)[ProjectsSlot := ProjectList(projects)]
      ensures Mirrored()
    {
      projects := projects + [project];
      storage.SetItem(ProjectsSlot, ProjectList(projects));
    }

    /**
     * `updateProject`: the first entry with the id of `project` is replaced;
     * with no such entry the list is unchanged but still written out.
     */
    method UpdateProject(project: Project)
      modifies this, storage
      ensures projects == ReplaceFirst(old(projects), ProjectId, project)
      ensures |projects| == |old(projects)|
      ensures forall i :: 0 <= i < |projects| ==> projects[i].id == old(projects)[i].id
      ensures columnWidths == old(columnWidths)
      ensures storage.slots == old(storage.slots)[ProjectsSlot := ProjectList(projects)]
      ensures Mirrored()
    {
      ReplaceFirstKeepsIds(projects, ProjectId, project);
      var index := FindIndex(projects, ProjectId, project.id);
      if index != -1 {
        projects := projects[index := project];
      }
      storage.SetItem(ProjectsSlot, ProjectList(projects));
    }

    /** `deleteProject`: every entry with that id is dropped, the rest keep their order. */
    method DeleteProject(projectId: int)
      modifies this, storage
      ensures projects == RemoveAll(old(projects), ProjectId, projectId)
      ensures GetProjectById(projects, projectId).None?
      ensures columnWidths == old(columnWidths)
      ensures storage.slots == old(storage.slots)[ProjectsSlot := ProjectList(projects)]
      ensures Mirrored()
    {
      projects := RemoveAll(projects, ProjectId, projectId);
      storage.SetItem(ProjectsSlot, ProjectList(projects));
    }

    /** `updateColumnWidths`: the widths are replaced wholesale and written to their own slot. */
    method UpdateColumnWidths(widths: map<string, int>)
      modifies this, storage
      ensures columnWidths == widths
      ensures projects == old(projects)
      ensures storage.slots == old(storage.slots)[ProjectColumnWidthsSlot := ColumnWidths(widths)]
      ensures old(Mirrored()) ==> Mirrored()
    {
      columnWidths := widths;
      storage.SetItem(ProjectColumnWidthsSlot, ColumnWidths(widths));
    }
  }

  // ---------------------------------------------------------------------
  // How the mutations and the getter fit together

  /** After `updateProject`, looking the id up finds the new entry if the id was there, and nothing otherwise. */
  lemma GetAfterUpdateProject(projects: seq<Project>, project: Project)
    ensures GetProjectById(ReplaceFirst(projects, ProjectId, project), project.id) ==
      if GetProjectById(projects, project.id).Some? then Some(project) else None
  {
    FindAfterReplaceFirst(projects, ProjectId, project);
  }

  /** `updateProject` leaves the lookup of every other id as it was. */
  lemma GetOtherAfterUpdateProject(projects: seq<Project>, project: Project, projectId: int)
    requires projectId != project.id
    ensures GetProjectById(ReplaceFirst(projects, ProjectId, project), projectId) == GetProjectById(projects, projectId)
  {
    FindOtherAfterReplaceFirst(projects, ProjectId, project, projectId);
  }
}
