/** The task operations. Every lookup is guarded by an ownership check on the
    current user's email: a task or project that is missing and one that
    belongs to someone else fail alike, with EntityNotFoundException. */
module TaskService {
  import opened Wrappers
  import opened JavaText
  import opened Entities
  import opened Dtos
  import opened Paging
  import opened TaskRepository
  import opened GlobalExceptionHandler
  import opened Store

  const ProjectAccessDenied := "Project not found or access denied"
  const TaskAccessDenied := "Task not found or access denied"

  predicate OwnsProject(projects: map<nat, Project>, projectId: nat, email: string)
  {
    projectId in projects && projects[projectId].owner == email
  }

  /** The task's project is owned by `email`. */
  predicate OwnsTask(tasks: map<nat, Task>, projects: map<nat, Project>, taskId: nat, email: string)
  {
    taskId in tasks && OwnsProject(projects, tasks[taskId].projectId, email)
  }

  /** `getProjectOwnedByUser`. */
  function GetProjectOwnedByUser(db: Database, projectId: nat, email: string): (r: Result<Project, Exception>)
    reads db
    ensures r.Success? <==> OwnsProject(db.projects, projectId, email)
    ensures r.Success? ==> r.value == db.projects[projectId] && r.value.owner == email
    ensures r.Failure? ==> r.error == EntityNotFound(ProjectAccessDenied)
  {
    if projectId in db.projects && db.projects[projectId].owner == email then Success(db.projects[projectId])
    else Failure(EntityNotFound(ProjectAccessDenied))
  }

  /** `getTaskOwnedByUser`. */
  function GetTaskOwnedByUser(db: Database, taskId: nat, email: string): (r: Result<Task, Exception>)
    reads db
    ensures r.Success? <==> OwnsTask(db.tasks, db.projects, taskId, email)
    ensures r.Success? ==> r.value == db.tasks[taskId]
    ensures r.Failure? ==> r.error == EntityNotFound(TaskAccessDenied)
  {
    if OwnsTask(db.tasks, db.projects, taskId, email) then Success(db.tasks[taskId])
    else Failure(EntityNotFound(TaskAccessDenied))
  }

  /** `mapToDTO`: the task's fields and the identifier of its project. */
  function TaskToDto(t: Task): TaskResponse
  {
    TaskResponse(t.id, t.title, t.description, t.completed, t.dueDate, t.projectId)
  }

  /** The text filter handed to the query: none for a null or blank query,
      otherwise the trimmed, lower-cased query between two `%`. */
  function FormatQuery(query: Option<string>): (r: Option<string>)
    ensures r.None? <==> query.None? || IsBlank(query.value)
  {
    if query.None? || IsBlank(query.value) then None
    else Some("%" + ToLowerCase(Trim(query.value)) + "%")
  }

  function CriteriaFor(projectId: nat, filter: TaskFilterDto): Criteria
  {
    Criteria(projectId, FormatQuery(filter.query), filter.completed, filter.dueDateFrom, filter.dueDateTo)
  }

  /** The listing order, `createdAt` descending: the project's list holds its
      tasks in creation order, so the newest come first when it is reversed. */
  function NewestFirst(ts: seq<Task>): (r: seq<Task>)
    ensures |r| == |ts|
    ensures forall i :: 0 <= i < |ts| ==> r[i] == ts[|ts| - 1 - i]
    ensures forall t :: t in r <==> t in ts
  {
    if ts == [] then []
    else
      assert ts == [ts[0]] + ts[1..];
      NewestFirst(ts[1..]) + [ts[0]]
  }

  /** A text search for a query without wildcards, once trimmed and lower-cased,
      keeps the tasks whose lower-cased title or description contains it. */
  lemma QueryIsSubstringSearch(t: Task, query: string)
    requires !IsBlank(query)
    requires NoWildcards(ToLowerCase(Trim(query)))
    ensures var q := ToLowerCase(Trim(query));
      TextMatches(t, FormatQuery(Some(query))) <==>
        (t.title.Some? && Contains(ToLowerCase(t.title.value), q))
        || (t.description.Some? && Contains(ToLowerCase(t.description.value), q))
  {
    var q := ToLowerCase(Trim(query));
    assert FormatQuery(Some(query)) == Some("%" + q + "%");
    if t.title.Some? {
      SurroundedPatternIsContainment(ToLowerCase(t.title.value), q);
    }
    if t.description.Some? {
      SurroundedPatternIsContainment(ToLowerCase(t.description.value), q);
    }
  }

  /** The query is not escaped: a search for `_` becomes `%_%`, which keeps
      every task with a non-empty title or description. */
  lemma UnderscoreQueryMatchesAnyText(t: Task)
    ensures FormatQuery(Some("_")) == Some("%_%")
    ensures TextMatches(t, FormatQuery(Some("_"))) <==>
              (t.title.Some? && t.title.value != []) || (t.description.Some? && t.description.value != [])
  {
    assert !IsJavaWhitespace("_"[0]) && !IsTrimmable("_"[0]);
    assert Trim("_") == "_";
    assert ToLowerCase("_") == "_";
    assert "%" + "_" + "%" == "%_%";
    if t.title.Some? {
      SurroundedUnderscoreMatchesNonEmpty(ToLowerCase(t.title.value));
    }
    if t.description.Some? {
      SurroundedUnderscoreMatchesNonEmpty(ToLowerCase(t.description.value));
    }
  }

  /** A page of the rows that pass the criteria is the requested window of
      them, in order, with Spring's page count and `last` flag; when the rows
      are taken out of a table keyed by identifier, each entry is moreover the
      record of the task stored under the entry's identifier, and that task
      passes the criteria. */
  lemma PageHoldsMatchingTasks(rows: seq<Task>, tasks: map<nat, Task>, c: Criteria, req: PageRequest)
    requires req.size >= 1
    requires TasksKeyedById(tasks)
    requires forall t :: t in rows ==> t in tasks.Values
    ensures var selected := FindByProject(rows, c);
      var response := ToPagedResponse(Paginate(selected, req), TaskToDto);
      && response.page == req.page && response.size == req.size && response.totalElements == |selected|
      && |response.content| == Min(req.size, |selected| - Min(Offset(req), |selected|))
      && (forall i :: 0 <= i < |response.content| ==>
            Offset(req) + i < |selected| && response.content[i] == TaskToDto(selected[Offset(req) + i]))
      && response.totalPages == PageCount(|selected|, req.size)
      && (response.last <==> req.page + 1 >= response.totalPages)
    ensures var response := ToPagedResponse(Paginate(FindByProject(rows, c), req), TaskToDto);
      forall i :: 0 <= i < |response.content| ==>
        var id := response.content[i].id;
        id in tasks && response.content[i] == TaskToDto(tasks[id]) && Matches(tasks[id], c)
  {
    var selected := FindByProject(rows, c);
    var page := Paginate(selected, req);
    var response := ToPagedResponse(page, TaskToDto);
    forall i | 0 <= i < |response.content|
      ensures var id := response.content[i].id;
        id in tasks && response.content[i] == TaskToDto(tasks[id]) && Matches(tasks[id], c)
    {
      var t := page.content[i];
      assert t == selected[Offset(req) + i];
      assert t in selected;
      assert t in tasks.Values;
      var k :| k in tasks && tasks[k] == t;
    }
  }

  /** `createTask`: a new, uncompleted task with the record's fields, attached to
      an owned project. The column keeps only the due date's day; the answer is
      built from the saved entity, which still holds the instant the record
      carried. */
  method CreateTask(db: Database, email: string, projectId: nat, dto: TaskCreateDto)
    returns (r: Result<TaskResponse, Exception>)
    requires db.Valid()
    modifies db
    ensures db.Valid()
    ensures !OwnsProject(old(db.projects), projectId, email) ==>
              r == Failure(EntityNotFound(ProjectAccessDenied)) && unchanged(db)
    ensures OwnsProject(old(db.projects), projectId, email) ==>
              var id := old(db.nextTaskId);
              var t := Task(id, dto.title, dto.description, StoredDueDate(dto.dueDate), false, projectId);
              var p := old(db.projects)[projectId];
              && id !in old(db.tasks)
              && db.tasks == old(db.tasks)[id := t]
              && db.projects == old(db.projects)[projectId := p.(taskIds := p.taskIds + [id])]
              && db.users == old(db.users)
              && db.nextTaskId == id + 1
              && db.nextProjectId == old(db.nextProjectId) && db.nextUserId == old(db.nextUserId)
              && r == Success(TaskToDto(t.(dueDate := dto.dueDate)))
  {
    var found := GetProjectOwnedByUser(db, projectId, email);
    if found.Failure? {
      return Failure(found.error);
    }
    var project := found.value;
    var id := db.nextTaskId;
    var task := Task(id, dto.title, dto.description, dto.dueDate, false, projectId);
    var stored := task.(dueDate := StoredDueDate(task.dueDate));
    AddTaskKeepsConsistent(db.users, db.projects, db.tasks, db.nextUserId, db.nextProjectId, db.nextTaskId, stored);
    db.tasks := db.tasks[id := stored];
    db.projects := db.projects[projectId := project.(taskIds := project.taskIds + [id])];
    db.nextTaskId := id + 1;
    r := Success(TaskToDto(task));
  }

  /** The tasks `getTasksByProject` pages through: those the project lists,
      newest first, that pass the criteria. */
  function ListedTasks(ids: seq<nat>, tasks: map<nat, Task>, c: Criteria): (r: seq<Task>)
    ensures |r| <= |ids|
    ensures forall t :: t in r <==> t in ProjectTasks(ids, tasks) && Matches(t, c)
  {
    FindByProject(NewestFirst(ProjectTasks(ids, tasks)), c)
  }

  /** The page `getTasksByProject` answers with: the requested window of the
      listed tasks, in listing order, with the page count and `last` flag of
      the whole listing. */
  function TaskPage(ids: seq<nat>, tasks: map<nat, Task>, c: Criteria, req: PageRequest): (r: PagedResponse<TaskResponse>)
    requires req.size >= 1
    requires TasksKeyedById(tasks)
    ensures var rows := ListedTasks(ids, tasks, c);
      && r.page == req.page && r.size == req.size && r.totalElements == |rows|
      && |r.content| == Min(req.size, |rows| - Min(Offset(req), |rows|))
      && (forall i :: 0 <= i < |r.content| ==>
            Offset(req) + i < |rows| && r.content[i] == TaskToDto(rows[Offset(req) + i]))
    ensures r.totalPages == PageCount(r.totalElements, req.size)
    ensures r.last <==> req.page + 1 >= r.totalPages
    ensures forall i :: 0 <= i < |r.content| ==>
              var id := r.content[i].id;
              id in tasks && r.content[i] == TaskToDto(tasks[id]) && Matches(tasks[id], c)
  {
    var rows := NewestFirst(ProjectTasks(ids, tasks));
    PageHoldsMatchingTasks(rows, tasks, c, req);
    ToPagedResponse(Paginate(FindByProject(rows, c), req), TaskToDto)
  }

  /** `getTasksByProject`: one page of the owned project's tasks that pass the
      filter, newest first. */
  method GetTasksByProject(db: Database, email: string, projectId: nat, filter: TaskFilterDto, req: PageRequest)
    returns (r: Result<PagedResponse<TaskResponse>, Exception>)
    requires db.Valid() && req.size >= 1
    ensures r.Failure? <==> !OwnsProject(db.projects, projectId, email)
    ensures r.Failure? ==> r.error == EntityNotFound(ProjectAccessDenied)
    ensures r.Success? ==> r.value == TaskPage(db.projects[projectId].taskIds, db.tasks, CriteriaFor(projectId, filter), req)
  {
    var found := GetProjectOwnedByUser(db, projectId, email);
    if found.Failure? {
      return Failure(found.error);
    }
    var criteria := CriteriaFor(projectId, filter);
    var rows := NewestFirst(ProjectTasks(found.value.taskIds, db.tasks));
    var selected := FindByProject(rows, criteria);
    var page := Paginate(selected, req);
    r := Success(ToPagedResponse(page, TaskToDto));
  }

  /** `updateTask`: title, description and due date are always overwritten, even
      with null; the completion flag only when the record supplies one. As on
      creation, the column keeps the due date's day and the answer the instant. */
  method UpdateTask(db: Database, email: string, taskId: nat, dto: TaskUpdateDto)
    returns (r: Result<TaskResponse, Exception>)
    requires db.Valid()
    modifies db
    ensures db.Valid()
    ensures !OwnsTask(old(db.tasks), old(db.projects), taskId, email) ==>
              r == Failure(EntityNotFound(TaskAccessDenied)) && unchanged(db)
    ensures OwnsTask(old(db.tasks), old(db.projects), taskId, email) ==>
              var t := old(db.tasks)[taskId];
              var u := t.(title := dto.title, description := dto.description, dueDate := StoredDueDate(dto.dueDate),
                          completed := if dto.completed.Some? then dto.completed.value else t.completed);
              && db.tasks == old(db.tasks)[taskId := u]
              && db.projects == old(db.projects) && db.users == old(db.users)
              && db.nextTaskId == old(db.nextTaskId) && db.nextProjectId == old(db.nextProjectId)
              && db.nextUserId == old(db.nextUserId)
              && r == Success(TaskToDto(u.(dueDate := dto.dueDate)))
  {
    var found := GetTaskOwnedByUser(db, taskId, email);
    if found.Failure? {
      return Failure(found.error);
    }
    var task := found.value;
    task := task.(title := dto.title);
    task := task.(description := dto.description);
    task := task.(dueDate := dto.dueDate);
    if dto.completed.Some? {
      task := task.(completed := dto.completed.value);
    }
    var stored := task.(dueDate := StoredDueDate(task.dueDate));
    ReplaceTaskKeepsConsistent(db.users, db.projects, db.tasks, db.nextUserId, db.nextProjectId, db.nextTaskId, stored);
    db.tasks := db.tasks[taskId := stored];
    r := Success(TaskToDto(task));
  }

  /** `markAsCompleted`: sets the flag and nothing else; a completed task is
      left exactly as it was, so marking twice is marking once. */
  method MarkAsCompleted(db: Database, email: string, taskId: nat)
    returns (r: Result<TaskResponse, Exception>)
    requires db.Valid()
    modifies db
    ensures db.Valid()
    ensures !OwnsTask(old(db.tasks), old(db.projects), taskId, email) ==>
              r == Failure(EntityNotFound(TaskAccessDenied)) && unchanged(db)
    ensures OwnsTask(old(db.tasks), old(db.projects), taskId, email) ==>
              var u := old(db.tasks)[taskId].(completed := true);
              && db.tasks == old(db.tasks)[taskId := u]
              && db.tasks[taskId].completed
              && (old(db.tasks)[taskId].completed ==> db.tasks == old(db.tasks))
              && db.projects == old(db.projects) && db.users == old(db.users)
              && db.nextTaskId == old(db.nextTaskId) && db.nextProjectId == old(db.nextProjectId)
              && db.nextUserId == old(db.nextUserId)
              && r == Success(TaskToDto(u))
  {
    var found := GetTaskOwnedByUser(db, taskId, email);
    if found.Failure? {
      return Failure(found.error);
    }
    var task := found.value.(completed := true);
    ReplaceTaskKeepsConsistent(db.users, db.projects, db.tasks, db.nextUserId, db.nextProjectId, db.nextTaskId, task);
    db.tasks := db.tasks[taskId := task];
    r := Success(TaskToDto(task));
  }

  /** `deleteTask`: the task leaves its project's list and the table; no other
      task changes. `None` is a normal return. */
  method DeleteTask(db: Database, email: string, taskId: nat) returns (err: Option<Exception>)
    requires db.Valid()
    modifies db
    ensures db.Valid()
    ensures !OwnsTask(old(db.tasks), old(db.projects), taskId, email) ==>
              err == Some(EntityNotFound(TaskAccessDenied)) && unchanged(db)
    ensures OwnsTask(old(db.tasks), old(db.projects), taskId, email) ==>
              var pid := old(db.tasks)[taskId].projectId;
              var p := old(db.projects)[pid];
              && err.None?
              && db.tasks == old(db.tasks) - {taskId}
              && db.projects == old(db.projects)[pid := p.(taskIds := RemoveFirst(p.taskIds, taskId))]
              && taskId !in db.projects[pid].taskIds
              && |db.projects[pid].taskIds| == |p.taskIds| - 1
              && db.users == old(db.users)
              && db.nextTaskId == old(db.nextTaskId) && db.nextProjectId == old(db.nextProjectId)
              && db.nextUserId == old(db.nextUserId)
  {
    var found := GetTaskOwnedByUser(db, taskId, email);
    if found.Failure? {
      return Some(found.error);
    }
    var task := found.value;
    var project := db.projects[task.projectId];
    RemoveTaskKeepsConsistent(db.users, db.projects, db.tasks, db.nextUserId, db.nextProjectId, db.nextTaskId, taskId);
    db.projects := db.projects[task.projectId := project.(taskIds := RemoveFirst(project.taskIds, taskId))];
    db.tasks := db.tasks - {taskId};
    err := None;
  }
}
