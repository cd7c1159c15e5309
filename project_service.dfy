/** The project operations. The current user is the one whose email the
    security context holds; the project lookups are guarded by the same
    ownership check as the task operations. */
module ProjectService {
  import opened Wrappers
  import opened Entities
  import opened Dtos
  import opened Paging
  import opened GlobalExceptionHandler
  import opened Store
  import opened TaskService

  const UserNotFound := "User not found"

  /** `getCurrentUser`. */
  function GetCurrentUser(db: Database, email: string): (r: Result<User, Exception>)
    reads db
    ensures r.Success? <==> email in db.users
    ensures r.Success? ==> r.value == db.users[email]
    ensures r.Failure? ==> r.error == EntityNotFound(UserNotFound)
  {
    if email in db.users then Success(db.users[email]) else Failure(EntityNotFound(UserNotFound))
  }

  /** The number of completed tasks in a list. */
  function CountCompleted(ts: seq<Task>): (n: nat)
    ensures n <= |ts|
    ensures n == 0 <==> forall i :: 0 <= i < |ts| ==> !ts[i].completed
    ensures n == |ts| <==> forall i :: 0 <= i < |ts| ==> ts[i].completed
  {
    if ts == [] then 0
    else (if ts[0].completed then 1 else 0) + CountCompleted(ts[1..])
  }

  /** The completion percentage: `completed / total * 100`, and 0 for no tasks. */
  function Progress(completed: nat, total: nat): (r: real)
    requires completed <= total
    ensures total > 0 ==> r * total as real == 100.0 * completed as real
    ensures total == 0 ==> r == 0.0
    ensures 0.0 <= r <= 100.0
    ensures r == 0.0 <==> completed == 0
    ensures r == 100.0 <==> total > 0 && completed == total
  {
    if total == 0 then 0.0
    else
      var f := completed as real / total as real;
      assert 0.0 <= f <= 1.0;
      assert f == 1.0 <==> completed == total by {
        assert f * total as real == completed as real;
      }
      f * 100.0
  }

  /** The figures of the controller tests: 7 of 10 tasks is 70%, 2 of 5 is 40%. */
  lemma ProgressExamples()
    ensures Progress(7, 10) == 70.0 && Progress(2, 5) == 40.0
  {
  }

  /** `mapToDTO`: `None` stands for a project whose task list is null (one
      just built and saved), which reports no tasks. */
  function ProjectToDto(p: Project, tasks: Option<seq<Task>>): (r: ProjectResponse)
    ensures r.id == p.id && r.title == p.title && r.description == p.description
    ensures r.totalTasks == (if tasks.None? then 0 else |tasks.value|)
    ensures r.completedTasks <= r.totalTasks
    ensures tasks.Some? ==> r.completedTasks == CountCompleted(tasks.value)
    ensures r.progressPercentage == Progress(r.completedTasks, r.totalTasks)
    ensures 0.0 <= r.progressPercentage <= 100.0
    ensures r.progressPercentage == 100.0 <==> r.totalTasks > 0 && r.completedTasks == r.totalTasks
  {
    var total := if tasks.None? then 0 else |tasks.value|;
    var completed := if tasks.None? then 0 else CountCompleted(tasks.value);
    ProjectResponse(p.id, p.title, p.description, total, completed, Progress(completed, total))
  }

  /** The response for a stored project, with the tasks it lists. */
  function StoredProjectToDto(p: Project, tasks: map<nat, Task>): ProjectResponse
  {
    ProjectToDto(p, Some(ProjectTasks(p.taskIds, tasks)))
  }

  /** The projects owned by `email` among those with an identifier below `n`,
      in descending identifier order. Identifiers grow with creation time, so
      this is the `createdAt`-descending order the listing asks for. */
  function OwnedBelow(projects: map<nat, Project>, email: string, n: nat): (r: seq<Project>)
    requires ProjectsKeyedById(projects)
    ensures forall i :: 0 <= i < |r| ==>
              r[i].id < n && r[i].id in projects && projects[r[i].id] == r[i] && r[i].owner == email
    ensures forall id :: id < n && id in projects && projects[id].owner == email ==> projects[id] in r
    ensures forall i, j :: 0 <= i < j < |r| ==> r[i].id > r[j].id
  {
    if n == 0 then []
    else
      var rest := OwnedBelow(projects, email, n - 1);
      if n - 1 in projects && projects[n - 1].owner == email then [projects[n - 1]] + rest else rest
  }

  /** The page `getCurrentUserProjects` answers with. */
  function ProjectPage(projects: map<nat, Project>, tasks: map<nat, Task>, email: string, n: nat, req: PageRequest)
    : (r: PagedResponse<ProjectResponse>)
    requires ProjectsKeyedById(projects) && req.size >= 1
    ensures var rows := OwnedBelow(projects, email, n);
      && r.page == req.page && r.size == req.size && r.totalElements == |rows|
      && |r.content| == Min(req.size, |rows| - Min(Offset(req), |rows|))
      && (forall i :: 0 <= i < |r.content| ==>
            Offset(req) + i < |rows| && r.content[i] == StoredProjectToDto(rows[Offset(req) + i], tasks))
    ensures r.totalPages == PageCount(r.totalElements, req.size)
    ensures r.last <==> req.page + 1 >= r.totalPages
    ensures forall i :: 0 <= i < |r.content| ==>
              var id := r.content[i].id;
              id in projects && projects[id].owner == email
              && r.content[i] == StoredProjectToDto(projects[id], tasks)
  {
    var rows := OwnedBelow(projects, email, n);
    var page := Paginate(rows, req);
    var r := ToPagedResponse(page, p => StoredProjectToDto(p, tasks));
    assert forall i :: 0 <= i < |r.content| ==> r.content[i] == StoredProjectToDto(rows[Offset(req) + i], tasks);
    r
  }

  /** `createProject`: a new project, owned by the current user, with no tasks. */
  method CreateProject(db: Database, email: string, dto: CreateProjectDto)
    returns (r: Result<ProjectResponse, Exception>)
    requires db.Valid()
    modifies db
    ensures db.Valid()
    ensures email !in old(db.users) ==> r == Failure(EntityNotFound(UserNotFound)) && unchanged(db)
    ensures email in old(db.users) ==>
              var id := old(db.nextProjectId);
              && id !in old(db.projects)
              && db.projects == old(db.projects)[id := Project(id, dto.title, dto.description, email, [])]
              && db.users == old(db.users) && db.tasks == old(db.tasks)
              && db.nextProjectId == id + 1
              && db.nextUserId == old(db.nextUserId) && db.nextTaskId == old(db.nextTaskId)
              && r == Success(ProjectResponse(id, dto.title, dto.description, 0, 0, 0.0))
  {
    var user := GetCurrentUser(db, email);
    if user.Failure? {
      return Failure(user.error);
    }
    var id := db.nextProjectId;
    var project := Project(id, dto.title, dto.description, user.value.email, []);
    AddProjectKeepsConsistent(db.users, db.projects, db.tasks, db.nextUserId, db.nextProjectId, db.nextTaskId, project);
    db.projects := db.projects[id := project];
    db.nextProjectId := id + 1;
    r := Success(ProjectToDto(project, None));
  }

  /** `getCurrentUserProjects`: one page of the current user's projects, newest first. */
  method GetCurrentUserProjects(db: Database, email: string, req: PageRequest)
    returns (r: Result<PagedResponse<ProjectResponse>, Exception>)
    requires db.Valid() && req.size >= 1
    ensures r.Failure? <==> email !in db.users
    ensures r.Failure? ==> r.error == EntityNotFound(UserNotFound)
    ensures r.Success? ==> r.value == ProjectPage(db.projects, db.tasks, email, db.nextProjectId, req)
  {
    var user := GetCurrentUser(db, email);
    if user.Failure? {
      return Failure(user.error);
    }
    r := Success(ProjectPage(db.projects, db.tasks, user.value.email, db.nextProjectId, req));
  }

  /** `getProjectById`. */
  method GetProjectById(db: Database, email: string, id: nat) returns (r: Result<ProjectResponse, Exception>)
    ensures r.Failure? <==> !OwnsProject(db.projects, id, email)
    ensures r.Failure? ==> r.error == EntityNotFound(ProjectAccessDenied)
    ensures r.Success? ==> r.value == StoredProjectToDto(db.projects[id], db.tasks)
  {
    var found := GetProjectOwnedByUser(db, id, email);
    if found.Failure? {
      return Failure(found.error);
    }
    r := Success(StoredProjectToDto(found.value, db.tasks));
  }

  /** `updateProject`: the title and description are overwritten, even with
      null; the owner and the task list stay. */
  method UpdateProject(db: Database, email: string, id: nat, dto: UpdateProjectDto)
    returns (r: Result<ProjectResponse, Exception>)
    requires db.Valid()
    modifies db
    ensures db.Valid()
    ensures !OwnsProject(old(db.projects), id, email) ==>
              r == Failure(EntityNotFound(ProjectAccessDenied)) && unchanged(db)
    ensures OwnsProject(old(db.projects), id, email) ==>
              var p := old(db.projects)[id].(title := dto.title, description := dto.description);
              && db.projects == old(db.projects)[id := p]
              && db.users == old(db.users) && db.tasks == old(db.tasks)
              && db.nextUserId == old(db.nextUserId) && db.nextProjectId == old(db.nextProjectId)
              && db.nextTaskId == old(db.nextTaskId)
              && r == Success(StoredProjectToDto(p, db.tasks))
  {
    var found := GetProjectOwnedByUser(db, id, email);
    if found.Failure? {
      return Failure(found.error);
    }
    var project := found.value.(title := dto.title);
    project := project.(description := dto.description);
    ReplaceProjectKeepsConsistent(db.users, db.projects, db.tasks, db.nextUserId, db.nextProjectId, db.nextTaskId, project);
    db.projects := db.projects[id := project];
    r := Success(StoredProjectToDto(project, db.tasks));
  }

  /** `deleteProject`: the project goes, and with it (cascade and orphan
      removal) every task that belongs to it; no other task changes. */
  method DeleteProject(db: Database, email: string, id: nat) returns (err: Option<Exception>)
    requires db.Valid()
    modifies db
    ensures db.Valid()
    ensures !OwnsProject(old(db.projects), id, email) ==>
              err == Some(EntityNotFound(ProjectAccessDenied)) && unchanged(db)
    ensures OwnsProject(old(db.projects), id, email) ==>
              && err.None?
              && db.projects == old(db.projects) - {id}
              && db.tasks == old(db.tasks) - TasksOf(old(db.tasks), id).Keys
              && (forall t :: t in db.tasks ==> db.tasks[t].projectId != id)
              && (forall t :: t in old(db.tasks) && old(db.tasks)[t].projectId != id ==>
                    t in db.tasks && db.tasks[t] == old(db.tasks)[t])
              && db.users == old(db.users)
              && db.nextUserId == old(db.nextUserId) && db.nextProjectId == old(db.nextProjectId)
              && db.nextTaskId == old(db.nextTaskId)
  {
    var found := GetProjectOwnedByUser(db, id, email);
    if found.Failure? {
      return Some(found.error);
    }
    RemoveProjectKeepsConsistent(db.users, db.projects, db.tasks, db.nextUserId, db.nextProjectId, db.nextTaskId, id);
    db.tasks := db.tasks - TasksOf(db.tasks, id).Keys;
    db.projects := db.projects - {id};
    err := None;
  }
}
