/** The persistent state behind the three services: the user, project and
    task tables, and the next identifier each table hands out (identifiers
    are generated by the database, starting at 1). A task names its project;
    the project's task list holds exactly the tasks that name it. */
module Store {
  import opened Wrappers
  import opened Entities

  predicate Distinct(s: seq<nat>)
  {
    forall i, j :: 0 <= i < j < |s| ==> s[i] != s[j]
  }

  /** Users are keyed by their email, so no two users share one, and every
      identifier was handed out before. */
  ghost predicate UsersOk(users: map<string, User>, nextUserId: nat)
  {
    && (forall e :: e in users ==> users[e].email == e && 1 <= users[e].id < nextUserId)
    && (forall e1, e2 :: e1 in users && e2 in users && users[e1].id == users[e2].id ==> e1 == e2)
  }

  /** Every project is stored under its identifier, has an existing owner and
      lists each task once. */
  ghost predicate ProjectsOk(users: map<string, User>, projects: map<nat, Project>, nextProjectId: nat)
  {
    && ProjectsKeyedById(projects)
    && forall p :: p in projects ==>
      && 1 <= p < nextProjectId
      && projects[p].owner in users
      && Distinct(projects[p].taskIds)
  }

  /** Every project is stored under its own identifier. */
  predicate ProjectsKeyedById(projects: map<nat, Project>)
  {
    forall id :: id in projects ==> projects[id].id == id
  }

  /** Every task is stored under its own identifier. */
  predicate TasksKeyedById(tasks: map<nat, Task>)
  {
    forall id :: id in tasks ==> tasks[id].id == id
  }

  /** A task's project lists it, and a project lists only tasks that name it. */
  ghost predicate TasksOk(projects: map<nat, Project>, tasks: map<nat, Task>, nextTaskId: nat)
  {
    && TasksKeyedById(tasks)
    && (forall t :: t in tasks ==>
          && 1 <= t < nextTaskId
          && tasks[t].projectId in projects
          && t in projects[tasks[t].projectId].taskIds)
    && (forall p, i :: p in projects && 0 <= i < |projects[p].taskIds| ==>
          projects[p].taskIds[i] in tasks && tasks[projects[p].taskIds[i]].projectId == p)
  }

  ghost predicate Consistent(users: map<string, User>, projects: map<nat, Project>, tasks: map<nat, Task>,
                             nextUserId: nat, nextProjectId: nat, nextTaskId: nat)
  {
    && nextUserId >= 1 && nextProjectId >= 1 && nextTaskId >= 1
    && UsersOk(users, nextUserId) && ProjectsOk(users, projects, nextProjectId) && TasksOk(projects, tasks, nextTaskId)
  }

  class Database {
    var users: map<string, User>
    var projects: map<nat, Project>
    var tasks: map<nat, Task>
    var nextUserId: nat
    var nextProjectId: nat
    var nextTaskId: nat

    ghost predicate Valid()
      reads this
    {
      Consistent(users, projects, tasks, nextUserId, nextProjectId, nextTaskId)
    }

    constructor ()
      ensures Valid()
      ensures users == map[] && projects == map[] && tasks == map[]
      ensures nextUserId == 1 && nextProjectId == 1 && nextTaskId == 1
    {
      users, projects, tasks := map[], map[], map[];
      nextUserId, nextProjectId, nextTaskId := 1, 1, 1;
    }
  }

  /** A registration keeps the tables consistent. */
  lemma AddUserKeepsConsistent(users: map<string, User>, projects: map<nat, Project>, tasks: map<nat, Task>,
                                nu: nat, np: nat, nt: nat, u: User)
    requires Consistent(users, projects, tasks, nu, np, nt)
    requires u.email !in users && u.id == nu && nu >= 1
    ensures Consistent(users[u.email := u], projects, tasks, nu + 1, np, nt)
  {
  }

  /** A new task appended to an existing project keeps the tables consistent. */
  lemma AddTaskKeepsConsistent(users: map<string, User>, projects: map<nat, Project>, tasks: map<nat, Task>,
                                nu: nat, np: nat, nt: nat, t: Task)
    requires Consistent(users, projects, tasks, nu, np, nt)
    requires t.id == nt && nt >= 1 && t.projectId in projects
    ensures nt !in tasks && nt !in projects[t.projectId].taskIds
    ensures var p := projects[t.projectId];
      Consistent(users, projects[t.projectId := p.(taskIds := p.taskIds + [nt])], tasks[nt := t], nu, np, nt + 1)
  {
    var p := projects[t.projectId];
    assert nt !in tasks;
    assert forall i :: 0 <= i < |p.taskIds| ==> p.taskIds[i] in tasks;
    var projects' := projects[t.projectId := p.(taskIds := p.taskIds + [nt])];
    var tasks' := tasks[nt := t];
    forall q, i | q in projects' && 0 <= i < |projects'[q].taskIds|
      ensures projects'[q].taskIds[i] in tasks' && tasks'[projects'[q].taskIds[i]].projectId == q
    {
      if q == t.projectId && i == |p.taskIds| {
      } else {
        assert projects'[q].taskIds[i] == projects[q].taskIds[i];
      }
    }
  }

  /** Changing a task's own fields, but not its identifier or project, keeps
      the tables consistent. */
  lemma ReplaceTaskKeepsConsistent(users: map<string, User>, projects: map<nat, Project>, tasks: map<nat, Task>,
                                    nu: nat, np: nat, nt: nat, t: Task)
    requires Consistent(users, projects, tasks, nu, np, nt)
    requires t.id in tasks && tasks[t.id].projectId == t.projectId
    ensures Consistent(users, projects, tasks[t.id := t], nu, np, nt)
  {
  }

  /** A task removed from the table and from its project's list keeps the
      tables consistent. */
  lemma RemoveTaskKeepsConsistent(users: map<string, User>, projects: map<nat, Project>, tasks: map<nat, Task>,
                                   nu: nat, np: nat, nt: nat, id: nat)
    requires Consistent(users, projects, tasks, nu, np, nt)
    requires id in tasks
    ensures var pid := tasks[id].projectId; var p := projects[pid];
      Consistent(users, projects[pid := p.(taskIds := RemoveFirst(p.taskIds, id))], tasks - {id}, nu, np, nt)
  {
    var pid := tasks[id].projectId;
    var p := projects[pid];
    var projects' := projects[pid := p.(taskIds := RemoveFirst(p.taskIds, id))];
    var tasks' := tasks - {id};
    forall q, i | q in projects' && 0 <= i < |projects'[q].taskIds|
      ensures projects'[q].taskIds[i] in tasks' && tasks'[projects'[q].taskIds[i]].projectId == q
    {
      var x := projects'[q].taskIds[i];
      assert x in projects'[q].taskIds;
      if q == pid {
        assert x in p.taskIds && x != id;
        var j :| 0 <= j < |p.taskIds| && p.taskIds[j] == x;
      }
    }
  }

  /** A new, empty project owned by an existing user keeps the tables consistent. */
  lemma AddProjectKeepsConsistent(users: map<string, User>, projects: map<nat, Project>, tasks: map<nat, Task>,
                                   nu: nat, np: nat, nt: nat, p: Project)
    requires Consistent(users, projects, tasks, nu, np, nt)
    requires p.id == np && np >= 1 && p.owner in users && p.taskIds == []
    ensures np !in projects
    ensures Consistent(users, projects[np := p], tasks, nu, np + 1, nt)
  {
  }

  /** Changing a project's title and description keeps the tables consistent. */
  lemma ReplaceProjectKeepsConsistent(users: map<string, User>, projects: map<nat, Project>, tasks: map<nat, Task>,
                                       nu: nat, np: nat, nt: nat, p: Project)
    requires Consistent(users, projects, tasks, nu, np, nt)
    requires p.id in projects && projects[p.id].owner == p.owner && projects[p.id].taskIds == p.taskIds
    ensures Consistent(users, projects[p.id := p], tasks, nu, np, nt)
  {
  }

  /** The tasks of a project, as a table. */
  function TasksOf(tasks: map<nat, Task>, pid: nat): (r: map<nat, Task>)
    ensures forall t :: t in r <==> t in tasks && tasks[t].projectId == pid
    ensures forall t :: t in r ==> r[t] == tasks[t]
  {
    map t | t in tasks && tasks[t].projectId == pid :: tasks[t]
  }

  /** A project removed together with all of its tasks keeps the tables consistent. */
  lemma RemoveProjectKeepsConsistent(users: map<string, User>, projects: map<nat, Project>, tasks: map<nat, Task>,
                                      nu: nat, np: nat, nt: nat, pid: nat)
    requires Consistent(users, projects, tasks, nu, np, nt)
    requires pid in projects
    ensures Consistent(users, projects - {pid}, tasks - TasksOf(tasks, pid).Keys, nu, np, nt)
  {
    var projects' := projects - {pid};
    var tasks' := tasks - TasksOf(tasks, pid).Keys;
    forall q, i | q in projects' && 0 <= i < |projects'[q].taskIds|
      ensures projects'[q].taskIds[i] in tasks' && tasks'[projects'[q].taskIds[i]].projectId == q
    {
      assert projects'[q] == projects[q];
    }
  }

  /** The tasks a list of identifiers names, in list order. */
  function ProjectTasks(ids: seq<nat>, tasks: map<nat, Task>): (ts: seq<Task>)
    ensures |ts| <= |ids|
    ensures (forall i :: 0 <= i < |ids| ==> ids[i] in tasks) ==>
              |ts| == |ids| && forall i :: 0 <= i < |ids| ==> ts[i] == tasks[ids[i]]
    ensures forall t :: t in ts ==> t in tasks.Values
  {
    if ids == [] then []
    else
      var tail := ProjectTasks(ids[1..], tasks);
      if ids[0] in tasks then [tasks[ids[0]]] + tail else tail
  }

  /** Java's `List.remove(Object)`: drop the first occurrence. */
  function RemoveFirst(s: seq<nat>, x: nat): (r: seq<nat>)
    ensures x in s ==> |r| == |s| - 1
    ensures x !in s ==> r == s
    ensures forall y :: y in r ==> y in s
    ensures forall y :: y in s && y != x ==> y in r
    ensures Distinct(s) ==> Distinct(r) && x !in r
  {
    if s == [] then []
    else if s[0] == x then s[1..]
    else
      var tail := RemoveFirst(s[1..], x);
      assert Distinct(s) ==> Distinct(s[1..]) && s[0] !in s[1..];
      var r := [s[0]] + tail;
      assert forall i :: 0 < i < |r| ==> r[i] == tail[i - 1] && r[i] in s[1..];
      r
  }
}
