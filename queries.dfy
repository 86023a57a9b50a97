/**
  The query router: five lookups and four composite queries, each a function
  of one store snapshot. Every `findMany` with an `id: {in: xs}` condition is a
  filter over that table, so a result keeps the table's order and holds each
  row at most as often as the table does. Beside each query stands its
  set-builder reading, stated over the tables alone, and a proof that the
  step-by-step computation of the router meets it.
 */
module Queries {
  import opened Wrappers
  import opened Seqs
  import opened Schema

  datatype QueryError = NotFound

  // ---------------------------------------------------------------------
  // Set-builder vocabulary, stated over the tables alone
  // ---------------------------------------------------------------------

  /** Some iteration with id `iterationId` belongs to project `projectId`. */
  predicate IterationOfProject(db: Db, iterationId: int, projectId: int) {
    exists it :: it in db.iterations && it.id == iterationId && it.projectId == projectId
  }

  /** Some membership row puts user `userId` in project `projectId`. */
  predicate MemberOfProject(db: Db, userId: int, projectId: int) {
    exists pm :: pm in db.projectMembers && pm.userId == userId && pm.projectId == projectId
  }

  /** User `userId` is the executor of some task whose status is `status`. */
  predicate ExecutesTaskWithStatus(db: Db, userId: int, status: string) {
    exists t :: t in db.tasks && t.executorId == Some(userId) && t.status == status
  }

  /** User `userId` has a salary row whose amount is strictly above `amount`. */
  predicate HasSalaryAbove(db: Db, userId: int, amount: int) {
    exists s :: s in db.salaries && s.userId == userId && s.amount > amount
  }

  /** The number of iterations of project `projectId`. */
  function IterationCount(db: Db, projectId: int): nat {
    |Filter((it: Iteration) => it.projectId == projectId, db.iterations)|
  }

  /** The number of membership rows of project `projectId`. */
  function MemberCount(db: Db, projectId: int): nat {
    |Filter((pm: ProjectMember) => pm.projectId == projectId, db.projectMembers)|
  }

  /** Some membership row names project `projectId`. */
  predicate HasMembers(db: Db, projectId: int) {
    exists pm :: pm in db.projectMembers && pm.projectId == projectId
  }

  /** Some iteration of project `projectId` holds a task worth more than `points`. */
  predicate HasTaskAbove(db: Db, projectId: int, points: int) {
    exists it, t :: it in db.iterations && t in db.tasks && it.projectId == projectId
      && t.iterationId == it.id && t.points > points
  }

  // ---------------------------------------------------------------------
  // Lookups
  // ---------------------------------------------------------------------

  /** getTasksByProjectId: the ids of the project's iterations, then the tasks in them. */
  function GetTasksByProjectId(db: Db, projectId: int): (r: seq<Task>)
    ensures forall t :: t in r <==> t in db.tasks && IterationOfProject(db, t.iterationId, projectId)
  {
    var iterationIds := Map((it: Iteration) => it.id,
      Filter((it: Iteration) => it.projectId == projectId, db.iterations));
    Filter((t: Task) => t.iterationId in iterationIds, db.tasks)
  }

  /** A project without iterations has no tasks. */
  lemma GetTasksByProjectIdWithoutIterations(db: Db, projectId: int)
    requires forall it :: it in db.iterations ==> it.projectId != projectId
    ensures GetTasksByProjectId(db, projectId) == []
  {
  }

  /** getUsersByProjectId: the user ids of the project's membership rows, then those users. */
  function GetUsersByProjectId(db: Db, projectId: int): (r: seq<User>)
    ensures forall u :: u in r <==> u in db.users && MemberOfProject(db, u.id, projectId)
  {
    var memberUserIds := Map((pm: ProjectMember) => pm.userId,
      Filter((pm: ProjectMember) => pm.projectId == projectId, db.projectMembers));
    Filter((u: User) => u.id in memberUserIds, db.users)
  }

  /** Each member is listed once, however many membership rows repeat them. */
  lemma GetUsersByProjectIdListsEachUserOnce(db: Db, projectId: int)
    requires UniqueUserIds(db)
    ensures Distinct(UserIds(GetUsersByProjectId(db, projectId)))
  {
    var memberUserIds := Map((pm: ProjectMember) => pm.userId,
      Filter((pm: ProjectMember) => pm.projectId == projectId, db.projectMembers));
    FilterKeepsKeysDistinct((u: User) => u.id, (u: User) => u.id in memberUserIds, db.users);
  }

  /** getSalaryByUserId: the salary rows of one user. */
  function GetSalaryByUserId(db: Db, userId: int): (r: seq<Salary>)
    ensures forall s :: s in r <==> s in db.salaries && s.userId == userId
  {
    Filter((s: Salary) => s.userId == userId, db.salaries)
  }

  /** Under the unique constraint on Salary.userId a user has zero or one salary. */
  lemma GetSalaryByUserIdAtMostOne(db: Db, userId: int)
    requires OneSalaryPerUser(db.salaries)
    ensures |GetSalaryByUserId(db, userId)| <= 1
  {
    var r := GetSalaryByUserId(db, userId);
    FilterKeepsKeysDistinct((s: Salary) => s.userId, (s: Salary) => s.userId == userId, db.salaries);
    assert |r| < 2 || SalaryUserIds(r)[0] == SalaryUserIds(r)[1] by {
      if |r| >= 2 {
        assert r[0] in r && r[1] in r;
      }
    }
  }

  /** getTasksByUserId: the tasks whose executor is the user; unassigned tasks never match. */
  function GetTasksByUserId(db: Db, userId: int): (r: seq<Task>)
    ensures forall t :: t in r <==> t in db.tasks && t.executorId == Some(userId)
    ensures forall t :: t in r ==> t.executorId != None
  {
    Filter((t: Task) => t.executorId == Some(userId), db.tasks)
  }

  /**
    getOwnerByProjectId: NOT_FOUND when no project has the id; otherwise the
    user whose id is the project's owner id, or null when there is none.
   */
  function GetOwnerByProjectId(db: Db, projectId: int): (r: Result<Option<User>, QueryError>)
    ensures r.Failure? <==> forall p :: p in db.projects ==> p.id != projectId
    ensures r.Failure? ==> r.error == NotFound
    ensures r.Success? && r.value.Some? ==>
      r.value.value in db.users
      && exists p :: p in db.projects && p.id == projectId && p.ownerId == r.value.value.id
    ensures r == Success(None) ==>
      exists p :: p in db.projects && p.id == projectId && forall u :: u in db.users ==> u.id != p.ownerId
  {
    match FindFirst((p: Project) => p.id == projectId, db.projects)
    case None => Failure(NotFound)
    case Some(project) => Success(FindFirst((u: User) => u.id == project.ownerId, db.users))
  }

  /** With primary keys in place, the answer is the owner of the one project with that id. */
  lemma GetOwnerByProjectIdIsOwner(db: Db, p: Project)
    requires UniqueProjectIds(db)
    requires p in db.projects
    ensures GetOwnerByProjectId(db, p.id).Success?
    ensures GetOwnerByProjectId(db, p.id).value.None? <==> forall u :: u in db.users ==> u.id != p.ownerId
    ensures GetOwnerByProjectId(db, p.id).value.Some? ==> GetOwnerByProjectId(db, p.id).value.value.id == p.ownerId
  {
    var found := FindFirst((q: Project) => q.id == p.id, db.projects);
    assert found.Some?;
    ProjectIdIsKey(db.projects, p, found.value);
  }


  // ---------------------------------------------------------------------
  // Composite queries
  // ---------------------------------------------------------------------

  /**
    getUsersBySalaryAndTaskStatus: a relation filter on each user, "the salary
    amount is greater than `salary`" and "some withExecutor task has status DONE".
   */
  function GetUsersBySalaryAndTaskStatus(db: Db, salary: int): (r: seq<User>)
    ensures forall u :: u in r ==> u in db.users
  {
    Filter((u: User) =>
        (exists s | s in db.salaries :: s.userId == u.id && s.amount > salary)
        && (exists t | t in db.tasks :: t.executorId == Some(u.id) && t.status == "DONE"),
      db.users)
  }

  /** A user is returned exactly when their salary is strictly above the bound and they have finished a task. */
  lemma GetUsersBySalaryAndTaskStatusMembers(db: Db, salary: int, u: User)
    ensures u in GetUsersBySalaryAndTaskStatus(db, salary) <==>
      u in db.users && HasSalaryAbove(db, u.id, salary) && ExecutesTaskWithStatus(db, u.id, "DONE")
  {
  }

  /** Never a user whose salary is at most the bound, and never a user with no salary row. */
  lemma GetUsersBySalaryAndTaskStatusExcludesLowSalary(db: Db, salary: int, u: User)
    requires forall s :: s in db.salaries && s.userId == u.id ==> s.amount <= salary
    ensures u !in GetUsersBySalaryAndTaskStatus(db, salary)
  {
  }

  /** Every user of this query also answers "some task DONE and some task DONE". */
  lemma GetUsersBySalaryAndTaskStatusFinishedTasks(db: Db, salary: int)
    ensures forall u :: u in GetUsersBySalaryAndTaskStatus(db, salary) ==> u in GetUsersByTasksStatus(db, "DONE", "DONE")
  {
  }

  /** The project ids that have more than `iterationsNumber` iterations and at least one member. */
  function ProjectIdsByIterationsAndUsers(db: Db, iterationsNumber: int): (r: seq<int>)
    ensures forall id :: id in r <==>
      id in ProjectIds(db.projects) && IterationCount(db, id) > iterationsNumber && HasMembers(db, id)
  {
    var projectsIds := Map((p: Project) => p.id, db.projects);
    var withMoreIterations := Filter((projectId: int) =>
      |Filter((it: Iteration) => it.projectId == projectId, db.iterations)| > iterationsNumber, projectsIds);
    var projectsIdsWithUsers := Map((pm: ProjectMember) => pm.projectId, db.projectMembers);
    Filter((projectId: int) => projectId in projectsIdsWithUsers, withMoreIterations)
  }

  /** getProjectsByIterationsAndUsers: the projects whose id is in the intersection above. */
  function GetProjectsByIterationsAndUsers(db: Db, iterationsNumber: int): (r: seq<Project>)
    ensures forall p :: p in r ==> p in db.projects
  {
    var ids := ProjectIdsByIterationsAndUsers(db, iterationsNumber);
    Filter((p: Project) => p.id in ids, db.projects)
  }

  /** A project is returned exactly when it has strictly more iterations than asked and some member. */
  lemma GetProjectsByIterationsAndUsersMembers(db: Db, iterationsNumber: int, p: Project)
    ensures p in GetProjectsByIterationsAndUsers(db, iterationsNumber) <==>
      p in db.projects && IterationCount(db, p.id) > iterationsNumber && HasMembers(db, p.id)
  {
  }

  /** The result lists no project twice. */
  lemma GetProjectsByIterationsAndUsersDistinct(db: Db, iterationsNumber: int)
    requires UniqueProjectIds(db)
    ensures Distinct(ProjectIds(GetProjectsByIterationsAndUsers(db, iterationsNumber)))
  {
    var ids := ProjectIdsByIterationsAndUsers(db, iterationsNumber);
    FilterKeepsKeysDistinct((p: Project) => p.id, (p: Project) => p.id in ids, db.projects);
  }

  /**
    The executor ids of the tasks with `firstStatus` that also occur among the
    executor ids of the tasks with `secondStatus`; null ids are kept, as `includes`
    compares them with `===`.
   */
  function ExecutorIdsInBoth(db: Db, firstStatus: string, secondStatus: string): (r: seq<Option<int>>)
    ensures forall id :: id in r <==>
      (exists t :: t in db.tasks && t.status == firstStatus && t.executorId == id)
      && (exists t :: t in db.tasks && t.status == secondStatus && t.executorId == id)
  {
    var firstStatusTasks := Filter((t: Task) => t.status == firstStatus, db.tasks);
    var secondStatusTasks := Filter((t: Task) => t.status == secondStatus, db.tasks);
    var firstStatusTasksUserIds := Map((t: Task) => t.executorId, firstStatusTasks);
    var secondStatusTasksUserIds := Map((t: Task) => t.executorId, secondStatusTasks);
    Filter((userId: Option<int>) => userId in secondStatusTasksUserIds, firstStatusTasksUserIds)
  }

  /** `user.findMany({where: {id: {in: ids}}})`: a null in `ids` matches no user. */
  function UsersWithIdIn(users: seq<User>, ids: seq<Option<int>>): (r: seq<User>)
    ensures forall u :: u in r <==> u in users && Some(u.id) in ids
  {
    Filter((u: User) => Some(u.id) in ids, users)
  }

  /** getUsersByTasksStatus. */
  function GetUsersByTasksStatus(db: Db, firstStatus: string, secondStatus: string): (r: seq<User>)
    ensures forall u :: u in r ==> u in db.users
  {
    UsersWithIdIn(db.users, ExecutorIdsInBoth(db, firstStatus, secondStatus))
  }

  /** A user's id is kept exactly when they execute a task of each of the two statuses. */
  lemma ExecutorIdsInBothMembers(db: Db, firstStatus: string, secondStatus: string, userId: int)
    ensures Some(userId) in ExecutorIdsInBoth(db, firstStatus, secondStatus) <==>
      ExecutesTaskWithStatus(db, userId, firstStatus) && ExecutesTaskWithStatus(db, userId, secondStatus)
  {
  }

  /** A user is returned exactly when they execute a task of each of the two statuses. */
  lemma GetUsersByTasksStatusMembers(db: Db, firstStatus: string, secondStatus: string, u: User)
    ensures u in GetUsersByTasksStatus(db, firstStatus, secondStatus) <==>
      u in db.users && ExecutesTaskWithStatus(db, u.id, firstStatus) && ExecutesTaskWithStatus(db, u.id, secondStatus)
  {
  }

  /** Swapping the two statuses gives the same users in the same order. */
  lemma GetUsersByTasksStatusSymmetric(db: Db, a: string, b: string)
    ensures GetUsersByTasksStatus(db, a, b) == GetUsersByTasksStatus(db, b, a)
  {
    var ab := ExecutorIdsInBoth(db, a, b);
    var ba := ExecutorIdsInBoth(db, b, a);
    forall u | u in db.users
      ensures (Some(u.id) in ab) == (Some(u.id) in ba)
    {
      ExecutorIdsInBothMembers(db, a, b, u.id);
      ExecutorIdsInBothMembers(db, b, a, u.id);
    }
    FilterCongruence((u: User) => Some(u.id) in ab, (u: User) => Some(u.id) in ba, db.users);
  }

  /** With one status twice, the query lists the users executing some task of that status. */
  lemma GetUsersByTasksStatusSameStatus(db: Db, status: string)
    ensures GetUsersByTasksStatus(db, status, status)
         == Filter((u: User) => ExecutesTaskWithStatus(db, u.id, status), db.users)
  {
    var ids := ExecutorIdsInBoth(db, status, status);
    forall u | u in db.users
      ensures (Some(u.id) in ids) == ExecutesTaskWithStatus(db, u.id, status)
    {
      ExecutorIdsInBothMembers(db, status, status, u.id);
    }
    FilterCongruence((u: User) => Some(u.id) in ids,
      (u: User) => ExecutesTaskWithStatus(db, u.id, status), db.users);
  }

  /** Unassigned tasks contribute nothing: deleting every task with a null executor changes no answer. */
  lemma GetUsersByTasksStatusIgnoresUnassignedTasks(db: Db, a: string, b: string)
    ensures GetUsersByTasksStatus(db, a, b)
         == GetUsersByTasksStatus(db.(tasks := Filter((t: Task) => t.executorId.Some?, db.tasks)), a, b)
  {
    var withExecutor := db.(tasks := Filter((t: Task) => t.executorId.Some?, db.tasks));
    var ids := ExecutorIdsInBoth(db, a, b);
    var withExecutorIds := ExecutorIdsInBoth(withExecutor, a, b);
    forall u | u in db.users
      ensures (Some(u.id) in ids) == (Some(u.id) in withExecutorIds)
    {
      ExecutorIdsInBothMembers(db, a, b, u.id);
      ExecutorIdsInBothMembers(withExecutor, a, b, u.id);
      assert ExecutesTaskWithStatus(db, u.id, a) == ExecutesTaskWithStatus(withExecutor, u.id, a);
      assert ExecutesTaskWithStatus(db, u.id, b) == ExecutesTaskWithStatus(withExecutor, u.id, b);
    }
    FilterCongruence((u: User) => Some(u.id) in ids, (u: User) => Some(u.id) in withExecutorIds, db.users);
  }

  /**
    The project ids that occur in exactly `usersNumber` membership rows, each
    once, in order of first occurrence.
   */
  function ProjectIdsWithUsersNumber(db: Db, usersNumber: int): (r: seq<int>)
    ensures Distinct(r)
  {
    var projectMembers := db.projectMembers;
    var projectsIdsWithUsersNumberUsers := Map((pm: ProjectMember) => pm.projectId,
      Filter((pm: ProjectMember) =>
        |Filter((q: ProjectMember) => q.projectId == pm.projectId, projectMembers)| == usersNumber,
        projectMembers));
    Dedupe(projectsIdsWithUsersNumberUsers)
  }

  /** getProjectsByUsersAndTasksPoints. */
  function GetProjectsByUsersAndTasksPoints(db: Db, usersNumber: int, tasksPoints: int): (r: seq<Project>)
    ensures forall p :: p in r ==> p in db.projects
  {
    var projectsWithUsers := ProjectIdsWithUsersNumber(db, usersNumber);
    var iterations := Filter((it: Iteration) =>
        it.projectId in projectsWithUsers
        && (exists t | t in db.tasks :: t.iterationId == it.id && t.points > tasksPoints),
      db.iterations);
    var projectsIds := Map((it: Iteration) => it.projectId, iterations);
    Filter((p: Project) => p.id in projectsIds, db.projects)
  }

  /** An id survives the first two steps exactly when it has `usersNumber` (at least one) membership rows. */
  lemma ProjectIdsWithUsersNumberMembers(db: Db, usersNumber: int, projectId: int)
    ensures projectId in ProjectIdsWithUsersNumber(db, usersNumber) <==>
      0 < usersNumber && MemberCount(db, projectId) == usersNumber
  {
    var pms := db.projectMembers;
    var counted := Filter((pm: ProjectMember) =>
      |Filter((q: ProjectMember) => q.projectId == pm.projectId, pms)| == usersNumber, pms);
    var ids := Map((pm: ProjectMember) => pm.projectId, counted);
    var own := Filter((q: ProjectMember) => q.projectId == projectId, pms);
    if projectId in ids {
      var pm :| pm in counted && pm.projectId == projectId;
      assert pm in own;
    }
    if 0 < usersNumber && MemberCount(db, projectId) == usersNumber {
      assert own[0] in own;
      assert own[0] in counted;
      assert projectId in ids;
    }
  }

  /**
    A project is returned exactly when its number of membership rows equals
    `usersNumber` and one of its iterations has a task worth more than `tasksPoints`.
   */
  lemma GetProjectsByUsersAndTasksPointsMembers(db: Db, usersNumber: int, tasksPoints: int, p: Project)
    ensures p in GetProjectsByUsersAndTasksPoints(db, usersNumber, tasksPoints) <==>
      p in db.projects && 0 < usersNumber && MemberCount(db, p.id) == usersNumber
      && HasTaskAbove(db, p.id, tasksPoints)
  {
    var projectsWithUsers := ProjectIdsWithUsersNumber(db, usersNumber);
    var iterations := Filter((it: Iteration) =>
        it.projectId in projectsWithUsers
        && (exists t | t in db.tasks :: t.iterationId == it.id && t.points > tasksPoints),
      db.iterations);
    var projectsIds := Map((it: Iteration) => it.projectId, iterations);
    ProjectIdsWithUsersNumberMembers(db, usersNumber, p.id);
    if p.id in projectsIds {
      var it :| it in iterations && it.projectId == p.id;
      var t :| t in db.tasks && t.iterationId == it.id && t.points > tasksPoints;
      assert HasTaskAbove(db, p.id, tasksPoints);
    }
    if p in db.projects && 0 < usersNumber && MemberCount(db, p.id) == usersNumber
       && HasTaskAbove(db, p.id, tasksPoints) {
      var it, t :| it in db.iterations && t in db.tasks && it.projectId == p.id
        && t.iterationId == it.id && t.points > tasksPoints;
      assert it in iterations;
      assert p.id in projectsIds;
    }
  }

  /** Asking for projects with no members (or a negative number) always gives nothing. */
  lemma GetProjectsByUsersAndTasksPointsNoUsers(db: Db, usersNumber: int, tasksPoints: int)
    requires usersNumber <= 0
    ensures GetProjectsByUsersAndTasksPoints(db, usersNumber, tasksPoints) == []
  {
    var r := GetProjectsByUsersAndTasksPoints(db, usersNumber, tasksPoints);
    if r != [] {
      GetProjectsByUsersAndTasksPointsMembers(db, usersNumber, tasksPoints, r[0]);
    }
  }

  /** The result lists no project twice. */
  lemma GetProjectsByUsersAndTasksPointsDistinct(db: Db, usersNumber: int, tasksPoints: int)
    requires UniqueProjectIds(db)
    ensures Distinct(ProjectIds(GetProjectsByUsersAndTasksPoints(db, usersNumber, tasksPoints)))
  {
    var projectsWithUsers := ProjectIdsWithUsersNumber(db, usersNumber);
    var iterations := Filter((it: Iteration) =>
        it.projectId in projectsWithUsers
        && (exists t | t in db.tasks :: t.iterationId == it.id && t.points > tasksPoints),
      db.iterations);
    var projectsIds := Map((it: Iteration) => it.projectId, iterations);
    FilterKeepsKeysDistinct((p: Project) => p.id, (p: Project) => p.id in projectsIds, db.projects);
  }

  // ---------------------------------------------------------------------
  // Worked cases of the strict comparisons
  // ---------------------------------------------------------------------

  /**
    A user paid 100 who has one DONE and one TODO task is found with the
    bound 50 and not with the bound 150.
   */
  lemma SalaryAndDoneTaskExample()
    ensures
      var u := User(1, "a", "a@x.com", "password");
      var db := Db([u], [Salary(1, 1, 100)], [], [], [],
        [Task(1, 1, 3, "first", "", "DONE", 1, Some(1)), Task(2, 1, 5, "second", "", "TODO", 1, Some(1))]);
      u in GetUsersBySalaryAndTaskStatus(db, 50) && u !in GetUsersBySalaryAndTaskStatus(db, 150)
  {
  }


  /**
    A project with three iterations and one member is found when more than
    two iterations are asked for, and not when more than three are.
   */
  lemma IterationsAndUsersExample()
    ensures
      var p := Project(1, "P1", "", "code", 1);
      var db := Db([], [], [p], [ProjectMember(1, 1, 1)],
        [Iteration(1, "i1", "", 1), Iteration(2, "i2", "", 1), Iteration(3, "i3", "", 1)], []);
      p in GetProjectsByIterationsAndUsers(db, 2) && p !in GetProjectsByIterationsAndUsers(db, 3)
  {
  }

}
