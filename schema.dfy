/**
  The six tables of the lab database, one row datatype each, and a store
  holding one snapshot of every table. Ids are integers; a task's executor is
  nullable. Salary amounts and task points are JavaScript numbers in the
  program and integers here.
 */
module Schema {
  import opened Wrappers
  import opened Seqs

  datatype User = User(id: int, username: string, email: string, password: string)

  datatype Salary = Salary(id: int, userId: int, amount: int)

  datatype Project = Project(id: int, name: string, description: string, joinCode: string, ownerId: int)

  datatype ProjectMember = ProjectMember(id: int, userId: int, projectId: int)

  datatype Iteration = Iteration(id: int, name: string, description: string, projectId: int)

  datatype Task = Task(
    id: int,
    iterationId: int,
    points: int,
    title: string,
    description: string,
    status: string,
    creatorId: int,
    executorId: Option<int>)

  /** One snapshot of every table, each in the order the store returns it. */
  datatype Db = Db(
    users: seq<User>,
    salaries: seq<Salary>,
    projects: seq<Project>,
    projectMembers: seq<ProjectMember>,
    iterations: seq<Iteration>,
    tasks: seq<Task>)

  function UserIds(users: seq<User>): seq<int> {
    Map((u: User) => u.id, users)
  }

  function ProjectIds(projects: seq<Project>): seq<int> {
    Map((p: Project) => p.id, projects)
  }

  /** Primary keys: no two users share an id. */
  ghost predicate UniqueUserIds(db: Db) {
    Distinct(UserIds(db.users))
  }

  /** Primary keys: no two projects share an id. */
  ghost predicate UniqueProjectIds(db: Db) {
    Distinct(ProjectIds(db.projects))
  }

  /** Under unique project ids, two rows of the table with the same id are the same row. */
  lemma ProjectIdIsKey(projects: seq<Project>, p: Project, q: Project)
    requires Distinct(ProjectIds(projects))
    requires p in projects && q in projects && p.id == q.id
    ensures p == q
  {
    var i :| 0 <= i < |projects| && projects[i] == p;
    var j :| 0 <= j < |projects| && projects[j] == q;
    assert ProjectIds(projects)[i] == ProjectIds(projects)[j];
  }

  /** The schema's unique constraint on Salary.userId: a user has at most one salary row. */
  ghost predicate OneSalaryPerUser(salaries: seq<Salary>) {
    Distinct(SalaryUserIds(salaries))
  }

  function SalaryUserIds(salaries: seq<Salary>): seq<int> {
    Map((s: Salary) => s.userId, salaries)
  }
}
