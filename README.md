# DB_Lab2 query router and CRUD tables, modelled in Dafny

DB_Lab2 is a project-management web application over six tables: users,
salaries, projects, project memberships, iterations and tasks. This model
covers three parts of it.

- **The query router** (`queries.ts`): five lookups (tasks of a project,
  members of a project, salary of a user, tasks of a user, owner of a project)
  and four composite queries. `getUsersBySalaryAndTaskStatus` is a single
  `findMany` with relation filters. `getProjectsByIterationsAndUsers` and
  `getUsersByTasksStatus` fetch tables and intersect id lists in memory.
  `getProjectsByUsersAndTasksPoints` counts and de-duplicates project ids in
  memory, then finds the iterations with a relation filter. Each procedure is a pure function of one store snapshot
  (`Schema.Db`, six sequences of rows). A Prisma `findMany` with an
  `id: {in: xs}` condition is a filter over the table sequence, and
  `findUnique` is the first row with that id. For each query, lemmas tie the
  step-by-step computation to a set-builder reading over the tables. That
  reading covers membership, strict comparisons, intersection, symmetry,
  duplicate-freedom and the NOT_FOUND case.
- **The users table** (`ValidUsersCrudTable.tsx`): the four field validators,
  the create dialog's checks (run in a fixed order, stopping at the first
  failure), and the table's local state. The local state is a class whose
  fields are the row list `tableData` and the per-cell `validationErrors`
  map; the handlers update them in place.
- **The salary table** (`SalaryCrudTable.tsx`): the amount validator, the ids
  of users without a salary (the only users the create dialog offers), the
  dialog's check, and the same local state. Here deleting a row splices it
  out.

Modules: `Wrappers` (Option, Result), `Seqs` (the JavaScript array
operations `filter`, `map`, `indexOf`, the `indexOf(x) === i` de-duplication
and `splice`), `Schema` (rows and store), `Queries`, `UsersCrudTable`,
`SalaryCrudTable`.

Two behaviours of the program worth knowing:

- The owner lookup returns null when the owner id names no user.
- Salary amounts are checked only by the client-side validator. The model
  stores any integer and proves what the validator admits.

## Model

| member | source | states |
|---|---|---|
| `Seqs.Filter` | src/server/api/routers/queries.ts:149-152 | `filter`: the result holds exactly the elements that satisfy the predicate, each as often as the input does, is no longer than the input, and is empty iff no element satisfies it |
| `Seqs.FilterAppend` | src/server/api/routers/queries.ts:149-152 | `filter` keeps order: filtering a concatenation is the concatenation of the filtered parts |
| `Seqs.Map` | src/server/api/routers/queries.ts:143-145 | `map`: the result has the same length, f applied position by position; its values are exactly the images of the input's elements |
| `Seqs.IndexOf` | src/server/api/routers/queries.ts:242 | `indexOf`: -1 iff absent; otherwise the value occurs at that position and at no earlier one |
| `Seqs.Dedupe` | src/server/api/routers/queries.ts:242 | the `indexOf(x) === i` filter keeps every value of the input and repeats none |
| `Seqs.FindFirst` | src/server/api/routers/queries.ts:95-100 | a lookup by key gives nothing iff no row matches; otherwise a matching row of the table |
| `Seqs.RemoveAt` | src/components/SalaryCrudTable/SalaryCrudTable.tsx:131 | `splice(i, 1)`: one element fewer; elements before i stay in place, those after move down by one |
| `Seqs.FilterCongruence` | src/server/api/routers/queries.ts:206 | filters whose predicates agree on the input's elements give the same sequence |
| `Seqs.FilterKeepsKeysDistinct` | src/server/api/routers/queries.ts:162-169 | filtering a table whose key column is duplicate-free leaves a duplicate-free key column |
| `Queries.GetTasksByProjectId` | src/server/api/routers/queries.ts:11-32 | a task is returned iff it is in the table and its iterationId is the id of some iteration of the project |
| `Queries.GetTasksByProjectIdWithoutIterations` | src/server/api/routers/queries.ts:16-31 | a project with no iterations gets the empty result |
| `Queries.GetUsersByProjectId` | src/server/api/routers/queries.ts:36-60 | a user is returned iff some membership row links their id to the project |
| `Queries.GetUsersByProjectIdListsEachUserOnce` | src/server/api/routers/queries.ts:41-58 | with unique user ids, no user appears twice, even when membership rows repeat them |
| `Queries.GetSalaryByUserId` | src/server/api/routers/queries.ts:63-72 | a salary row is returned iff its userId is the input |
| `Queries.GetSalaryByUserIdAtMostOne` | src/server/api/routers/queries.ts:67-71 | under the unique constraint on Salary.userId the result has zero or one row |
| `Queries.GetTasksByUserId` | src/server/api/routers/queries.ts:76-86 | a task is returned iff its executorId equals the input; a task with a null executor never is |
| `Queries.GetOwnerByProjectId` | src/server/api/routers/queries.ts:90-109 | NOT_FOUND iff no project has the id; otherwise a user of the table whose id is that project's ownerId, or null iff no user has that id |
| `Queries.GetOwnerByProjectIdIsOwner` | src/server/api/routers/queries.ts:95-108 | with unique project ids, the lookup of an existing project succeeds and returns exactly its owner, or null iff the owner id names no user |
| `Queries.GetUsersBySalaryAndTaskStatus` | src/server/api/routers/queries.ts:113-133 | every returned row is a user of the table |
| `Queries.GetUsersBySalaryAndTaskStatusMembers` | src/server/api/routers/queries.ts:118-131 | a user is returned iff they have a salary row with amount strictly above the bound and execute some task with status "DONE" |
| `Queries.GetUsersBySalaryAndTaskStatusExcludesLowSalary` | src/server/api/routers/queries.ts:120-124 | a user whose salary rows are all at most the bound, or who has none, is never returned |
| `Queries.GetUsersBySalaryAndTaskStatusFinishedTasks` | src/server/api/routers/queries.ts:125-129 | every user of this query is also a user of getUsersByTasksStatus("DONE", "DONE") |
| `Queries.SalaryAndDoneTaskExample` | src/server/api/routers/queries.ts:113-133 | salary 100 with one DONE task: returned for bound 50, not for bound 150 |
| `Queries.ProjectIdsByIterationsAndUsers` | src/server/api/routers/queries.ts:143-160 | an id survives the two filters iff it is a project's id, that project has strictly more iterations than iterationsNumber, and some membership row names it |
| `Queries.GetProjectsByIterationsAndUsers` | src/server/api/routers/queries.ts:138-170 | every returned row is a project of the table |
| `Queries.GetProjectsByIterationsAndUsersMembers` | src/server/api/routers/queries.ts:143-169 | a project is returned iff it has strictly more iterations than iterationsNumber and at least one membership row |
| `Queries.GetProjectsByIterationsAndUsersDistinct` | src/server/api/routers/queries.ts:162-169 | with unique project ids, no project is returned twice |
| `Queries.IterationsAndUsersExample` | src/server/api/routers/queries.ts:149-152 | three iterations and one member: returned for iterationsNumber 2, not for 3 |
| `Queries.GetUsersByTasksStatus` | src/server/api/routers/queries.ts:174-222 | every returned row is a user of the table |
| `Queries.ExecutorIdsInBoth` | src/server/api/routers/queries.ts:180-206 | an executor id, null included, is kept iff some task of the first status and some task of the second status have it |
| `Queries.UsersWithIdIn` | src/server/api/routers/queries.ts:212-220 | a user is returned iff their id occurs in the id list; a null in the list matches no user |
| `Queries.ExecutorIdsInBothMembers` | src/server/api/routers/queries.ts:180-206 | a user id survives the intersection iff the user executes a task of the first status and a task of the second |
| `Queries.GetUsersByTasksStatusMembers` | src/server/api/routers/queries.ts:174-222 | a user is returned iff they execute at least one task of each of the two statuses |
| `Queries.GetUsersByTasksStatusSymmetric` | src/server/api/routers/queries.ts:199-209 | swapping the two statuses gives the same sequence of users |
| `Queries.GetUsersByTasksStatusSameStatus` | src/server/api/routers/queries.ts:181-216 | with equal statuses the result is exactly the users executing some task of that status |
| `Queries.GetUsersByTasksStatusIgnoresUnassignedTasks` | src/server/api/routers/queries.ts:200-216 | null executor ids contribute no user: deleting every unassigned task leaves the result unchanged |
| `Queries.ProjectIdsWithUsersNumber` | src/server/api/routers/queries.ts:236-242 | the de-duplicated id list holds no value twice |
| `Queries.ProjectIdsWithUsersNumberMembers` | src/server/api/routers/queries.ts:236-242 | an id is in that list iff usersNumber is positive and equals the exact number of membership rows of the project |
| `Queries.GetProjectsByUsersAndTasksPoints` | src/server/api/routers/queries.ts:226-270 | every returned row is a project of the table |
| `Queries.GetProjectsByUsersAndTasksPointsMembers` | src/server/api/routers/queries.ts:233-268 | a project is returned iff its membership count equals usersNumber (which is positive) and some iteration of it has a task with points strictly above tasksPoints |
| `Queries.GetProjectsByUsersAndTasksPointsNoUsers` | src/server/api/routers/queries.ts:236-237 | usersNumber 0 (or below) always gives the empty result |
| `Queries.GetProjectsByUsersAndTasksPointsDistinct` | src/server/api/routers/queries.ts:261-268 | with unique project ids, no project is returned twice |
| `UsersCrudTable.ValidateRequired` | src/components/UsersCrudTable/ValidUsersCrudTable.tsx:368 | holds iff the value is non-empty |
| `UsersCrudTable.Utf16Length` | src/components/UsersCrudTable/ValidUsersCrudTable.tsx:372-373 | JavaScript's `length` counts UTF-16 code units: between the number of characters and twice that, equal to it iff no character lies outside the Basic Multilingual Plane, zero iff the string is empty |
| `UsersCrudTable.Utf16LengthAppend` | src/components/UsersCrudTable/ValidUsersCrudTable.tsx:372-373 | the code-unit length of a concatenation is the sum of the parts' lengths |
| `UsersCrudTable.ValidatePassword` | src/components/UsersCrudTable/ValidUsersCrudTable.tsx:372-373 | holds iff the length in UTF-16 code units is between 8 and 20; such a password has 4 to 20 characters |
| `UsersCrudTable.ValidatePasswordCountsCodeUnits` | src/components/UsersCrudTable/ValidUsersCrudTable.tsx:372-373 | characters of the Basic Multilingual Plane followed by one astral character pass iff there are 6 to 18 of them: "aaaaaa" and an emoji (length 8) pass, nineteen letters and an emoji (length 21) fail |
| `UsersCrudTable.MatchesUsernameRepeat` | src/components/UsersCrudTable/ValidUsersCrudTable.tsx:387 | the anchored `[a-zA-Z0-9_-]{min,max}` matcher accepts exactly strings of allowed characters with length in the bounds |
| `UsersCrudTable.ValidateUsername` | src/components/UsersCrudTable/ValidUsersCrudTable.tsx:385-387 | holds iff the length is between 3 and 20 and every character is a letter, digit, `_` or `-` |
| `UsersCrudTable.ToLower` | src/components/UsersCrudTable/ValidUsersCrudTable.tsx:378 | lower-casing of the ASCII letters: same length, each ASCII capital replaced by its small letter, every other character kept |
| `UsersCrudTable.ValidateEmail` | src/components/UsersCrudTable/ValidUsersCrudTable.tsx:375-381 | accepts iff the email is non-empty and its lower-case form matches the email pattern |
| `UsersCrudTable.ValidateEmailFacts` | src/components/UsersCrudTable/ValidUsersCrudTable.tsx:375-381 | whatever the pattern, the empty string is rejected and a string and its lower-case form get the same answer |
| `UsersCrudTable.ValidatorsDemandNonEmpty` | src/components/UsersCrudTable/ValidUsersCrudTable.tsx:368-387 | whatever the password, username and email validators accept is non-empty |
| `UsersCrudTable.HandleSubmit` | src/components/UsersCrudTable/ValidUsersCrudTable.tsx:307-329 | onSubmit(values) happens iff all three validators pass; otherwise the error is the first failing check in the order email, username, password |
| `UsersCrudTable.Header` | src/components/UsersCrudTable/ValidUsersCrudTable.tsx:182-206 | the column headers "ID", "User Name", "Password" and "Email", which the blur handler's error message quotes |
| `UsersCrudTable.CellIsValid` | src/components/UsersCrudTable/ValidUsersCrudTable.tsx:136-158 | each column uses its own validator and any other column validateRequired; a valid cell is never empty |
| `UsersCrudTable.UsersTable.constructor` | src/components/UsersCrudTable/ValidUsersCrudTable.tsx:79-82 | the rows start as the fetched users and the error map starts empty |
| `UsersCrudTable.UsersTable.HandleCreateNewRow` | src/components/UsersCrudTable/ValidUsersCrudTable.tsx:84-88 | appends exactly one row, with id equal to the old length plus one; errors unchanged |
| `UsersCrudTable.UsersTable.HandleSaveRowEdits` | src/components/UsersCrudTable/ValidUsersCrudTable.tsx:90-102 | replaces the row at row.index iff the error map is empty; otherwise nothing changes |
| `UsersCrudTable.UsersTable.HandleCancelRowEdits` | src/components/UsersCrudTable/ValidUsersCrudTable.tsx:104-106 | clears the whole error map and leaves the rows |
| `UsersCrudTable.UsersTable.HandleDeleteRow` | src/components/UsersCrudTable/ValidUsersCrudTable.tsx:108-126 | asks to delete the row's id iff confirmed; the local rows are unchanged |
| `UsersCrudTable.UsersTable.OnBlur` | src/components/UsersCrudTable/ValidUsersCrudTable.tsx:135-171 | an invalid value adds or overwrites "header is required" for that cell id; a valid one removes only that entry; every other entry and the rows are unchanged |
| `SalaryCrudTable.ValidateSalary` | src/components/SalaryCrudTable/SalaryCrudTable.tsx:376-381 | false iff the amount is negative, so zero is accepted |
| `SalaryCrudTable.UserIdsThatDoNotHaveSalary` | src/components/SalaryCrudTable/SalaryCrudTable.tsx:89-92 | the result is the ids of exactly the users of whom no row is a salary, in the order of the user list; so an id is listed iff some user has it and no salary row has it as userId, and the list is no longer than the user list |
| `SalaryCrudTable.CreateModalUserOptions` | src/components/SalaryCrudTable/SalaryCrudTable.tsx:340 | the selector lists only users of the user list |
| `SalaryCrudTable.CreateModalOffersUsersWithoutSalary` | src/components/SalaryCrudTable/SalaryCrudTable.tsx:340 | the dialog offers a user iff the table holds no salary row for them |
| `SalaryCrudTable.HandleSubmit` | src/components/SalaryCrudTable/SalaryCrudTable.tsx:296-309 | onSubmit(values) happens iff the amount is not negative; otherwise the amount error |
| `SalaryCrudTable.Header` | src/components/SalaryCrudTable/SalaryCrudTable.tsx:181-198 | the column headers "ID", "User ID" and "Salary amount", which the blur handler's error message quotes |
| `SalaryCrudTable.CellIsValid` | src/components/SalaryCrudTable/SalaryCrudTable.tsx:146-157 | the amount column accepts iff the converted number is not negative; every other column iff the text is non-empty |
| `SalaryCrudTable.CreatedRowLeavesUsersWithoutSalary` | src/components/SalaryCrudTable/SalaryCrudTable.tsx:89-99 | after a row is pushed for a user, that user's id is off the no-salary list and every other id keeps its status |
| `SalaryCrudTable.AppendKeepsOneSalaryPerUser` | src/components/SalaryCrudTable/SalaryCrudTable.tsx:95-99 | pushing a row for a user with no salary row keeps userId unique among the rows |
| `SalaryCrudTable.CreateFromOptionsKeepsOneSalaryPerUser` | src/components/SalaryCrudTable/SalaryCrudTable.tsx:95-99 | creating a row for an offered user keeps userId unique among the rows |
| `SalaryCrudTable.RemoveAtKeepsOneSalaryPerUser` | src/components/SalaryCrudTable/SalaryCrudTable.tsx:131 | splicing a row out keeps userId unique among the rows |
| `SalaryCrudTable.SalaryTable.constructor` | src/components/SalaryCrudTable/SalaryCrudTable.tsx:84-87 | the rows start as the fetched salaries and the error map starts empty |
| `SalaryCrudTable.SalaryTable.UsersWithoutSalary` | src/components/SalaryCrudTable/SalaryCrudTable.tsx:89-92 | recomputed from the current rows: an id is offered iff some user has it and no current row is that user's salary |
| `SalaryCrudTable.SalaryTable.HandleCreateNewRow` | src/components/SalaryCrudTable/SalaryCrudTable.tsx:95-99 | appends exactly one row with id equal to the old length plus one; earlier rows unchanged; that user is no longer offered |
| `SalaryCrudTable.SalaryTable.HandleSaveRowEdits` | src/components/SalaryCrudTable/SalaryCrudTable.tsx:101-113 | replaces the row at row.index iff the error map is empty; otherwise nothing changes |
| `SalaryCrudTable.SalaryTable.HandleCancelRowEdits` | src/components/SalaryCrudTable/SalaryCrudTable.tsx:115-117 | clears the whole error map and leaves the rows |
| `SalaryCrudTable.SalaryTable.HandleDeleteRow` | src/components/SalaryCrudTable/SalaryCrudTable.tsx:119-135 | iff confirmed, asks to delete the row's id and removes exactly the element at row.index, keeping the others in order; unique userIds stay unique |
| `SalaryCrudTable.SalaryTable.OnBlur` | src/components/SalaryCrudTable/SalaryCrudTable.tsx:144-171 | amount uses validateSalary, other columns validateRequired; an invalid value adds or overwrites only that cell's entry, a valid one removes only that entry |

## Left out

- `getAll` of the query router (queries.ts:7-9) returns the project table as fetched. It has no logic to state.
- Store access: each awaited `findMany`/`findUnique` is a given table snapshot. The model does not cover store errors, reads that see different snapshots, or Prisma's unspecified result order. Results keep table order.
- The zod input schemas: inputs are already typed integers and strings.
- Salary amounts, task points and the numeric query inputs are JavaScript numbers; the model uses unbounded integers. Fractions, NaN and infinities are not modelled. This includes `Number("")` being 0 and `NaN < 0` being false in the salary checks. `Number(text)` in the amount column's blur handler is the table's `toNumber` parameter.
- `Queries.GetUsersByTasksStatus`: a null in the `id: {in: …}` list matches no user. Whether Prisma would reject such a list at run time is not modelled.
- The email regular expression (ValidUsersCrudTable.tsx:380) is the `EmailPattern` parameter and is left uninterpreted.
- `UsersCrudTable.ToLower` maps only the ASCII capitals, one character at a time. JavaScript's `toLowerCase` applies Unicode case mapping, which also lowers other letters, can lengthen a string ("İ" becomes two code units) and lowers a final sigma by context. For an email outside ASCII the model may therefore hand the pattern a different string than the program.
- Server mutations (`createUser`, `updateUser`, `deleteUser` and the salary counterparts), toasts, cache invalidation, `exitEditingMode`, and the React re-render through `setTableData`/`setValidationErrors` are not modelled. A delete request is the method's result. The `confirm` dialog is the `confirmed` parameter.
- The re-sync of the users table's rows when loading finishes (ValidUsersCrudTable.tsx:216-221) and the dialogs' initial empty-string values are not modelled.
- The identical validators and row handlers of the task, project, iteration and project-member tables are covered by these two models and not repeated.
- Entity CRUD routers, the seed script, router registration and all rendering code are not part of this model.
