# Tenant-scoped compliance tasks: a Dafny model

This project models the service layer of a multi-tenant compliance task tracker.
Organizations own frameworks. Frameworks hold controls. Tasks are created against
controls, and evidence rows are attached to tasks. Every service call is scoped to
the calling organization. A task or evidence row of another organization is
reported exactly as a missing one would be: NotFound.

The model has three parts.

- **Errors and their translation** (`errors.dfy`, `error_handler.dfy`). The error
  classes `HttpError`, `BadRequestError`, `NotFoundError` and `ConflictError` are a
  datatype. The central error handler is a pure function from a thrown value to
  the response's status, message and details.
- **Pure query and patch semantics** (`records.dfy`, `text.dfy`, `task_query.dfy`,
  `tenancy.dfy`, `task_patch.dfy`). These cover:
  - the record and response shapes, with the two field mappers;
  - ASCII case-insensitive substring search;
  - the clamped limit and offset;
  - the list query's `where` object and what it selects;
  - newest-first ordering and the skip/take window;
  - the scoped lookups, stated as predicates over the stored rows;
  - the merge of a partial update into a task.
- **The service** (`task_service.dfy`). A class `TaskStore` holds the persistent
  store as four maps from id to row: frameworks, controls, tasks and evidence.
  Each service function is a method. A method either returns a typed error and
  leaves the store unchanged, or makes one well-defined change. Each method keeps
  the object invariant `Valid()`: every table is keyed by its rows' ids, and every
  task's control belongs, through its framework, to the task's own organization.

Ids and timestamps come from the persistence layer, so they are parameters
(`Generated`). A fresh id is a precondition, because the persistence layer's UUIDs
are unique for all time. A new task's id therefore names no task in the table and
no task that any evidence row still refers to, including a deleted one. The
status the schema fills in when a new task has none. The
ISO-8601 rendering of a timestamp is kept abstract (`IsoTime`). It determines the
instant it renders.

The system's documentation says a task created without a status starts out OPEN.
The code does not set that itself: it passes the missing status on to the
database, and the schema's default is not part of this model. The model follows
the code: `CreateTask` takes that default as a parameter and constrains nothing
else about it.

## Model

| member | source | states |
|---|---|---|
| `Errors.NewHttpError` | src/errors.ts:1-10 | the error keeps exactly the status, message and details it was built with |
| `Errors.BadRequestError` | src/errors.ts:12-16 | status is always 400; message and details are passed through unchanged |
| `Errors.NotFoundError` | src/errors.ts:18-22 | status is always 404; an absent message becomes "Not Found"; details are passed through unchanged |
| `Errors.ConflictError` | src/errors.ts:24-28 | status is always 409; message and details are passed through unchanged |
| `ErrorHandling.HandleError` | src/middlewares/errorHandler.ts:5-26 | a response carries details only when the thrown value was a validation error or a typed error |
| `ErrorHandling.ValidationErrorIsBadRequest` | src/middlewares/errorHandler.ts:7-12 | a validation error gives 400, "Validation Failed" and the validator's fields, whatever else the value is |
| `ErrorHandling.HttpErrorPassesThrough` | src/middlewares/errorHandler.ts:15-20 | a typed error gives its own status, message and details |
| `ErrorHandling.UnhandledErrorLeaksNothing` | src/middlewares/errorHandler.ts:22-25 | any other error gives 500, "Internal Server Error" and no details, and two such errors give identical responses |
| `ErrorHandling.ServiceErrorsTranslate` | src/middlewares/errorHandler.ts:15-20 | BadRequest, NotFound and Conflict errors reach the client as 400, 404 and 409 with their message and details; a NotFound without a message says "Not Found" |
| `ErrorHandling.ResponseStatusOrigin` | src/middlewares/errorHandler.ts:7-25 | with only subclass errors thrown, the status is 400, 404, 409 or 500, and it is 500 exactly when the error is unhandled |
| `Records.ToTaskResponse` | src/services/taskService.ts:22-44 | `toTaskResponse` loses no field: the task can be read back from its response |
| `Records.ToEvidenceResponse` | src/services/taskService.ts:46-60 | `toEvidenceResponse` loses no field: the evidence row can be read back from its response |
| `Records.TaskResponses` | src/services/taskService.ts:138 | the list of responses has one entry per task, and the i-th gives back the i-th task with every field |
| `Records.EvidenceResponses` | src/services/taskService.ts:154 | the list of responses has one entry per evidence row, and the i-th gives back the i-th row with every field |
| `Text.ExactMatchIsInsensitiveMatch` | src/services/taskService.ts:117-122 | an exact substring occurrence is also a case-insensitive match |
| `Text.InsensitiveToCase` | src/services/taskService.ts:117-122 | lower-casing the text or the search string does not change whether it matches |
| `Text.SearchExample` | src/services/taskService.ts:117-122 | "access" matches "Access Control Policy" case-insensitively, though not exactly |
| `TaskQuery.EffectiveLimit` | src/services/taskService.ts:105 | the limit is 20 when absent and otherwise clamped to [1, 100] |
| `TaskQuery.EffectiveOffset` | src/services/taskService.ts:106 | the offset is 0 when absent and otherwise max(offset, 0) |
| `TaskQuery.BuildWhere` | src/services/taskService.ts:108-122 | the `where` object matches a task iff it is the caller's, equals each non-empty filter, and contains the non-empty search text in its name or its non-null description |
| `TaskQuery.SearchClausesMeanNameOrDescription` | src/services/taskService.ts:117-122 | the two-armed OR holds iff the name or a non-null description contains the text case-insensitively |
| `TaskQuery.NoFiltersSelectsWholeOrganization` | src/services/taskService.ts:108-116 | with every filter absent or empty, the query selects exactly the caller's tasks |
| `TaskQuery.InsertNewestFirst` | src/services/taskService.ts:128 | inserting a row adds exactly that row (as a multiset) to the ordered rows |
| `TaskQuery.InsertKeepsNewestFirst` | src/services/taskService.ts:128 | insertion keeps the rows ordered by createdAt, newest first |
| `TaskQuery.Window` | src/services/taskService.ts:129-130 | skip/take: the page is the rows from position `skip` on, at most `take` of them |
| `TaskQuery.WindowKeepsOrder` | src/services/taskService.ts:128-130 | a page of newest-first rows is newest first |
| `TaskQuery.ConsecutivePagesJoin` | src/services/taskService.ts:129-130 | the page at offset o with limit a, followed by the page at o + a with limit b, is the page at o with limit a + b: pages neither overlap nor leave gaps |
| `TaskQuery.WindowWithinTotal` | src/services/taskService.ts:129-130 | a page has at most `limit` rows and at most `total` rows, all of them taken from the filtered set |
| `Tenancy.ControlOwnedByLookup` | src/services/taskService.ts:62-75 | "some control with this id has a framework in the organization" is the same as looking up the control and then its framework |
| `Tenancy.TaskOwnedByLookup` | src/services/taskService.ts:143-146 | "some task has this id and this organizationId" is the same as looking up the id and comparing organizations |
| `Tenancy.EvidenceOwnedByLookup` | src/services/taskService.ts:235-242 | the evidence lookup succeeds iff the evidence id, its taskId and that task's organization all match |
| `Tenancy.OtherTenantLooksMissing` | src/services/taskService.ts:142-150 | a task of organization A is not found under organization B, exactly as if it did not exist |
| `TaskPatch.KeyCount` | src/services/taskService.ts:163 | a patch has no keys iff every field is absent |
| `TaskPatch.ApplyPatch` | src/services/taskService.ts:181-190 | absent fields keep their value; present fields overwrite; a present null description clears it; id, organizationId and createdAt stay the same |
| `TaskPatch.PatchesCompose` | src/services/taskService.ts:181-190 | two patches in a row equal one patch with the later patch's present fields winning |
| `TaskPatch.PatchIdempotent` | src/services/taskService.ts:181-190 | sending the same patch twice changes nothing but the update time |
| `TaskPatch.GuardsDifferOnlyOnEmptyControl` | src/services/taskService.ts:167-169 | every patch the truthiness guard checks is checked by the intended guard, and the two differ exactly on a present, empty controlId |
| `TaskPatch.AsWrittenGuardSkipsAWrite` | src/services/taskService.ts:167-184 | for every task with a control, the non-empty patch `{ controlId: "" }` passes the truthiness guard unchecked and still changes the task's controlId |
| `TaskPatch.AsWrittenGuardBreaksTenancy` | src/services/taskService.ts:167-184 | a concrete store where the as-written guard lets `{ controlId: "" }` through and the task then names no control of its organization |
| `TaskService.NewTask` | src/services/taskService.ts:80-89 | the created row has the caller's organization and the input's controlId, name, description, category and (when given) status |
| `TaskService.NewEvidence` | src/services/taskService.ts:219-225 | the created evidence row has the given taskId, type and note |
| `TaskService.TaskStore.AssertControlBelongsToOrg` | src/services/taskService.ts:62-75 | passes iff the control's framework belongs to the organization; otherwise NotFound "Control not found" |
| `TaskService.TaskStore.CreateTask` | src/services/taskService.ts:77-92 | NotFound with the store unchanged unless the control is the caller's; otherwise exactly one new task, built from the input, and its response |
| `TaskService.TaskStore.CountWhere` | src/services/taskService.ts:125 | the count is the number of tasks the `where` object selects |
| `TaskService.TaskStore.FindManyNewestFirst` | src/services/taskService.ts:126-128 | the rows are exactly the selected tasks, each once, newest first |
| `TaskService.TaskStore.ListTasks` | src/services/taskService.ts:94-140 | echoes the effective limit and offset; items are the selected tasks newest first with offset skipped and at most limit kept, all of the caller's organization; total counts every selected task regardless of paging |
| `TaskService.TaskStore.FindEvidenceOf` | src/services/taskService.ts:145 | the rows are exactly the evidence rows with that taskId, each once |
| `TaskService.TaskStore.GetTaskDetails` | src/services/taskService.ts:142-156 | NotFound iff no task has that id in the caller's organization; otherwise the task with all of its evidence |
| `TaskService.TaskStore.PatchTask` | src/services/taskService.ts:158-193 | in order: an empty patch is BadRequest; a present controlId not owned by the caller is NotFound; a task outside the caller's organization is NotFound; otherwise only the present fields change; on any error nothing changes |
| `TaskService.TaskStore.DeleteTask` | src/services/taskService.ts:195-203 | NotFound with nothing deleted (tasks and evidence unchanged) iff the task is not the caller's; otherwise exactly that task is removed, no evidence row changes value, and every other task's evidence stays |
| `TaskService.TaskStore.AddEvidence` | src/services/taskService.ts:205-228 | NotFound unless the task is the caller's; otherwise exactly one evidence row with that taskId is added |
| `TaskService.TaskStore.DeleteEvidence` | src/services/taskService.ts:230-251 | NotFound unless the evidence id, its taskId and the task's organization all match; otherwise exactly that evidence row is removed |

Every mutating method also ensures `OtherTenantsUntouched` or leaves the task table
unchanged, so no call under one organization changes another organization's tasks.
`TaskService.EndToEndScenario` runs through the seeded data (one organization, the
DSALTA framework, controls AC-01 and LOG-01). It creates a task, reads it, attaches
evidence and deletes the task. It asserts the expected results, including NotFound
for the calls made from a second organization.

## Findings

| source | as written | input that shows it | evidently intended | confidence | as-written member | corrected member |
|---|---|---|---|---|---|---|
| src/services/taskService.ts:167-169, 184 | `if (patch.controlId)` revalidates only a non-empty controlId, but the update writes any controlId that is present | PATCH with body `{"controlId": ""}` on one of the caller's tasks: the organization check is skipped and the update writes an empty controlId. A database foreign key, if the schema has one, then fails the update as a 500 instead of the 404 every other unknown controlId gets | every present controlId is checked against the caller's organization before the update | medium, not executed | `TaskPatch.AsWrittenGuardBreaksTenancy` (guard `TaskPatch.RevalidatesControlAsWritten`) | `TaskService.TaskStore.PatchTask` (guard `TaskPatch.RevalidatesControl`), which keeps the tenant invariant in `Valid()` |

## Left out

- The database and its client: query planning, indexes, transactions and
  foreign-key enforcement. The store is four maps, and each `where` clause is a
  predicate over their rows.
- The Organization table. No operation reads it. A task's organization is the id
  taken from the request path.
- TaskService.TaskStore.PatchTask: revalidates every present controlId, the
  corrected guard described under "## Findings", where the code revalidates only
  a non-empty one.
- TaskService.TaskStore.DeleteTask: after a successful delete, whether the
  deleted task's evidence rows remain is left open, because whether the delete
  cascades is decided by the schema. Rows that remain are unchanged, every other
  task's evidence is unchanged, and a NotFound changes no evidence.
- TaskService.TaskStore.CreateTask: the schema's default status is a parameter,
  and fresh ids and timestamps are parameters (`Generated`). The model leaves
  open how they are produced.
- TaskService.NewTask: a new task's `createdAt` and `updatedAt` are the one
  creation time `gen.at`. The persistence layer stamps the two columns
  separately, so in the database they may differ by a few milliseconds; the
  model does not capture that difference.
- TaskService.TaskStore.ListTasks: tasks with equal `createdAt` appear in an
  unspecified order, as they do in the database. Only newest-first is stated.
- TaskQuery.EffectiveLimit and TaskQuery.EffectiveOffset: limit and offset are
  integers. Non-integer and NaN query numbers are not modelled.
- The ISO-8601 text of a timestamp. `IsoTime` stands for it.
- Case folding beyond ASCII, and the database collation behind
  `mode: 'insensitive'`.
- The concurrent `Promise.all` in the list call. Its two reads are independent
  and are modelled one after the other.
- TaskPatch.KeyCount counts only the five declared patch fields. Request keys
  outside the patch type are assumed to be removed by request validation.
- The `console.error` logging of unhandled errors, and writing the JSON response.
  `HandleError` returns the response instead.
- Routing and controllers (src/controllers/TaskController.ts and
  src/controllers/EvidenceController.ts). They forward to the service and set
  the 201/204 success statuses.
- Process startup and shutdown (src/server.ts), database seeding I/O
  (prisma/seed.ts) and the API description copy (scripts/copy-swagger.mjs).
  Only the seed's data is reused, in the scenario.
- The enumerations' membership. Category, status and evidence type are strings,
  since the schema that fixes their values is not part of this model.
