/**
  The tenant-scoped task and evidence service over an in-memory store. Each
  operation runs one guard or scoped lookup and then at most one store operation
  (create, update, deleteMany or delete); a failed guard throws a typed error and
  leaves the store as it was.
 */
module TaskService {
  import opened Wrappers
  import opened Errors
  import opened Records
  import opened TaskQuery
  import opened TaskPatch
  import opened Tenancy

  const ControlNotFoundMessage := "Control not found"
  const TaskNotFoundMessage := "Task not found"
  const EvidenceNotFoundMessage := "Evidence not found"
  const EmptyPatchMessage := "No fields provided to update"

  /**
    The row `task.create` stores: the caller's organization, the input's fields, the
    status the persistence layer fills in when the input has none, and the creation
    time as both timestamps.
   */
  function NewTask(organizationId: Id, input: CreateTaskRequest, gen: Generated, defaultStatus: Status): (t: Task)
    ensures t.id == gen.id && t.organizationId == organizationId
    ensures t.controlId == input.controlId && t.name == input.name
    ensures t.description == input.description && t.category == input.category
    ensures input.status.Some? ==> t.status == input.status.value
    ensures input.status.None? ==> t.status == defaultStatus
  {
    Task(gen.id, organizationId, input.controlId, input.name, input.description, input.category,
         if input.status.Some? then input.status.value else defaultStatus, gen.at, gen.at)
  }

  /** The row `evidence.create` stores. */
  function NewEvidence(taskId: Id, input: CreateEvidenceRequest, gen: Generated): (e: Evidence)
    ensures e.id == gen.id && e.taskId == taskId
    ensures e.evidenceType == input.evidenceType && e.note == input.note
  {
    Evidence(gen.id, taskId, input.evidenceType, input.note, gen.at)
  }

  function TaskIds(s: seq<Task>): set<Id>
  {
    set t | t in s :: t.id
  }

  function EvidenceIds(s: seq<Evidence>): set<Id>
  {
    set e | e in s :: e.id
  }

  class TaskStore {
    var frameworks: map<Id, Framework>
    var controls: map<Id, Control>
    var tasks: map<Id, Task>
    var evidence: map<Id, Evidence>

    ghost predicate Valid()
      reads this
    {
      && FrameworksKeyed(frameworks) && ControlsKeyed(controls)
      && TasksKeyed(tasks) && EvidenceKeyed(evidence)
      && TenantConsistent(frameworks, controls, tasks)
    }

    /** A store holding the given reference data and no tasks or evidence yet. */
    constructor (frameworks: map<Id, Framework>, controls: map<Id, Control>)
      requires FrameworksKeyed(frameworks) && ControlsKeyed(controls)
      ensures Valid()
      ensures this.frameworks == frameworks && this.controls == controls
      ensures tasks == map[] && evidence == map[]
    {
      this.frameworks := frameworks;
      this.controls := controls;
      tasks := map[];
      evidence := map[];
    }

    /** The ids of the tasks a `where` object selects. */
    ghost function MatchingIds(w: TaskWhere): set<Id>
      reads this
    {
      set id | id in tasks && Matches(w, tasks[id])
    }

    /** The ids of the evidence rows attached to a task. */
    ghost function EvidenceIdsOf(taskId: Id): set<Id>
      reads this
    {
      set id | id in evidence && evidence[id].taskId == taskId
    }

    /** `assertControlBelongsToOrg`: throws NotFound unless the control's framework is the caller's. */
    method AssertControlBelongsToOrg(organizationId: Id, controlId: Id) returns (err: Option<HttpError>)
      requires Valid()
      ensures err.None? <==> ControlOwnedBy(frameworks, controls, organizationId, controlId)
      ensures err.Some? ==> err.value == NotFoundError(Some("Control not found"), NoDetails)
    {
      ControlOwnedByLookup(frameworks, controls, organizationId, controlId);
      if controlId in controls && controls[controlId].frameworkId in frameworks
         && frameworks[controls[controlId].frameworkId].organizationId == organizationId
      {
        err := None;
      } else {
        err := Some(NotFoundError(Some(ControlNotFoundMessage), NoDetails));
      }
    }

    /** `createTask`: the control guard, then one new task in the caller's organization. */
    method CreateTask(organizationId: Id, input: CreateTaskRequest, gen: Generated, defaultStatus: Status)
      returns (r: Result<TaskResponse, HttpError>)
      requires Valid()
      requires gen.id !in tasks
      requires forall e :: e in evidence.Values ==> e.taskId != gen.id
      modifies this
      ensures Valid()
      ensures frameworks == old(frameworks) && controls == old(controls) && evidence == old(evidence)
      ensures r.Ok? <==> ControlOwnedBy(frameworks, controls, organizationId, input.controlId)
      ensures r.Err? ==> r.error == NotFoundError(Some("Control not found"), NoDetails) && tasks == old(tasks)
      ensures r.Ok? ==>
        && tasks == old(tasks)[gen.id := NewTask(organizationId, input, gen, defaultStatus)]
        && r.value == ToTaskResponse(tasks[gen.id])
      ensures OtherTenantsUntouched(old(tasks), tasks, organizationId)
    {
      var err := AssertControlBelongsToOrg(organizationId, input.controlId);
      if err.Some? {
        return Err(err.value);
      }
      var task := NewTask(organizationId, input, gen, defaultStatus);
      tasks := tasks[gen.id := task];
      r := Ok(ToTaskResponse(task));
    }

    /** `prisma.task.count({ where })`. */
    method CountWhere(w: TaskWhere) returns (n: nat)
      ensures n == |MatchingIds(w)|
    {
      n := 0;
      var remaining := tasks.Keys;
      while remaining != {}
        invariant remaining <= tasks.Keys
        invariant n == |set id | id in tasks.Keys - remaining && Matches(w, tasks[id])|
        decreases remaining
      {
        var id :| id in remaining;
        ghost var counted := set k | k in tasks.Keys - remaining && Matches(w, tasks[k]);
        remaining := remaining - {id};
        ghost var counted' := set k | k in tasks.Keys - remaining && Matches(w, tasks[k]);
        if Matches(w, tasks[id]) {
          assert counted' == counted + {id};
          n := n + 1;
        } else {
          assert counted' == counted;
        }
      }
      assert tasks.Keys - remaining == tasks.Keys;
    }

    /** `prisma.task.findMany({ where, orderBy: { createdAt: 'desc' } })`, before skip and take. */
    method FindManyNewestFirst(w: TaskWhere) returns (rows: seq<Task>)
      requires TasksKeyed(tasks)
      ensures NewestFirst(rows)
      ensures forall t :: t in rows <==> t in tasks.Values && Matches(w, t)
      ensures |rows| == |MatchingIds(w)|
    {
      rows := [];
      var remaining := tasks.Keys;
      while remaining != {}
        invariant remaining <= tasks.Keys
        invariant NewestFirst(rows)
        invariant forall t :: t in rows ==> t.id in tasks && tasks[t.id] == t && Matches(w, t)
        invariant TaskIds(rows) == set id | id in tasks.Keys - remaining && Matches(w, tasks[id])
        invariant |rows| == |TaskIds(rows)|
        decreases remaining
      {
        var id :| id in remaining;
        remaining := remaining - {id};
        var t := tasks[id];
        if Matches(w, t) {
          assert id !in TaskIds(rows);
          InsertKeepsNewestFirst(rows, t);
          var rows' := InsertNewestFirst(rows, t);
          assert TaskIds(rows') == TaskIds(rows) + {id};
          rows := rows';
        }
      }
      assert tasks.Keys - remaining == tasks.Keys;
      assert TaskIds(rows) == MatchingIds(w);
      forall t | t in tasks.Values && Matches(w, t) ensures t in rows {
        var k :| k in tasks && tasks[k] == t;
        assert k in TaskIds(rows);
        var x :| x in rows && x.id == k;
      }
    }

    /** The ids of the tasks a list call with these parameters selects. */
    ghost function SelectedIds(organizationId: Id, params: ListParams): set<Id>
      reads this
    {
      set id | id in tasks && Selected(organizationId, params, tasks[id])
    }

    /**
      `listTasks`: the clamped limit and offset, the filtered tasks newest first with
      `offset` skipped and at most `limit` kept, and the count of all filtered tasks.
     */
    method ListTasks(organizationId: Id, params: ListParams) returns (response: ListTasksResponse, ghost ordered: seq<Task>)
      requires Valid()
      ensures response.limit == EffectiveLimit(params.limit)
      ensures response.offset == EffectiveOffset(params.offset)
      ensures NewestFirst(ordered)
      ensures forall t :: t in ordered <==> t in tasks.Values && Selected(organizationId, params, t)
      ensures response.total == |ordered| == |SelectedIds(organizationId, params)|
      ensures response.items == TaskResponses(Window(ordered, response.offset, response.limit))
      ensures |response.items| == Min(response.limit, Max(response.total - response.offset, 0))
      ensures forall i :: 0 <= i < |response.items| ==> response.items[i].organizationId == organizationId
      ensures forall i, j :: 0 <= i < j < |response.items| ==>
                response.items[i].createdAt.epochMillis >= response.items[j].createdAt.epochMillis
    {
      var limit := EffectiveLimit(params.limit);
      var offset := EffectiveOffset(params.offset);
      var where := BuildWhere(organizationId, params);
      assert MatchingIds(where) == SelectedIds(organizationId, params);
      var total := CountWhere(where);
      var rows := FindManyNewestFirst(where);
      var page := Window(rows, offset, limit);
      response := ListTasksResponse(total, limit, offset, TaskResponses(page));
      ordered := rows;
      WindowWithinTotal(rows, offset, limit);
      WindowKeepsOrder(rows, offset, limit);
      forall i | 0 <= i < |response.items| ensures response.items[i].organizationId == organizationId {
        assert page[i] in rows;
      }
    }

    /** The evidence rows of one task, in no particular order. */
    method FindEvidenceOf(taskId: Id) returns (rows: seq<Evidence>)
      requires EvidenceKeyed(evidence)
      ensures forall e :: e in rows <==> e in evidence.Values && e.taskId == taskId
      ensures |rows| == |EvidenceIdsOf(taskId)|
    {
      rows := [];
      var remaining := evidence.Keys;
      while remaining != {}
        invariant remaining <= evidence.Keys
        invariant forall e :: e in rows ==> e.id in evidence && evidence[e.id] == e && e.taskId == taskId
        invariant EvidenceIds(rows) == set id | id in evidence.Keys - remaining && evidence[id].taskId == taskId
        invariant |rows| == |EvidenceIds(rows)|
        decreases remaining
      {
        var id :| id in remaining;
        remaining := remaining - {id};
        var e := evidence[id];
        if e.taskId == taskId {
          assert id !in EvidenceIds(rows);
          var rows' := rows + [e];
          assert EvidenceIds(rows') == EvidenceIds(rows) + {id};
          rows := rows';
        }
      }
      assert evidence.Keys - remaining == evidence.Keys;
      assert EvidenceIds(rows) == EvidenceIdsOf(taskId);
      forall e | e in evidence.Values && e.taskId == taskId ensures e in rows {
        var k :| k in evidence && evidence[k] == e;
        assert k in EvidenceIds(rows);
        var x :| x in rows && x.id == k;
      }
    }

    /** `getTaskDetails`: the caller's task with all its evidence, or NotFound. */
    method GetTaskDetails(organizationId: Id, taskId: Id) returns (r: Result<TaskDetailsResponse, HttpError>, ghost rows: seq<Evidence>)
      requires Valid()
      ensures r.Ok? <==> TaskOwnedBy(tasks, organizationId, taskId)
      ensures r.Err? ==> r.error == NotFoundError(Some("Task not found"), NoDetails)
      ensures r.Ok? ==>
        && taskId in tasks
        && r.value.task == ToTaskResponse(tasks[taskId])
        && r.value.evidence == EvidenceResponses(rows)
        && (forall e :: e in rows <==> e in evidence.Values && e.taskId == taskId)
        && |rows| == |EvidenceIdsOf(taskId)|
    {
      TaskOwnedByLookup(tasks, organizationId, taskId);
      rows := [];
      if !(taskId in tasks && tasks[taskId].organizationId == organizationId) {
        return Err(NotFoundError(Some(TaskNotFoundMessage), NoDetails)), rows;
      }
      var found := FindEvidenceOf(taskId);
      rows := found;
      r := Ok(TaskDetailsResponse(ToTaskResponse(tasks[taskId]), EvidenceResponses(found)));
    }

    /**
      `patchTask`, checked in order: an empty patch is a BadRequest; a patch naming a
      control is checked against the caller's organization; the task must be the
      caller's; then exactly the present fields are written.
     */
    method PatchTask(organizationId: Id, taskId: Id, patch: PatchTaskRequest, now: Timestamp)
      returns (r: Result<TaskResponse, HttpError>)
      requires Valid()
      modifies this
      ensures Valid()
      ensures frameworks == old(frameworks) && controls == old(controls) && evidence == old(evidence)
      ensures KeyCount(patch) == 0 ==> r == Err(BadRequestError("No fields provided to update", NoDetails))
      ensures KeyCount(patch) != 0 && RevalidatesControl(patch)
              && !ControlOwnedBy(frameworks, controls, organizationId, patch.controlId.value)
              ==> r == Err(NotFoundError(Some("Control not found"), NoDetails))
      ensures KeyCount(patch) != 0
              && (RevalidatesControl(patch) ==> ControlOwnedBy(frameworks, controls, organizationId, patch.controlId.value))
              ==> (r.Ok? <==> TaskOwnedBy(old(tasks), organizationId, taskId))
      ensures r.Err? && KeyCount(patch) != 0 && (RevalidatesControl(patch) ==> ControlOwnedBy(frameworks, controls, organizationId, patch.controlId.value))
              ==> r.error == NotFoundError(Some("Task not found"), NoDetails)
      ensures r.Err? ==> tasks == old(tasks)
      ensures r.Ok? ==>
        && taskId in old(tasks)
        && tasks == old(tasks)[taskId := ApplyPatch(old(tasks)[taskId], patch, now)]
        && r.value == ToTaskResponse(tasks[taskId])
      ensures OtherTenantsUntouched(old(tasks), tasks, organizationId)
    {
      if KeyCount(patch) == 0 {
        return Err(BadRequestError(EmptyPatchMessage, NoDetails));
      }
      if RevalidatesControl(patch) {
        var err := AssertControlBelongsToOrg(organizationId, patch.controlId.value);
        if err.Some? {
          return Err(err.value);
        }
      }
      TaskOwnedByLookup(tasks, organizationId, taskId);
      if !(taskId in tasks && tasks[taskId].organizationId == organizationId) {
        return Err(NotFoundError(Some(TaskNotFoundMessage), NoDetails));
      }
      var updated := ApplyPatch(tasks[taskId], patch, now);
      assert ControlOwnedBy(frameworks, controls, updated.organizationId, updated.controlId);
      tasks := tasks[taskId := updated];
      r := Ok(ToTaskResponse(updated));
    }

    /**
      `deleteTask`: one `deleteMany` scoped to the caller's organization; NotFound when
      it removed nothing, and then nothing is deleted. Evidence of the deleted task may
      or may not be removed with it (the schema decides); no evidence row is changed,
      and every row of another task stays.
     */
    method DeleteTask(organizationId: Id, taskId: Id) returns (err: Option<HttpError>)
      requires Valid()
      modifies this
      ensures Valid()
      ensures frameworks == old(frameworks) && controls == old(controls)
      ensures err.None? <==> TaskOwnedBy(old(tasks), organizationId, taskId)
      ensures err.Some? ==> err.value == NotFoundError(Some("Task not found"), NoDetails) && tasks == old(tasks)
      ensures err.None? ==> tasks == old(tasks) - {taskId}
      ensures err.Some? ==> evidence == old(evidence)
      ensures forall id :: id in evidence ==> id in old(evidence) && evidence[id] == old(evidence)[id]
      ensures forall id :: id in old(evidence) && old(evidence)[id].taskId != taskId ==> id in evidence && evidence[id] == old(evidence)[id]
      ensures OtherTenantsUntouched(old(tasks), tasks, organizationId)
    {
      var matched := set id | id in tasks && tasks[id].id == taskId && tasks[id].organizationId == organizationId;
      TaskOwnedByLookup(tasks, organizationId, taskId);
      assert matched == if taskId in tasks && tasks[taskId].organizationId == organizationId then {taskId} else {};
      tasks := map id | id in tasks && id !in matched :: tasks[id];
      if |matched| == 0 {
        err := Some(NotFoundError(Some(TaskNotFoundMessage), NoDetails));
      } else {
        err := None;
      }
    }

    /** `addEvidence`: the caller's task must exist; then one evidence row is attached to it. */
    method AddEvidence(organizationId: Id, taskId: Id, input: CreateEvidenceRequest, gen: Generated)
      returns (r: Result<EvidenceResponse, HttpError>)
      requires Valid()
      requires gen.id !in evidence
      modifies this
      ensures Valid()
      ensures frameworks == old(frameworks) && controls == old(controls) && tasks == old(tasks)
      ensures r.Ok? <==> TaskOwnedBy(tasks, organizationId, taskId)
      ensures r.Err? ==> r.error == NotFoundError(Some("Task not found"), NoDetails) && evidence == old(evidence)
      ensures r.Ok? ==>
        && evidence == old(evidence)[gen.id := NewEvidence(taskId, input, gen)]
        && r.value == ToEvidenceResponse(evidence[gen.id])
    {
      TaskOwnedByLookup(tasks, organizationId, taskId);
      if !(taskId in tasks && tasks[taskId].organizationId == organizationId) {
        return Err(NotFoundError(Some(TaskNotFoundMessage), NoDetails));
      }
      var e := NewEvidence(taskId, input, gen);
      evidence := evidence[gen.id := e];
      r := Ok(ToEvidenceResponse(e));
    }

    /**
      `deleteEvidence`: the evidence id, its task id and that task's organization must
      all match before the row is deleted by id.
     */
    method DeleteEvidence(organizationId: Id, taskId: Id, evidenceId: Id) returns (err: Option<HttpError>)
      requires Valid()
      modifies this
      ensures Valid()
      ensures frameworks == old(frameworks) && controls == old(controls) && tasks == old(tasks)
      ensures err.None? <==> EvidenceOwnedBy(tasks, old(evidence), organizationId, taskId, evidenceId)
      ensures err.Some? ==> err.value == NotFoundError(Some("Evidence not found"), NoDetails) && evidence == old(evidence)
      ensures err.None? ==> evidence == old(evidence) - {evidenceId}
    {
      EvidenceOwnedByLookup(tasks, evidence, organizationId, taskId, evidenceId);
      if !(evidenceId in evidence && evidence[evidenceId].taskId == taskId
           && taskId in tasks && tasks[taskId].organizationId == organizationId)
      {
        return Some(NotFoundError(Some(EvidenceNotFoundMessage), NoDetails));
      }
      evidence := evidence - {evidenceId};
      err := None;
    }
  }

  /**
    The end-to-end flow on the seeded reference data: create a task, read it, attach
    evidence, read it again, delete it, and read it once more; and the same calls
    from a second organization.
   */
  method EndToEndScenario()
  {
    var fs := map["f1" := Framework("f1", "acme", "DSALTA")];
    var cs := map["ac01" := Control("ac01", "f1", "AC-01", "Access Control Policy"),
                  "log01" := Control("log01", "f1", "LOG-01", "Audit Logging")];
    var store := new TaskStore(fs, cs);
    ControlOwnedByLookup(fs, cs, "acme", "ac01");
    ControlOwnedByLookup(fs, cs, "globex", "ac01");

    var input := CreateTaskRequest("ac01", "Document Access Control Policy", None, "POLICY", None);
    // The input has no status, so the store fills in the default the caller passes.
    var created := store.CreateTask("acme", input, Generated("t1", 1), "OPEN");
    assert created.Ok? && created.value.organizationId == "acme" && created.value.description.None?;

    var crossCreate := store.CreateTask("globex", input, Generated("t2", 2), "OPEN");
    assert crossCreate.Err? && crossCreate.error.status == 404;

    TaskOwnedByLookup(store.tasks, "acme", "t1");
    var details, rows := store.GetTaskDetails("acme", "t1");
    assert store.EvidenceIdsOf("t1") == {};
    assert details.Ok? && details.value.evidence == [];

    TaskOwnedByLookup(store.tasks, "globex", "t1");
    var crossRead, _ := store.GetTaskDetails("globex", "t1");
    assert crossRead == Err(NotFoundError(Some("Task not found"), NoDetails));

    var added := store.AddEvidence("acme", "t1", CreateEvidenceRequest("DOCUMENT", None), Generated("e1", 3));
    assert added.Ok? && added.value.taskId == "t1";

    var details2, rows2 := store.GetTaskDetails("acme", "t1");
    assert store.EvidenceIdsOf("t1") == {"e1"};
    assert details2.Ok? && |details2.value.evidence| == 1;

    var crossDelete := store.DeleteTask("globex", "t1");
    assert crossDelete.Some? && "t1" in store.tasks;

    var deleted := store.DeleteTask("acme", "t1");
    assert deleted.None?;

    TaskOwnedByLookup(store.tasks, "acme", "t1");
    var gone, _ := store.GetTaskDetails("acme", "t1");
    assert gone.Err? && gone.error.status == 404;
  }
}
