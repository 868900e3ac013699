/**
  Partial updates of a task. A patch field that is absent leaves the stored value
  as it is; a present field overwrites it; the description is three-state, so a
  present `null` clears it.
 */
module TaskPatch {
  import opened Wrappers
  import opened Records
  import opened Tenancy

  /** The request body; `description` is absent (`None`), `null` (`Some(None)`) or a string. */
  datatype PatchTaskRequest = PatchTaskRequest(
    controlId: Option<Id>,
    name: Option<string>,
    description: Option<Option<string>>,
    category: Option<Category>,
    status: Option<Status>)

  /** `Object.keys(patch).length`. */
  function KeyCount(p: PatchTaskRequest): (n: nat)
    ensures n <= 5
    ensures n == 0 <==> p == PatchTaskRequest(None, None, None, None, None)
  {
    (if p.controlId.Some? then 1 else 0) + (if p.name.Some? then 1 else 0)
    + (if p.description.Some? then 1 else 0) + (if p.category.Some? then 1 else 0)
    + (if p.status.Some? then 1 else 0)
  }

  function Overwrite<T>(current: T, patched: Option<T>): T
  {
    if patched.Some? then patched.value else current
  }

  /** The row `task.update` leaves behind; the persistence layer stamps `updatedAt` with `now`. */
  function ApplyPatch(t: Task, p: PatchTaskRequest, now: Timestamp): (r: Task)
    ensures r.id == t.id && r.organizationId == t.organizationId && r.createdAt == t.createdAt
    ensures r.updatedAt == now
    ensures p.controlId.None? ==> r.controlId == t.controlId
    ensures p.name.None? ==> r.name == t.name
    ensures p.description.None? ==> r.description == t.description
    ensures p.category.None? ==> r.category == t.category
    ensures p.status.None? ==> r.status == t.status
    ensures p.controlId.Some? ==> r.controlId == p.controlId.value
    ensures p.name.Some? ==> r.name == p.name.value
    ensures p.description == Some(None) ==> r.description.None?
    ensures p.description.Some? && p.description.value.Some? ==> r.description == p.description.value
    ensures p.category.Some? ==> r.category == p.category.value
    ensures p.status.Some? ==> r.status == p.status.value
  {
    t.(controlId := Overwrite(t.controlId, p.controlId),
       name := Overwrite(t.name, p.name),
       description := Overwrite(t.description, p.description),
       category := Overwrite(t.category, p.category),
       status := Overwrite(t.status, p.status),
       updatedAt := now)
  }

  /** Two patches in a row: the later one's present fields win. */
  function Merge(earlier: PatchTaskRequest, later: PatchTaskRequest): PatchTaskRequest
  {
    PatchTaskRequest(
      if later.controlId.Some? then later.controlId else earlier.controlId,
      if later.name.Some? then later.name else earlier.name,
      if later.description.Some? then later.description else earlier.description,
      if later.category.Some? then later.category else earlier.category,
      if later.status.Some? then later.status else earlier.status)
  }

  /** Applying two patches is applying their merge once. */
  lemma PatchesCompose(t: Task, p: PatchTaskRequest, q: PatchTaskRequest, n: Timestamp, m: Timestamp)
    ensures ApplyPatch(ApplyPatch(t, p, n), q, m) == ApplyPatch(t, Merge(p, q), m)
  {
  }

  /** Re-sending a patch changes nothing but the update time. */
  lemma PatchIdempotent(t: Task, p: PatchTaskRequest, n: Timestamp, m: Timestamp)
    ensures ApplyPatch(ApplyPatch(t, p, n), p, m) == ApplyPatch(t, p, m)
  {
  }

  /**
    The controlId guard as written: `if (patch.controlId)`, a truthiness test, so an
    empty string skips the organization check although the update still writes it.
   */
  predicate RevalidatesControlAsWritten(p: PatchTaskRequest)
  {
    p.controlId.Some? && p.controlId.value != ""
  }

  /** The guard as intended: every controlId the update will write is checked first. */
  predicate RevalidatesControl(p: PatchTaskRequest)
  {
    p.controlId.Some?
  }

  /**
    The two guards disagree on exactly one kind of patch: one whose controlId is
    present and empty. The intended guard checks it; the as-written guard lets it
    through.
   */
  lemma GuardsDifferOnlyOnEmptyControl(p: PatchTaskRequest)
    ensures RevalidatesControlAsWritten(p) ==> RevalidatesControl(p)
    ensures RevalidatesControl(p) && !RevalidatesControlAsWritten(p) <==> p.controlId == Some("")
  {
  }

  /**
    For every task with a control, the patch `{ controlId: "" }` is not empty, the
    as-written guard skips it, and the update still moves the task off its control.
   */
  lemma AsWrittenGuardSkipsAWrite(t: Task, now: Timestamp)
    requires t.controlId != ""
    ensures
      var p := PatchTaskRequest(Some(""), None, None, None, None);
      && KeyCount(p) > 0
      && !RevalidatesControlAsWritten(p) && RevalidatesControl(p)
      && ApplyPatch(t, p, now).controlId == "" && ApplyPatch(t, p, now).controlId != t.controlId
  {
  }

  /**
    A store that is tenant consistent before a patch `{ controlId: "" }` that the
    as-written guard lets through, and is no longer consistent after it: the task
    now names a control that no framework of its organization has.
   */
  lemma AsWrittenGuardBreaksTenancy()
    ensures
      var fs := map["f1" := Framework("f1", "org1", "DSALTA")];
      var cs := map["c1" := Control("c1", "f1", "AC-01", "Access Control Policy")];
      var t := Task("t1", "org1", "c1", "Document Access Control Policy", None, "POLICY", "OPEN", 0, 0);
      var p := PatchTaskRequest(Some(""), None, None, None, None);
      && TenantConsistent(fs, cs, map["t1" := t])
      && KeyCount(p) > 0 && !RevalidatesControlAsWritten(p)
      && !TenantConsistent(fs, cs, map["t1" := ApplyPatch(t, p, 1)])
  {
    var fs := map["f1" := Framework("f1", "org1", "DSALTA")];
    var cs := map["c1" := Control("c1", "f1", "AC-01", "Access Control Policy")];
    var t := Task("t1", "org1", "c1", "Document Access Control Policy", None, "POLICY", "OPEN", 0, 0);
    var p := PatchTaskRequest(Some(""), None, None, None, None);
    ControlOwnedByLookup(fs, cs, "org1", "c1");
    ControlOwnedByLookup(fs, cs, "org1", "");
    var after := map["t1" := ApplyPatch(t, p, 1)];
    assert after["t1"].controlId == "";
  }
}
