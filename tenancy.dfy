/**
  Scoped lookups. Each `findFirst`/`deleteMany` filter of the service is stated
  here as a predicate over the stored rows ("some row has this id and reaches the
  caller's organization"), together with the tenant invariant the guards keep:
  every task's control belongs, through its framework, to the task's organization.
 */
module Tenancy {
  import opened Records

  /** Each table is keyed by its rows' own ids. */
  ghost predicate FrameworksKeyed(fs: map<Id, Framework>) { forall id :: id in fs ==> fs[id].id == id }
  ghost predicate ControlsKeyed(cs: map<Id, Control>) { forall id :: id in cs ==> cs[id].id == id }
  ghost predicate TasksKeyed(ts: map<Id, Task>) { forall id :: id in ts ==> ts[id].id == id }
  ghost predicate EvidenceKeyed(es: map<Id, Evidence>) { forall id :: id in es ==> es[id].id == id }

  /** `framework: { organizationId }`: some framework row with this id belongs to the organization. */
  ghost predicate FrameworkOwnedBy(fs: map<Id, Framework>, frameworkId: Id, organizationId: Id)
  {
    exists f :: f in fs.Values && f.id == frameworkId && f.organizationId == organizationId
  }

  /** `control.findFirst({ where: { id: controlId, framework: { organizationId } } })` finds a row. */
  ghost predicate ControlOwnedBy(fs: map<Id, Framework>, cs: map<Id, Control>, organizationId: Id, controlId: Id)
  {
    exists c :: c in cs.Values && c.id == controlId && FrameworkOwnedBy(fs, c.frameworkId, organizationId)
  }

  /** `task.findFirst({ where: { id: taskId, organizationId } })` finds a row. */
  ghost predicate TaskOwnedBy(ts: map<Id, Task>, organizationId: Id, taskId: Id)
  {
    exists t :: t in ts.Values && t.id == taskId && t.organizationId == organizationId
  }

  /** `evidence.findFirst({ where: { id: evidenceId, taskId, task: { organizationId } } })` finds a row. */
  ghost predicate EvidenceOwnedBy(ts: map<Id, Task>, es: map<Id, Evidence>, organizationId: Id, taskId: Id, evidenceId: Id)
  {
    exists e :: e in es.Values && e.id == evidenceId && e.taskId == taskId && TaskOwnedBy(ts, organizationId, e.taskId)
  }

  /** No task references a control outside its own organization. */
  ghost predicate TenantConsistent(fs: map<Id, Framework>, cs: map<Id, Control>, ts: map<Id, Task>)
  {
    forall id :: id in ts ==> ControlOwnedBy(fs, cs, ts[id].organizationId, ts[id].controlId)
  }

  /** With keyed tables, the control filter is a lookup of the control and then of its framework. */
  lemma ControlOwnedByLookup(fs: map<Id, Framework>, cs: map<Id, Control>, organizationId: Id, controlId: Id)
    requires FrameworksKeyed(fs) && ControlsKeyed(cs)
    ensures ControlOwnedBy(fs, cs, organizationId, controlId)
        <==> controlId in cs && cs[controlId].frameworkId in fs && fs[cs[controlId].frameworkId].organizationId == organizationId
  {
    if controlId in cs && cs[controlId].frameworkId in fs && fs[cs[controlId].frameworkId].organizationId == organizationId {
      var c := cs[controlId];
      assert c in cs.Values;
      assert fs[c.frameworkId] in fs.Values;
    }
    if ControlOwnedBy(fs, cs, organizationId, controlId) {
      var c :| c in cs.Values && c.id == controlId && FrameworkOwnedBy(fs, c.frameworkId, organizationId);
      var f :| f in fs.Values && f.id == c.frameworkId && f.organizationId == organizationId;
      var ck :| ck in cs && cs[ck] == c;
      var fk :| fk in fs && fs[fk] == f;
    }
  }

  /** With a keyed task table, the task filter is a lookup by id and a comparison of organizations. */
  lemma TaskOwnedByLookup(ts: map<Id, Task>, organizationId: Id, taskId: Id)
    requires TasksKeyed(ts)
    ensures TaskOwnedBy(ts, organizationId, taskId) <==> taskId in ts && ts[taskId].organizationId == organizationId
  {
    if taskId in ts && ts[taskId].organizationId == organizationId {
      assert ts[taskId] in ts.Values;
    }
    if TaskOwnedBy(ts, organizationId, taskId) {
      var t :| t in ts.Values && t.id == taskId && t.organizationId == organizationId;
      var k :| k in ts && ts[k] == t;
    }
  }

  /** With keyed tables, the evidence filter is a lookup of the evidence row and then of its task. */
  lemma EvidenceOwnedByLookup(ts: map<Id, Task>, es: map<Id, Evidence>, organizationId: Id, taskId: Id, evidenceId: Id)
    requires TasksKeyed(ts) && EvidenceKeyed(es)
    ensures EvidenceOwnedBy(ts, es, organizationId, taskId, evidenceId)
        <==> evidenceId in es && es[evidenceId].taskId == taskId && taskId in ts && ts[taskId].organizationId == organizationId
  {
    TaskOwnedByLookup(ts, organizationId, taskId);
    if evidenceId in es && es[evidenceId].taskId == taskId && TaskOwnedBy(ts, organizationId, taskId) {
      assert es[evidenceId] in es.Values;
    }
    if EvidenceOwnedBy(ts, es, organizationId, taskId, evidenceId) {
      var e :| e in es.Values && e.id == evidenceId && e.taskId == taskId && TaskOwnedBy(ts, organizationId, e.taskId);
      var k :| k in es && es[k] == e;
    }
  }

  /** A resource in another organization is indistinguishable from a missing one. */
  lemma OtherTenantLooksMissing(ts: map<Id, Task>, a: Id, b: Id, taskId: Id)
    requires TasksKeyed(ts) && a != b
    requires taskId in ts && ts[taskId].organizationId == a
    ensures !TaskOwnedBy(ts, b, taskId) && TaskOwnedBy(ts, a, taskId)
    ensures TaskOwnedBy(ts, b, taskId) == TaskOwnedBy(ts - {taskId}, b, taskId)
  {
    TaskOwnedByLookup(ts, a, taskId);
    TaskOwnedByLookup(ts, b, taskId);
    TaskOwnedByLookup(ts - {taskId}, b, taskId);
  }

  /** Tasks of every organization other than `organizationId` are the same before and after. */
  ghost predicate OtherTenantsUntouched(before: map<Id, Task>, after: map<Id, Task>, organizationId: Id)
  {
    && (forall id :: id in before && before[id].organizationId != organizationId ==> id in after && after[id] == before[id])
    && (forall id :: id in after && after[id].organizationId != organizationId ==> id in before && before[id] == after[id])
  }
}
