/**
  The persistent records the service reads and writes, the request and response
  shapes it exchanges, and the two field mappers that turn records into responses.
 */
module Records {
  import opened Wrappers

  /** A server-assigned identifier (a UUID string) or an identifier taken from a path. */
  type Id = string

  /**
    Members of the category, status and evidence-type enumerations. The sets are
    fixed by the database schema, which is not part of this model; the values
    seen are POLICY, OPEN and DOCUMENT.
   */
  type Category = string
  type Status = string
  type EvidenceType = string

  /** An instant, in milliseconds since the epoch, as the persistence layer stores it. */
  type Timestamp = nat

  /** The ISO-8601 rendering of an instant, kept abstract: it determines the instant. */
  datatype IsoTime = IsoTime(epochMillis: Timestamp)

  function Iso(at: Timestamp): IsoTime
  {
    IsoTime(at)
  }

  datatype Framework = Framework(id: Id, organizationId: Id, name: string)

  datatype Control = Control(id: Id, frameworkId: Id, code: string, title: string)

  datatype Task = Task(
    id: Id,
    organizationId: Id,
    controlId: Id,
    name: string,
    description: Option<string>,
    category: Category,
    status: Status,
    createdAt: Timestamp,
    updatedAt: Timestamp)

  datatype Evidence = Evidence(id: Id, taskId: Id, evidenceType: EvidenceType, note: Option<string>, createdAt: Timestamp)

  datatype CreateTaskRequest = CreateTaskRequest(
    controlId: Id,
    name: string,
    description: Option<string>,
    category: Category,
    status: Option<Status>)

  datatype CreateEvidenceRequest = CreateEvidenceRequest(evidenceType: EvidenceType, note: Option<string>)

  /** The values the persistence layer chooses when it creates a row: a fresh id and the time. */
  datatype Generated = Generated(id: Id, at: Timestamp)

  datatype TaskResponse = TaskResponse(
    id: Id,
    organizationId: Id,
    controlId: Id,
    name: string,
    description: Option<string>,
    category: Category,
    status: Status,
    createdAt: IsoTime,
    updatedAt: IsoTime)

  datatype EvidenceResponse = EvidenceResponse(id: Id, taskId: Id, evidenceType: EvidenceType, note: Option<string>, createdAt: IsoTime)

  datatype TaskDetailsResponse = TaskDetailsResponse(task: TaskResponse, evidence: seq<EvidenceResponse>)

  datatype ListTasksResponse = ListTasksResponse(total: nat, limit: int, offset: int, items: seq<TaskResponse>)

  /** `toTaskResponse`: copies every field, rendering the two timestamps; nothing is lost. */
  function ToTaskResponse(t: Task): (r: TaskResponse)
    ensures TaskOfResponse(r) == t
  {
    TaskResponse(t.id, t.organizationId, t.controlId, t.name, t.description, t.category, t.status,
                 Iso(t.createdAt), Iso(t.updatedAt))
  }

  /** `toEvidenceResponse`: copies every field, rendering the creation time; nothing is lost. */
  function ToEvidenceResponse(e: Evidence): (r: EvidenceResponse)
    ensures EvidenceOfResponse(r) == e
  {
    EvidenceResponse(e.id, e.taskId, e.evidenceType, e.note, Iso(e.createdAt))
  }

  /** `items.map(toTaskResponse)`: the responses give back the tasks, in order. */
  function TaskResponses(ts: seq<Task>): (rs: seq<TaskResponse>)
    ensures |rs| == |ts|
    ensures forall i :: 0 <= i < |ts| ==> TaskOfResponse(rs[i]) == ts[i]
  {
    seq(|ts|, i requires 0 <= i < |ts| => ToTaskResponse(ts[i]))
  }

  /** `task.evidence.map(toEvidenceResponse)`: the responses give back the rows, in order. */
  function EvidenceResponses(es: seq<Evidence>): (rs: seq<EvidenceResponse>)
    ensures |rs| == |es|
    ensures forall i :: 0 <= i < |es| ==> EvidenceOfResponse(rs[i]) == es[i]
  {
    seq(|es|, i requires 0 <= i < |es| => ToEvidenceResponse(es[i]))
  }

  /** Reads a task back from its response: the inverse of the mapper. */
  function TaskOfResponse(r: TaskResponse): Task
  {
    Task(r.id, r.organizationId, r.controlId, r.name, r.description, r.category, r.status,
         r.createdAt.epochMillis, r.updatedAt.epochMillis)
  }

  /** Reads an evidence row back from its response. */
  function EvidenceOfResponse(r: EvidenceResponse): Evidence
  {
    Evidence(r.id, r.taskId, r.evidenceType, r.note, r.createdAt.epochMillis)
  }
}
