/**
 The task store of internal/taskstore on values: what each operation does to a finite map of
 immutable records, and the life cycle every record follows over whole runs.
 */
module TaskStore {
  import opened Text
  import opened Wrappers
  import Backend

  /** Readings of the clock; the zero time is the one that time.IsZero recognises. */
  type Time = int
  const ZERO_TIME: Time := 0

  datatype Status = Accepted | Completed | Failed | OtherStatus(name: string)

  datatype TaskError = TaskError(code: string, message: string)

  datatype Record = Record(
    taskID: string, requestID: string, status: Status, request: Backend.Request,
    response: Option<Backend.Response>, error: Option<TaskError>,
    createdAt: Time, updatedAt: Time, completedAt: Option<Time>, metadata: Backend.Metadata)

  datatype StoreError = InvalidTaskID | TaskExists | TaskNotFound | InvalidResponse | InvalidTransition

  type Contents = map<string, Record>

  datatype Outcome = Outcome(contents: Contents, err: Option<StoreError>)

  // ---------- The operations ----------

  function AcceptedRecord(rec: Record, now: Time): Record {
    var createdAt := if rec.createdAt == ZERO_TIME then now else rec.createdAt;
    rec.(taskID := TrimSpace(rec.taskID),
         status := Accepted,
         requestID := if rec.requestID == "" then rec.request.id else rec.requestID,
         createdAt := createdAt,
         updatedAt := if rec.updatedAt == ZERO_TIME then createdAt else rec.updatedAt,
         completedAt := None, response := None, error := None)
  }

  function Create(m: Contents, rec: Record, now: Time): Outcome {
    var id := TrimSpace(rec.taskID);
    if id == "" then Outcome(m, Some(InvalidTaskID))
    else if id in m then Outcome(m, Some(TaskExists))
    else Outcome(m[id := AcceptedRecord(rec, now)], None)
  }

  /** The error that stops a transition out of the accepted status, if any. */
  function TransitionError(m: Contents, id: string): Option<StoreError> {
    if id !in m then Some(TaskNotFound)
    else if m[id].status != Accepted then Some(InvalidTransition)
    else None
  }

  function CompletedRecord(rec: Record, resp: Option<Backend.Response>, now: Time): Record {
    rec.(status := Completed, response := resp, error := None, updatedAt := now, completedAt := Some(now))
  }

  function FailedRecord(rec: Record, err: TaskError, now: Time): Record {
    rec.(status := Failed, response := None, error := Some(err), updatedAt := now, completedAt := Some(now))
  }

  function Complete(m: Contents, taskID: string, resp: Option<Backend.Response>, now: Time): Outcome {
    var id := TrimSpace(taskID);
    if id == "" then Outcome(m, Some(InvalidTaskID))
    else if resp.None? then Outcome(m, Some(InvalidResponse))
    else if TransitionError(m, id).Some? then Outcome(m, TransitionError(m, id))
    else Outcome(m[id := CompletedRecord(m[id], resp, now)], None)
  }

  function Fail(m: Contents, taskID: string, err: TaskError, now: Time): Outcome {
    var id := TrimSpace(taskID);
    if id == "" then Outcome(m, Some(InvalidTaskID))
    else if TransitionError(m, id).Some? then Outcome(m, TransitionError(m, id))
    else Outcome(m[id := FailedRecord(m[id], err, now)], None)
  }

  function Get(m: Contents, taskID: string): Option<Record> {
    var id := TrimSpace(taskID);
    if id != "" && id in m then Some(m[id]) else None
  }

  datatype Op =
    | DoCreate(rec: Record, now: Time)
    | DoComplete(taskID: string, resp: Option<Backend.Response>, now: Time)
    | DoFail(taskID: string, err: TaskError, now: Time)
    | DoGet(taskID: string)

  function Perform(m: Contents, op: Op): Outcome {
    match op
    case DoCreate(rec, now) => Create(m, rec, now)
    case DoComplete(id, resp, now) => Complete(m, id, resp, now)
    case DoFail(id, err, now) => Fail(m, id, err, now)
    case DoGet(_) => Outcome(m, None)
  }

  function After(m: Contents, ops: seq<Op>): Contents
    decreases |ops|
  {
    if ops == [] then m else After(Perform(m, ops[0]).contents, ops[1..])
  }

  // ---------- The life cycle ----------

  predicate Terminal(rec: Record) {
    rec.status == Completed || rec.status == Failed
  }

  /** The status says which of response, error and completion time are set. */
  predicate RecordOk(id: string, rec: Record) {
    && id != "" && TrimSpace(id) == id && rec.taskID == id
    && (rec.status == Accepted || Terminal(rec))
    && (rec.response.Some? <==> rec.status == Completed)
    && (rec.error.Some? <==> rec.status == Failed)
    && rec.completedAt == (if Terminal(rec) then Some(rec.updatedAt) else None)
  }

  ghost predicate StoreOk(m: Contents) {
    forall id | id in m :: RecordOk(id, m[id])
  }

  /** A record may only leave the accepted status, keeping its identity, and then stays as it is. */
  predicate Evolves(before: Record, after: Record) {
    || after == before
    || (&& before.status == Accepted && Terminal(after)
        && after.taskID == before.taskID && after.requestID == before.requestID
        && after.request == before.request && after.createdAt == before.createdAt
        && after.metadata == before.metadata)
  }

  ghost predicate Later(m: Contents, n: Contents) {
    forall id | id in m :: id in n && Evolves(m[id], n[id])
  }

  /** Filing a sound record under a new ID, or a later form of the record already there. */
  lemma UpdateKeepsLifeCycle(m: Contents, id: string, rec: Record)
    requires StoreOk(m) && RecordOk(id, rec) && (id in m ==> Evolves(m[id], rec))
    ensures StoreOk(m[id := rec]) && Later(m, m[id := rec])
  {
  }

  lemma PerformKeepsLifeCycle(m: Contents, op: Op)
    requires StoreOk(m)
    ensures StoreOk(Perform(m, op).contents) && Later(m, Perform(m, op).contents)
    ensures Perform(m, op).err.Some? ==> Perform(m, op).contents == m
  {
    var n := Perform(m, op).contents;
    if n != m {
      var id := TrimSpace(if op.DoCreate? then op.rec.taskID else op.taskID);
      assert n == m[id := n[id]];
      if op.DoCreate? { TrimIsTrimmed(op.rec.taskID); }
      UpdateKeepsLifeCycle(m, id, n[id]);
    }
  }

  /**
   Over every run: records are never lost or renamed, each only moves from accepted to a terminal
   status, terminal records never change, and every status goes with exactly its own fields.
   */
  lemma {:induction false} RunKeepsLifeCycle(m: Contents, ops: seq<Op>)
    requires StoreOk(m)
    ensures StoreOk(After(m, ops)) && Later(m, After(m, ops))
    ensures forall id | id in m && Terminal(m[id]) :: After(m, ops)[id] == m[id]
    decreases |ops|
  {
    if ops != [] {
      PerformKeepsLifeCycle(m, ops[0]);
      RunKeepsLifeCycle(Perform(m, ops[0]).contents, ops[1..]);
    }
  }

  /** A finishing call succeeds exactly on a known accepted task, and then it alone decides the outcome. */
  lemma FinishOnce(m: Contents, id: string, resp: Backend.Response, err: TaskError, now: Time)
    requires StoreOk(m)
    ensures Complete(m, id, Some(resp), now).err.None?
       <==> Get(m, id).Some? && Get(m, id).value.status == Accepted
    ensures Fail(m, id, err, now).err.None? <==> Complete(m, id, Some(resp), now).err.None?
    ensures Complete(m, id, Some(resp), now).err.None? ==>
              var n := Complete(m, id, Some(resp), now).contents;
              && Get(n, id).value.response == Some(resp) && Get(n, id).value.completedAt == Some(now)
              && Fail(n, id, err, now) == Outcome(n, Some(InvalidTransition))
              && Complete(n, id, Some(resp), now) == Outcome(n, Some(InvalidTransition))
              && (forall k | TrimSpace(k) != TrimSpace(id) :: Get(n, k) == Get(m, k))
    ensures Fail(m, id, err, now).err.None? ==>
              var n := Fail(m, id, err, now).contents;
              && Get(n, id).value.error == Some(err) && Get(n, id).value.completedAt == Some(now)
              && Fail(n, id, err, now) == Outcome(n, Some(InvalidTransition))
              && Complete(n, id, Some(resp), now) == Outcome(n, Some(InvalidTransition))
              && (forall k | TrimSpace(k) != TrimSpace(id) :: Get(n, k) == Get(m, k))
  {
  }

  /** Which error a finishing call meets: a blank ID, no response to complete with, no such task, or a finished one. */
  lemma FinishErrors(m: Contents, id: string, resp: Option<Backend.Response>, err: TaskError, now: Time)
    requires StoreOk(m)
    ensures IsBlank(id) ==> Complete(m, id, resp, now) == Fail(m, id, err, now) == Outcome(m, Some(InvalidTaskID))
    ensures !IsBlank(id) && resp.None? ==> Complete(m, id, resp, now) == Outcome(m, Some(InvalidResponse))
    ensures !IsBlank(id) && Get(m, id).None? ==>
              && Fail(m, id, err, now) == Outcome(m, Some(TaskNotFound))
              && (resp.Some? ==> Complete(m, id, resp, now) == Outcome(m, Some(TaskNotFound)))
    ensures Get(m, id).Some? && Terminal(Get(m, id).value) ==>
              && Fail(m, id, err, now) == Outcome(m, Some(InvalidTransition))
              && (resp.Some? ==> Complete(m, id, resp, now) == Outcome(m, Some(InvalidTransition)))
  {
  }

  /** A lookup trims the ID and finds exactly the record that is filed under what is left. */
  lemma GetFinds(m: Contents, id: string)
    requires StoreOk(m)
    ensures Get(m, id).Some? <==> TrimSpace(id) in m
    ensures Get(m, id).Some? ==> Get(m, id).value == m[TrimSpace(id)] && Get(m, id).value.taskID == TrimSpace(id)
  {
  }

  /** Creating files the record under its trimmed ID, as given except for the life-cycle fields. */
  lemma CreateFilesRecord(m: Contents, rec: Record, now: Time)
    requires now != ZERO_TIME
    ensures var o := Create(m, rec, now);
      if IsBlank(rec.taskID) then o == Outcome(m, Some(InvalidTaskID))
      else if Get(m, rec.taskID).Some? then o == Outcome(m, Some(TaskExists))
      else
        && o.err.None? && Get(o.contents, rec.taskID).Some?
        && (forall id | id != rec.taskID && TrimSpace(id) != TrimSpace(rec.taskID) :: Get(o.contents, id) == Get(m, id))
        && var r := Get(o.contents, rec.taskID).value;
           && r.taskID == TrimSpace(rec.taskID) && r.status == Accepted
           && r.request == rec.request && r.metadata == rec.metadata
           && (rec.requestID != "" ==> r.requestID == rec.requestID)
           && (rec.requestID == "" ==> r.requestID == rec.request.id)
           && r.createdAt == (if rec.createdAt == ZERO_TIME then now else rec.createdAt)
           && (rec.updatedAt != ZERO_TIME ==> r.updatedAt == rec.updatedAt)
           && (rec.updatedAt == ZERO_TIME ==> r.updatedAt == r.createdAt)
  {
  }
}
