/**
 The dispatcher of internal/dispatch as a state machine: any number of invocations, each with its
 caller, backend goroutine, one-place channel, contexts and storer goroutine, over one shared task
 store and one ID counter. Every step is one atomic action of one goroutine.
 */
module Dispatch {
  import opened Text
  import opened Wrappers
  import Backend
  import TaskIds
  import TaskStore

  datatype CallResult = CallResult(resp: Option<Backend.Response>, err: Option<Backend.Error>)

  datatype CallerPhase =
    | Selecting
    | TimerFired
    | Named(id: string)
    | Recorded(id: string)
    | GotResult(result: CallResult)
    | GotCanceled
    | GotStoreError(err: TaskStore.StoreError)
    | GotAccepted(id: string)

  datatype BackendPhase =
    | Running
    | Returned(result: CallResult)
    | Sent(result: CallResult)
    | Exited(result: CallResult)

  datatype StorerPhase =
    | NoStorer
    | Waiting(taskID: string)
    | Holding(taskID: string, result: CallResult)
    | Finished(taskID: string, result: CallResult, err: Option<TaskStore.StoreError>)

  datatype Invocation = Invocation(
    request: Backend.Request, caller: CallerPhase, backend: BackendPhase, slot: Option<CallResult>,
    storer: StorerPhase, parentCanceled: bool, invokeCanceled: bool)

  /** `foreign` are the IDs that were in the store before the first invocation. */
  datatype State = State(
    hasStore: bool, store: TaskStore.Contents, foreign: set<string>, counter: nat, invocations: seq<Invocation>)

  datatype Step =
    | Begin(request: Backend.Request)
    | ParentCancels(i: nat)
    | BackendReturns(i: nat, result: CallResult)
    | BackendSends(i: nat)
    | BackendExits(i: nat)
    | SelectResult(i: nat)
    | SelectCancel(i: nat)
    | SelectTimer(i: nat)
    | NameTask(i: nat, configured: Option<string>)
    | CreateRecord(i: nat, now: TaskStore.Time)
    | StartStorer(i: nat)
    | StorerReceives(i: nat)
    | StorerWrites(i: nat, now: TaskStore.Time)

  // ---------- What is written to the store ----------

  /** safeTaskError: the first sentinel found decides, the error text is never used. */
  function SafeTaskError(err: Backend.Error): TaskStore.TaskError {
    if Backend.ContextCanceled in err.wraps then
      TaskStore.TaskError("context_canceled", "backend invocation canceled")
    else if Backend.DeadlineExceeded in err.wraps then
      TaskStore.TaskError("context_deadline_exceeded", "backend invocation deadline exceeded")
    else if Backend.InvalidRequest in err.wraps then
      TaskStore.TaskError("backend_invalid_request", "backend request is invalid")
    else if Backend.Unauthorized in err.wraps then
      TaskStore.TaskError("backend_unauthorized", "backend unauthorized")
    else if Backend.Temporary in err.wraps then
      TaskStore.TaskError("backend_temporary", "backend temporarily unavailable")
    else if Backend.InvocationFailed in err.wraps then
      TaskStore.TaskError("backend_invocation_failed", "backend invocation failed")
    else TaskStore.TaskError("backend_error", "backend failed")
  }

  /** The error stored for a result, if it counts as a failure. */
  function TaskFailure(result: CallResult): Option<TaskStore.TaskError> {
    if result.err.Some? then Some(SafeTaskError(result.err.value))
    else if result.resp.None? then Some(TaskStore.TaskError("internal_error", "backend returned nil response"))
    else if result.resp.value.status == Backend.Failed then
      Some(TaskStore.TaskError("backend_failed", "backend returned failed status"))
    else None
  }

  /** The store call of storeBackendResult. */
  function StoreResult(m: TaskStore.Contents, id: string, result: CallResult, now: TaskStore.Time): TaskStore.Outcome {
    match TaskFailure(result)
    case Some(e) => TaskStore.Fail(m, id, e, now)
    case None => TaskStore.Complete(m, id, result.resp, now)
  }

  const HANDOFF := map["accepted_by" := "dispatcher", "reason" := "quick_timeout"]

  function NewRecord(id: string, request: Backend.Request): TaskStore.Record {
    TaskStore.Record(id, request.id, TaskStore.OtherStatus(""), request, None, None,
                     TaskStore.ZERO_TIME, TaskStore.ZERO_TIME, None,
                     Some(HANDOFF))
  }

  // ---------- Steps ----------

  predicate Enabled(s: State, step: Step) {
    if step.Begin? then true
    else
      && step.i < |s.invocations|
      && var inv := s.invocations[step.i];
         match step
         case Begin(_) => true
         case ParentCancels(_) => true
         case BackendReturns(_, _) => inv.backend.Running?
         case BackendSends(_) => inv.backend.Returned? && inv.slot.None?
         case BackendExits(_) => inv.backend.Sent?
         case SelectResult(_) => inv.caller.Selecting? && inv.slot.Some?
         case SelectCancel(_) => inv.caller.Selecting? && inv.parentCanceled
         case SelectTimer(_) => inv.caller.Selecting?
         case NameTask(_, _) => inv.caller.TimerFired?
         case CreateRecord(_, _) => inv.caller.Named?
         case StartStorer(_) => inv.caller.Recorded?
         case StorerReceives(_) => inv.storer.Waiting? && inv.slot.Some?
         case StorerWrites(_, _) => inv.storer.Holding?
  }

  function Update(s: State, i: nat, inv: Invocation): State
    requires i < |s.invocations|
  {
    s.(invocations := s.invocations[i := inv])
  }

  /** What the dispatcher's ID function gives: the configured one's answer, or a default ID if there is none. */
  function Offered(counter: nat, requestID: string, configured: Option<string>): (string, nat) {
    match configured
    case Some(raw) => (raw, counter)
    case None => (TaskIds.DefaultTaskID(requestID, TaskIds.Bump(counter)), TaskIds.Bump(counter))
  }

  /** The task ID for a request, and the counter afterwards. */
  function ChooseID(counter: nat, requestID: string, configured: Option<string>): (string, nat) {
    var (raw, n) := Offered(counter, requestID, configured);
    if TaskIds.Normalize(raw) != "" then (TaskIds.Normalize(raw), n)
    else (TaskIds.DefaultTaskID(requestID, TaskIds.Bump(n)), TaskIds.Bump(n))
  }

  /** No ID function is configured, or nothing is left of what it returned. */
  predicate NamesByDefault(configured: Option<string>) {
    configured.None? || IsBlank(configured.value)
  }

  function WithName(s: State, i: nat, configured: Option<string>): State
    requires i < |s.invocations|
  {
    var inv := s.invocations[i];
    var (id, counter) := ChooseID(s.counter, inv.request.id, configured);
    Update(s, i, inv.(caller := Named(id))).(counter := counter)
  }

  function Created(s: State, i: nat, now: TaskStore.Time): State
    requires i < |s.invocations| && s.invocations[i].caller.Named?
  {
    var inv := s.invocations[i];
    var id := inv.caller.id;
    if !s.hasStore then Update(s, i, inv.(caller := GotAccepted(id)))
    else
      var outcome := TaskStore.Create(s.store, NewRecord(id, inv.request), now);
      match outcome.err
      case Some(e) => Update(s, i, inv.(caller := GotStoreError(e), invokeCanceled := true))
      case None => Update(s, i, inv.(caller := Recorded(id))).(store := outcome.contents)
  }

  function Stored(s: State, i: nat, now: TaskStore.Time): State
    requires i < |s.invocations| && s.invocations[i].storer.Holding?
  {
    var inv := s.invocations[i];
    var outcome := StoreResult(s.store, inv.storer.taskID, inv.storer.result, now);
    var done := Finished(inv.storer.taskID, inv.storer.result, outcome.err);
    Update(s, i, inv.(storer := done)).(store := outcome.contents)
  }

  function Apply(s: State, step: Step): State
    requires Enabled(s, step)
  {
    if step.Begin? then
      s.(invocations := s.invocations +
           [Invocation(step.request, Selecting, Running, None, NoStorer, false, false)])
    else
      var i, inv := step.i, s.invocations[step.i];
      match step
      case Begin(_) => s
      case ParentCancels(_) => Update(s, i, inv.(parentCanceled := true))
      case BackendReturns(_, result) => Update(s, i, inv.(backend := Returned(result)))
      case BackendSends(_) => Update(s, i, inv.(backend := Sent(inv.backend.result), slot := Some(inv.backend.result)))
      case BackendExits(_) => Update(s, i, inv.(backend := Exited(inv.backend.result), invokeCanceled := true))
      case SelectResult(_) => Update(s, i, inv.(caller := GotResult(inv.slot.value), slot := None))
      case SelectCancel(_) => Update(s, i, inv.(caller := GotCanceled, invokeCanceled := true))
      case SelectTimer(_) => Update(s, i, inv.(caller := TimerFired))
      case NameTask(_, configured) => WithName(s, i, configured)
      case CreateRecord(_, now) => Created(s, i, now)
      case StartStorer(_) => Update(s, i, inv.(caller := GotAccepted(inv.caller.id), storer := Waiting(inv.caller.id)))
      case StorerReceives(_) => Update(s, i, inv.(storer := Holding(inv.storer.taskID, inv.slot.value), slot := None))
      case StorerWrites(_, now) => Stored(s, i, now)
  }

  // ---------- The invariant ----------

  predicate Committed(inv: Invocation) {
    inv.caller.Recorded? || inv.caller.GotAccepted?
  }

  /** Where the backend's result is. */
  predicate InChannel(inv: Invocation) {
    inv.slot.Some?
  }

  predicate WithCaller(inv: Invocation) {
    inv.caller.GotResult?
  }

  predicate WithStorer(inv: Invocation) {
    inv.storer.Holding? || inv.storer.Finished?
  }

  predicate HasSent(inv: Invocation) {
    inv.backend.Sent? || inv.backend.Exited?
  }

  /** Nothing is anywhere before the send; afterwards the result is in exactly one place. */
  predicate ResultOk(inv: Invocation) {
    if !HasSent(inv) then !InChannel(inv) && !WithCaller(inv) && !WithStorer(inv)
    else
      && (InChannel(inv) ==> inv.slot.value == inv.backend.result && !WithCaller(inv) && !WithStorer(inv))
      && (WithCaller(inv) ==> inv.caller.result == inv.backend.result && !WithStorer(inv))
      && (WithStorer(inv) ==> inv.storer.result == inv.backend.result)
      && (InChannel(inv) || WithCaller(inv) || WithStorer(inv))
  }

  /** The backend's context is canceled exactly for these reasons. */
  predicate ContextOk(inv: Invocation) {
    inv.invokeCanceled <==> inv.backend.Exited? || inv.caller.GotCanceled? || inv.caller.GotStoreError?
  }

  /** The record that a finished storer leaves behind. */
  predicate RecordsResult(rec: TaskStore.Record, result: CallResult) {
    match TaskFailure(result)
    case Some(e) => rec.status == TaskStore.Failed && rec.error == Some(e)
    case None => rec.status == TaskStore.Completed && rec.response == result.resp
  }

  predicate PhasesOk(hasStore: bool, inv: Invocation) {
    && (inv.storer.NoStorer? <==> !(inv.caller.GotAccepted? && hasStore))
    && (!inv.storer.NoStorer? && inv.caller.GotAccepted? ==> inv.storer.taskID == inv.caller.id)
    && (inv.caller.Recorded? ==> hasStore)
    && (inv.caller.GotStoreError? ==> hasStore && inv.caller.err == TaskStore.TaskExists)
  }

  ghost predicate IdOk(id: string) {
    TaskIds.Safe(id) && id != ""
  }

  ghost predicate NameOk(inv: Invocation) {
    && (inv.caller.Named? ==> IdOk(inv.caller.id))
    && (Committed(inv) ==> IdOk(inv.caller.id))
  }

  /** The record of a committed invocation. */
  ghost predicate TaskOk(hasStore: bool, store: TaskStore.Contents, inv: Invocation) {
    Committed(inv) && hasStore ==>
      && inv.caller.id in store
      && var rec := store[inv.caller.id];
         && rec.request == inv.request && rec.requestID == inv.request.id && rec.metadata == Some(HANDOFF)
         && (if inv.storer.Finished? then inv.storer.err.None? && RecordsResult(rec, inv.storer.result)
             else rec.status == TaskStore.Accepted)
  }

  ghost predicate InvocationOk(hasStore: bool, store: TaskStore.Contents, inv: Invocation) {
    ResultOk(inv) && ContextOk(inv) && PhasesOk(hasStore, inv) && NameOk(inv) && TaskOk(hasStore, store, inv)
  }

  /** Invocation `i` owns the record `id`. */
  predicate Owns(s: State, i: nat, id: string) {
    i < |s.invocations| && s.hasStore && Committed(s.invocations[i]) && s.invocations[i].caller.id == id
  }

  ghost predicate OwnershipOk(s: State) {
    && (forall i: nat, j: nat, id | Owns(s, i, id) && Owns(s, j, id) :: i == j)
    && (forall i: nat, id | Owns(s, i, id) :: id !in s.foreign)
    && (forall id | id in s.store && id !in s.foreign :: exists i: nat :: Owns(s, i, id))
  }

  ghost predicate Inv(s: State) {
    && TaskStore.StoreOk(s.store) && s.foreign <= s.store.Keys && s.counter < TaskIds.WRAP
    && (forall i | 0 <= i < |s.invocations| :: InvocationOk(s.hasStore, s.store, s.invocations[i]))
    && OwnershipOk(s)
  }

  ghost predicate Init(s: State) {
    && s.invocations == [] && s.counter < TaskIds.WRAP
    && TaskStore.StoreOk(s.store) && s.foreign == s.store.Keys
  }

  // ---------- Every step keeps the invariant ----------

  /** A step that touches one invocation and not the store. */
  lemma LocalStep(s: State, i: nat, inv: Invocation)
    requires Inv(s) && i < |s.invocations|
    requires InvocationOk(s.hasStore, s.store, inv)
    requires Committed(inv) == Committed(s.invocations[i])
    requires Committed(inv) ==> inv.caller.id == s.invocations[i].caller.id
    ensures Inv(Update(s, i, inv))
  {
    var t := Update(s, i, inv);
    assert forall j: nat, id :: Owns(t, j, id) <==> Owns(s, j, id);
  }

  lemma BeginStep(s: State, request: Backend.Request)
    requires Inv(s)
    ensures Inv(Apply(s, Begin(request)))
  {
    var t := Apply(s, Begin(request));
    assert forall j: nat, id :: Owns(t, j, id) <==> Owns(s, j, id);
  }

  lemma NamedKeeps(s: State, i: nat, id: string, counter: nat)
    requires Inv(s) && i < |s.invocations| && s.invocations[i].caller == TimerFired
    requires IdOk(id) && counter < TaskIds.WRAP
    ensures Inv(Update(s, i, s.invocations[i].(caller := Named(id))).(counter := counter))
  {
    var inv := s.invocations[i];
    assert InvocationOk(s.hasStore, s.store, inv);
    LocalStep(s, i, inv.(caller := Named(id)));
    var t := Update(s, i, inv.(caller := Named(id)));
    assert forall j: nat, k :: Owns(t.(counter := counter), j, k) <==> Owns(t, j, k);
  }

  lemma ChosenIsOk(counter: nat, requestID: string, configured: Option<string>)
    requires counter < TaskIds.WRAP
    ensures var (id, n) := ChooseID(counter, requestID, configured); IdOk(id) && n < TaskIds.WRAP
  {
    IDFunctionDecides(counter, requestID, configured);
  }

  lemma NameStep(s: State, i: nat, configured: Option<string>)
    requires Inv(s) && Enabled(s, NameTask(i, configured))
    ensures Inv(WithName(s, i, configured))
  {
    var (id, counter) := ChooseID(s.counter, s.invocations[i].request.id, configured);
    ChosenIsOk(s.counter, s.invocations[i].request.id, configured);
    NamedKeeps(s, i, id, counter);
  }

  /** Creating a record fails exactly if its ID is in use. */
  lemma CreateFresh(m: TaskStore.Contents, id: string, request: Backend.Request, now: TaskStore.Time)
    requires TaskStore.StoreOk(m) && IdOk(id)
    ensures var o := TaskStore.Create(m, NewRecord(id, request), now);
      && (if id in m then o == TaskStore.Outcome(m, Some(TaskStore.TaskExists))
          else
            && o.err.None? && TaskStore.StoreOk(o.contents) && o.contents == m[id := o.contents[id]]
            && o.contents[id].status == TaskStore.Accepted
            && o.contents[id].request == request && o.contents[id].requestID == request.id
            && o.contents[id].metadata == Some(HANDOFF))
  {
    TaskIds.SafeIsFixed(id);
    TaskStore.PerformKeepsLifeCycle(m, TaskStore.DoCreate(NewRecord(id, request), now));
  }

  lemma CreateStep(s: State, i: nat, now: TaskStore.Time)
    requires Inv(s) && Enabled(s, CreateRecord(i, now))
    ensures Inv(Created(s, i, now))
  {
    var inv := s.invocations[i];
    var id := inv.caller.id;
    assert InvocationOk(s.hasStore, s.store, inv);
    if !s.hasStore {
      var t := Created(s, i, now);
      assert forall j: nat, k :: !Owns(t, j, k) && !Owns(s, j, k);
      assert InvocationOk(t.hasStore, t.store, t.invocations[i]);
    } else {
      CreateFresh(s.store, id, inv.request, now);
      if id in s.store {
        LocalStep(s, i, inv.(caller := GotStoreError(TaskStore.TaskExists), invokeCanceled := true));
      } else {
        CreateNew(s, i, id, TaskStore.Create(s.store, NewRecord(id, inv.request), now).contents[id]);
      }
    }
  }

  /** A new record leaves the invocations that own other records as they are. */
  lemma OthersKeepTheirRecords(s: State, store: TaskStore.Contents, j: nat)
    requires Inv(s) && j < |s.invocations|
    requires forall id | Owns(s, j, id) :: id in store && store[id] == s.store[id]
    ensures InvocationOk(s.hasStore, store, s.invocations[j])
  {
    var inv := s.invocations[j];
    assert InvocationOk(s.hasStore, s.store, inv);
    if s.hasStore && Committed(inv) {
      assert Owns(s, j, inv.caller.id);
    }
  }

  lemma OwnedIsStored(s: State, j: nat, id: string)
    requires Inv(s) && Owns(s, j, id)
    ensures id in s.store
  {
    assert InvocationOk(s.hasStore, s.store, s.invocations[j]);
  }

  /** The state after a record has been filed for invocation `i`. */
  ghost function WithRecord(s: State, i: nat, id: string, rec: TaskStore.Record): State
    requires i < |s.invocations|
  {
    Update(s, i, s.invocations[i].(caller := Recorded(id))).(store := s.store[id := rec])
  }

  /** The owners are those from before, and the invocation itself. */
  lemma NewOwner(s: State, i: nat, id: string, rec: TaskStore.Record)
    requires Inv(s) && s.hasStore && i < |s.invocations| && s.invocations[i].caller == Named(id) && id !in s.store
    ensures forall j: nat, k :: Owns(WithRecord(s, i, id, rec), j, k) <==> Owns(s, j, k) || (j == i && k == id)
    ensures forall j: nat, k | Owns(s, j, k) :: k in s.store && k != id
    ensures OwnershipOk(WithRecord(s, i, id, rec))
  {
    var t := WithRecord(s, i, id, rec);
    forall j: nat, k | Owns(s, j, k) ensures k in s.store && k != id { OwnedIsStored(s, j, k); }
    forall j: nat, k ensures Owns(t, j, k) <==> Owns(s, j, k) || (j == i && k == id) {}
    forall k | k in t.store && k !in t.foreign ensures exists j: nat :: Owns(t, j, k) {
      if k == id {
        assert Owns(t, i, id);
      } else {
        var j: nat :| Owns(s, j, k);
        assert Owns(t, j, k);
      }
    }
  }

  lemma CreateNew(s: State, i: nat, id: string, rec: TaskStore.Record)
    requires Inv(s) && s.hasStore && i < |s.invocations| && s.invocations[i].caller == Named(id)
    requires id !in s.store && TaskStore.StoreOk(s.store[id := rec]) && rec.status == TaskStore.Accepted
    requires rec.request == s.invocations[i].request && rec.requestID == rec.request.id
    requires rec.metadata == Some(HANDOFF)
    ensures Inv(WithRecord(s, i, id, rec))
  {
    var t := WithRecord(s, i, id, rec);
    NewOwner(s, i, id, rec);
    assert InvocationOk(s.hasStore, s.store, s.invocations[i]);
    forall j | 0 <= j < |t.invocations| ensures InvocationOk(t.hasStore, t.store, t.invocations[j]) {
      if j != i { OthersKeepTheirRecords(s, t.store, j); }
    }
  }

  /** Finishing an accepted record succeeds and leaves the result behind. */
  lemma StoreResultSucceeds(m: TaskStore.Contents, id: string, result: CallResult, now: TaskStore.Time)
    requires TaskStore.StoreOk(m) && IdOk(id) && id in m && m[id].status == TaskStore.Accepted
    ensures var o := StoreResult(m, id, result, now);
      && o.err.None? && TaskStore.StoreOk(o.contents) && o.contents == m[id := o.contents[id]]
      && RecordsResult(o.contents[id], result)
      && TaskStore.Evolves(m[id], o.contents[id])
  {
    TaskIds.SafeIsFixed(id);
    match TaskFailure(result)
    case Some(e) => TaskStore.PerformKeepsLifeCycle(m, TaskStore.DoFail(id, e, now));
    case None => TaskStore.PerformKeepsLifeCycle(m, TaskStore.DoComplete(id, result.resp, now));
  }

  lemma WriteStep(s: State, i: nat, now: TaskStore.Time)
    requires Inv(s) && Enabled(s, StorerWrites(i, now))
    ensures Inv(Stored(s, i, now))
  {
    var inv := s.invocations[i];
    assert InvocationOk(s.hasStore, s.store, inv);
    var id := inv.caller.id;
    StoreResultSucceeds(s.store, id, inv.storer.result, now);
    var t := Stored(s, i, now);
    assert Owns(s, i, id);
    forall j: nat, k ensures Owns(t, j, k) <==> Owns(s, j, k) {}
    forall j: nat | j < |t.invocations| && j != i ensures InvocationOk(t.hasStore, t.store, t.invocations[j]) {
      OthersKeepTheirRecords(s, t.store, j);
    }
    assert InvocationOk(t.hasStore, t.store, t.invocations[i]);
  }

  lemma StepKeepsInv(s: State, step: Step)
    requires Inv(s) && Enabled(s, step)
    ensures Inv(Apply(s, step))
  {
    if step.Begin? {
      BeginStep(s, step.request);
    } else {
      var i, inv := step.i, s.invocations[step.i];
      assert InvocationOk(s.hasStore, s.store, inv);
      if step.NameTask? {
        NameStep(s, i, step.configured);
      } else if step.CreateRecord? {
        CreateStep(s, i, step.now);
      } else if step.StorerWrites? {
        WriteStep(s, i, step.now);
      } else {
        LocalStep(s, i, Apply(s, step).invocations[i]);
      }
    }
  }

  // ---------- Runs ----------

  ghost predicate Runs(s: State, steps: seq<Step>)
    decreases |steps|
  {
    steps == [] || (Enabled(s, steps[0]) && Runs(Apply(s, steps[0]), steps[1..]))
  }

  ghost function Final(s: State, steps: seq<Step>): State
    requires Runs(s, steps)
    decreases |steps|
  {
    if steps == [] then s else Final(Apply(s, steps[0]), steps[1..])
  }

  lemma {:induction false} RunKeepsInv(s: State, steps: seq<Step>)
    requires Inv(s) && Runs(s, steps)
    ensures Inv(Final(s, steps))
    decreases |steps|
  {
    if steps != [] {
      StepKeepsInv(s, steps[0]);
      RunKeepsInv(Apply(s, steps[0]), steps[1..]);
    }
  }

  /** `s` is the outcome of some run from some initial state. */
  ghost predicate Reachable(s: State) {
    exists start, steps :: Init(start) && Runs(start, steps) && Final(start, steps) == s
  }

  lemma ReachableInv(s: State)
    requires Reachable(s)
    ensures Inv(s)
  {
    var start, steps :| Init(start) && Runs(start, steps) && Final(start, steps) == s;
    RunKeepsInv(start, steps);
  }

  // ---------- Records and their owners ----------

  /** The invocation whose storer still has to finish the record. */
  predicate Pending(s: State, i: nat, id: string) {
    Owns(s, i, id) && !s.invocations[i].storer.Finished?
  }

  /**
   In every interleaving, a dispatcher-created record that is still accepted has exactly one
   unfinished owner, a finished one has none, and no storer ever met a store error.
   */
  lemma AcceptedRecordsHaveOneOwner(s: State)
    requires Reachable(s)
    ensures forall id | id in s.store && id !in s.foreign ::
              s.store[id].status == TaskStore.Accepted <==> exists i: nat :: Pending(s, i, id)
    ensures forall i: nat, j: nat, id | Pending(s, i, id) && Pending(s, j, id) :: i == j
    ensures forall i | 0 <= i < |s.invocations| && s.invocations[i].storer.Finished? ::
              s.invocations[i].storer.err.None?
  {
    ReachableInv(s);
    forall id | id in s.store && id !in s.foreign
      ensures s.store[id].status == TaskStore.Accepted <==> exists i: nat :: Pending(s, i, id)
    {
      var i: nat :| Owns(s, i, id);
      assert InvocationOk(s.hasStore, s.store, s.invocations[i]);
      assert s.store[id].status == TaskStore.Accepted <==> Pending(s, i, id);
      assert forall j: nat | Pending(s, j, id) :: j == i;
    }
    forall i | 0 <= i < |s.invocations| && s.invocations[i].storer.Finished?
      ensures s.invocations[i].storer.err.None?
    {
      assert InvocationOk(s.hasStore, s.store, s.invocations[i]);
    }
  }

  // ---------- Conservation of results ----------

  /** Someone is still going to take the result out of the channel. */
  predicate ReceiverAlive(inv: Invocation) {
    || inv.caller.Selecting? || inv.caller.TimerFired? || inv.caller.Named? || inv.caller.Recorded?
    || inv.storer.Waiting?
  }

  /** The reasons for which a result may be left in the channel for good. */
  predicate Abandoned(hasStore: bool, inv: Invocation) {
    inv.caller.GotCanceled? || inv.caller.GotStoreError? || (inv.caller.GotAccepted? && !hasStore)
  }

  /**
   The result of a started backend call is in exactly one place: on its way, in the channel, with
   the caller, or with the storer. It stays in the channel only while a receiver is alive or for
   one of three reasons, the receiver's step is then possible, and sending never blocks.
   */
  lemma ResultsAreConserved(s: State, i: nat)
    requires Reachable(s) && i < |s.invocations|
    ensures var inv := s.invocations[i];
      && (InChannel(inv) || WithCaller(inv) || WithStorer(inv) <==> HasSent(inv))
      && !(InChannel(inv) && WithCaller(inv)) && !(InChannel(inv) && WithStorer(inv))
      && !(WithCaller(inv) && WithStorer(inv))
      && (InChannel(inv) ==> inv.slot.value == inv.backend.result)
      && (WithCaller(inv) ==> inv.caller.result == inv.backend.result)
      && (WithStorer(inv) ==> inv.storer.result == inv.backend.result)
      && (InChannel(inv) ==> ReceiverAlive(inv) != Abandoned(s.hasStore, inv))
      && (inv.backend.Returned? ==> Enabled(s, BackendSends(i)))
      && (HasSent(inv) && inv.storer.Waiting? ==> Enabled(s, StorerReceives(i)))
  {
    ReachableInv(s);
    assert InvocationOk(s.hasStore, s.store, s.invocations[i]);
  }

  // ---------- Nothing gets stuck ----------

  /** Only new invocations and cancellations by callers are possible. */
  ghost predicate Quiescent(s: State) {
    forall step :: Enabled(s, step) ==> step.Begin? || step.ParentCancels?
  }

  /** The caller has its answer. */
  predicate HasReturned(inv: Invocation) {
    inv.caller.GotResult? || inv.caller.GotCanceled? || inv.caller.GotStoreError? || inv.caller.GotAccepted?
  }

  /** Nothing is left to do for an invocation: answered, returned, and what is owed to the store is written. */
  predicate Done(inv: Invocation) {
    && HasReturned(inv)
    && inv.backend.Exited? && (inv.storer.NoStorer? || inv.storer.Finished?)
  }

  lemma QuiescentCallerIsAnswered(s: State, i: nat)
    requires Quiescent(s) && i < |s.invocations|
    ensures HasReturned(s.invocations[i])
  {
    assert !Enabled(s, SelectTimer(i)) && !Enabled(s, NameTask(i, None)) && !Enabled(s, StartStorer(i));
    assert !Enabled(s, CreateRecord(i, TaskStore.ZERO_TIME));
  }

  lemma QuiescentBackendHasExited(s: State, i: nat)
    requires Inv(s) && Quiescent(s) && i < |s.invocations|
    ensures s.invocations[i].backend.Exited?
  {
    assert ResultOk(s.invocations[i]) by { assert InvocationOk(s.hasStore, s.store, s.invocations[i]); }
    assert !Enabled(s, BackendReturns(i, CallResult(None, None)));
    assert !Enabled(s, BackendSends(i)) && !Enabled(s, BackendExits(i));
  }

  lemma QuiescentInvocationIsDone(s: State, i: nat)
    requires Inv(s) && Quiescent(s) && i < |s.invocations|
    ensures Done(s.invocations[i])
  {
    QuiescentCallerIsAnswered(s, i);
    QuiescentBackendHasExited(s, i);
    assert ResultOk(s.invocations[i]) && PhasesOk(s.hasStore, s.invocations[i]) by {
      assert InvocationOk(s.hasStore, s.store, s.invocations[i]);
    }
    assert !Enabled(s, StorerWrites(i, TaskStore.ZERO_TIME)) && !Enabled(s, StorerReceives(i));
  }

  /**
   No deadlock: in a reachable state in which nothing but new invocations and cancellations can happen,
   every caller has its answer, every backend goroutine has exited, and no dispatcher-created record is
   still accepted.
   */
  lemma QuiescentMeansDone(s: State)
    requires Reachable(s) && Quiescent(s)
    ensures forall i | 0 <= i < |s.invocations| :: Done(s.invocations[i])
    ensures forall id | id in s.store && id !in s.foreign :: TaskStore.Terminal(s.store[id])
  {
    ReachableInv(s);
    forall i | 0 <= i < |s.invocations| ensures Done(s.invocations[i]) { QuiescentInvocationIsDone(s, i); }
    AcceptedRecordsHaveOneOwner(s);
    forall id | id in s.store && id !in s.foreign ensures TaskStore.Terminal(s.store[id]) {
      assert TaskStore.RecordOk(id, s.store[id]);
      forall i: nat | i < |s.invocations| ensures !Pending(s, i, id) { DoneOwesNothing(s, i, id); }
    }
  }

  lemma DoneOwesNothing(s: State, i: nat, id: string)
    requires Inv(s) && i < |s.invocations| && Done(s.invocations[i])
    ensures !Pending(s, i, id)
  {
    assert InvocationOk(s.hasStore, s.store, s.invocations[i]);
  }

  /** How many steps an invocation still has before it at most, cancellations by its caller apart. */
  function Ahead(inv: Invocation): nat {
    (match inv.caller
     case Selecting => 6
     case TimerFired => 5
     case Named(_) => 4
     case Recorded(_) => 3
     case _ => 0)
    + (match inv.backend
       case Running => 3
       case Returned(_) => 2
       case Sent(_) => 1
       case Exited(_) => 0)
    + (match inv.storer
       case Waiting(_) => 2
       case Holding(_, _) => 1
       case _ => 0)
  }

  function AllAhead(invs: seq<Invocation>): nat {
    if invs == [] then 0 else Ahead(invs[0]) + AllAhead(invs[1..])
  }

  lemma {:induction false} AllAheadUpdate(invs: seq<Invocation>, i: nat, inv: Invocation)
    requires i < |invs|
    ensures AllAhead(invs[i := inv]) == AllAhead(invs) - Ahead(invs[i]) + Ahead(inv)
  {
    if i == 0 {
      assert invs[i := inv][1..] == invs[1..];
    } else {
      assert invs[i := inv][1..] == invs[1..][i - 1 := inv];
      AllAheadUpdate(invs[1..], i - 1, inv);
    }
  }

  lemma {:induction false} AllAheadAppend(invs: seq<Invocation>, inv: Invocation)
    ensures AllAhead(invs + [inv]) == AllAhead(invs) + Ahead(inv)
  {
    if invs == [] {
      assert invs + [inv] == [inv] && [inv][1..] == [];
    } else {
      assert (invs + [inv])[1..] == invs[1..] + [inv];
      AllAheadAppend(invs[1..], inv);
    }
  }

  ghost function Begins(steps: seq<Step>): nat {
    if steps == [] then 0 else (if steps[0].Begin? then 1 else 0) + Begins(steps[1..])
  }

  /** The steps of a run that goroutines of the dispatcher take, callers' cancellations and new calls apart. */
  ghost function InnerSteps(steps: seq<Step>): nat {
    if steps == [] then 0
    else (if steps[0].Begin? || steps[0].ParentCancels? then 0 else 1) + InnerSteps(steps[1..])
  }

  /** Any step but a new call touches one invocation, and uses up one of its steps unless its caller cancels. */
  lemma StepUsesUpOne(s: State, step: Step)
    requires Enabled(s, step) && !step.Begin?
    ensures var t := Apply(s, step);
      && |t.invocations| == |s.invocations| && t.invocations == s.invocations[step.i := t.invocations[step.i]]
      && if step.ParentCancels? then Ahead(t.invocations[step.i]) == Ahead(s.invocations[step.i])
         else Ahead(t.invocations[step.i]) < Ahead(s.invocations[step.i])
  {
  }

  lemma StepUsesUp(s: State, step: Step)
    requires Enabled(s, step)
    ensures var before, after := AllAhead(s.invocations), AllAhead(Apply(s, step).invocations);
      if step.Begin? then after == before + 9
      else if step.ParentCancels? then after == before else after < before
  {
    var t := Apply(s, step);
    if step.Begin? {
      AllAheadAppend(s.invocations, t.invocations[|s.invocations|]);
    } else {
      StepUsesUpOne(s, step);
      AllAheadUpdate(s.invocations, step.i, t.invocations[step.i]);
    }
  }

  /** No livelock: a run takes at most nine inner steps for each of its invocations. */
  lemma {:induction false} InnerStepsAreBounded(s: State, steps: seq<Step>)
    requires Runs(s, steps)
    ensures InnerSteps(steps) <= AllAhead(s.invocations) + 9 * Begins(steps)
    decreases |steps|
  {
    if steps != [] {
      StepUsesUp(s, steps[0]);
      InnerStepsAreBounded(Apply(s, steps[0]), steps[1..]);
    }
  }

  // ---------- Contexts and writes ----------

  /**
   While the backend call runs, its context is canceled exactly if the caller has been canceled in
   time or the task could not be recorded; so never after an accepted fallback, whatever the
   caller's own context does.
   */
  lemma DetachedContextStaysAlive(s: State, i: nat)
    requires Reachable(s) && i < |s.invocations|
    ensures var inv := s.invocations[i];
      !inv.backend.Exited? ==> (inv.invokeCanceled <==> inv.caller.GotCanceled? || inv.caller.GotStoreError?)
    ensures var inv := s.invocations[i];
      (inv.caller.TimerFired? || inv.caller.Named? || Committed(inv)) && !inv.backend.Exited? ==> !inv.invokeCanceled
  {
    ReachableInv(s);
    assert InvocationOk(s.hasStore, s.store, s.invocations[i]);
  }

  /** The step is a store call of invocation `i`. */
  predicate WritesFor(step: Step, i: nat) {
    (step.CreateRecord? || step.StorerWrites?) && step.i == i
  }

  /** A step changes the store only as a store call, and then only the record of its own invocation. */
  lemma StoreChangesOnlyByOwner(s: State, step: Step)
    requires Inv(s) && Enabled(s, step) && Apply(s, step).store != s.store
    ensures !step.Begin? && WritesFor(step, step.i)
    ensures Committed(Apply(s, step).invocations[step.i])
    ensures var id := Apply(s, step).invocations[step.i].caller.id;
      Apply(s, step).store == s.store[id := Apply(s, step).store[id]]
  {
    var i, inv := step.i, s.invocations[step.i];
    assert InvocationOk(s.hasStore, s.store, inv);
    if step.CreateRecord? {
      CreateFresh(s.store, inv.caller.id, inv.request, step.now);
    } else {
      StoreResultSucceeds(s.store, inv.caller.id, inv.storer.result, step.now);
    }
  }

  /** Invocation `i` has left the race by the timer branch and made its store call. */
  predicate PastCreate(s: State, i: nat) {
    i < |s.invocations| && (Committed(s.invocations[i]) || s.invocations[i].caller.GotStoreError?)
  }

  lemma {:induction false} PastCreateStays(s: State, steps: seq<Step>, i: nat)
    requires Runs(s, steps) && PastCreate(s, i)
    ensures PastCreate(Final(s, steps), i)
    decreases |steps|
  {
    if steps != [] {
      assert PastCreate(Apply(s, steps[0]), i);
      PastCreateStays(Apply(s, steps[0]), steps[1..], i);
    }
  }

  /** An invocation that returned a fast result or was canceled never made a store call in the whole run. */
  lemma {:induction false} FastOrCanceledNeverWrites(s: State, steps: seq<Step>, i: nat, k: nat)
    requires Inv(s) && Runs(s, steps) && i < |Final(s, steps).invocations| && k < |steps|
    requires Final(s, steps).invocations[i].caller.GotResult? || Final(s, steps).invocations[i].caller.GotCanceled?
    ensures !WritesFor(steps[k], i)
    decreases |steps|
  {
    StepKeepsInv(s, steps[0]);
    if k > 0 {
      FastOrCanceledNeverWrites(Apply(s, steps[0]), steps[1..], i, k - 1);
    } else if WritesFor(steps[0], i) {
      assert InvocationOk(s.hasStore, s.store, s.invocations[i]);
      PastCreateStays(Apply(s, steps[0]), steps[1..], i);
    }
  }

  // ---------- What an accepted caller can rely on ----------

  /**
   The ID of an accepted response is non-empty, fixed by normalisation and by trimming, and comes
   back unchanged from the task path; looking it up finds this invocation's own record, accepted or
   finished with this invocation's own result.
   */
  lemma AcceptedIDLeadsToOwnTask(s: State, i: nat)
    requires Reachable(s) && i < |s.invocations| && s.invocations[i].caller.GotAccepted?
    ensures var inv := s.invocations[i]; var id := inv.caller.id;
      && id != "" && TaskIds.Normalize(id) == id && TrimSpace(id) == id
      && TaskIds.TaskIDFromPath(TaskIds.TASK_PREFIX + id) == Some(id)
      && (s.hasStore ==>
            && TaskStore.Get(s.store, id).Some?
            && var rec := TaskStore.Get(s.store, id).value;
               && rec.taskID == id && rec.requestID == inv.request.id && rec.request == inv.request
               && rec.metadata == Some(map["accepted_by" := "dispatcher", "reason" := "quick_timeout"])
               && (rec.status == TaskStore.Accepted
                   || (HasSent(inv) && RecordsResult(rec, inv.backend.result))))
  {
    ReachableInv(s);
    var inv := s.invocations[i];
    assert InvocationOk(s.hasStore, s.store, inv);
    TaskIds.SafeIsFixed(inv.caller.id);
    TaskIds.PathRoundTrip(TaskIds.TASK_PREFIX + inv.caller.id, inv.caller.id);
  }

  /** The causes that are told apart, in the order in which they are looked for. */
  const CAUSES := [Backend.ContextCanceled, Backend.DeadlineExceeded, Backend.InvalidRequest, Backend.Unauthorized,
                   Backend.Temporary, Backend.InvocationFailed]

  /** Position of the first of the causes from `k` on that the error wraps, or their number. */
  function FirstCause(e: Backend.Error, k: nat): (n: nat)
    requires k <= |CAUSES|
    ensures k <= n <= |CAUSES| && (n < |CAUSES| ==> CAUSES[n] in e.wraps)
    ensures forall j | k <= j < n :: CAUSES[j] !in e.wraps
    decreases |CAUSES| - k
  {
    if k == |CAUSES| || CAUSES[k] in e.wraps then k else FirstCause(e, k + 1)
  }

  /** What is stored for each cause, and at the end for an error with none of them. */
  const STORED := [
    TaskStore.TaskError("context_canceled", "backend invocation canceled"),
    TaskStore.TaskError("context_deadline_exceeded", "backend invocation deadline exceeded"),
    TaskStore.TaskError("backend_invalid_request", "backend request is invalid"),
    TaskStore.TaskError("backend_unauthorized", "backend unauthorized"),
    TaskStore.TaskError("backend_temporary", "backend temporarily unavailable"),
    TaskStore.TaskError("backend_invocation_failed", "backend invocation failed"),
    TaskStore.TaskError("backend_error", "backend failed")]

  lemma FirstCauseIsStored(e: Backend.Error)
    ensures SafeTaskError(e) == STORED[FirstCause(e, 0)]
  {
    assert CAUSES[0] == Backend.ContextCanceled && CAUSES[1] == Backend.DeadlineExceeded;
    assert CAUSES[2] == Backend.InvalidRequest && CAUSES[3] == Backend.Unauthorized;
    assert CAUSES[4] == Backend.Temporary && CAUSES[5] == Backend.InvocationFailed;
  }

  lemma StoredErrorsDiffer(m: nat, n: nat)
    requires m < n < |STORED|
    ensures STORED[m] != STORED[n]
  {
    assert STORED[1].code[0] == 'c' && STORED[5].code[0] == 'b';
    assert |STORED[m].code| == |STORED[n].code| ==> m == 1 && n == 5;
  }

  /** What is stored about an error tells its first cause and nothing else; its text never gets out. */
  lemma StoredErrorTellsFirstCause(e: Backend.Error, f: Backend.Error)
    ensures SafeTaskError(e) == SafeTaskError(f) <==> FirstCause(e, 0) == FirstCause(f, 0)
    ensures SafeTaskError(e).code != "" && SafeTaskError(e).message != ""
  {
    var m, n := FirstCause(e, 0), FirstCause(f, 0);
    FirstCauseIsStored(e);
    FirstCauseIsStored(f);
    if m < n { StoredErrorsDiffer(m, n); } else if n < m { StoredErrorsDiffer(n, m); }
  }

  /**
   The ID function decides, and leaves the counter alone, unless none is configured or its answer is
   blank; then the counter moves on by one, whichever of the two calls of defaultTaskID it is, and
   ends the ID. Either way the ID is non-empty and path-safe.
   */
  lemma IDFunctionDecides(counter: nat, requestID: string, configured: Option<string>)
    ensures var n := TaskIds.Bump(counter);
      ChooseID(counter, requestID, configured)
      == if NamesByDefault(configured) then (TaskIds.DefaultTaskID(requestID, n), n)
         else (TaskIds.Normalize(configured.value), counter)
    ensures TaskIds.AfterDash(TaskIds.DefaultTaskID(requestID, TaskIds.Bump(counter)))
         == TaskIds.Decimal.Print(TaskIds.Bump(counter))
    ensures IdOk(ChooseID(counter, requestID, configured).0)
  {
    var id := TaskIds.DefaultTaskID(requestID, TaskIds.Bump(counter));
    TaskIds.DefaultIsSafe(requestID, TaskIds.Bump(counter));
    TaskIds.SafeIsFixed(id);
    TaskIds.DefaultEndsInCounter(requestID, TaskIds.Bump(counter));
    if configured.Some? { TaskIds.NormalizeIsSafe(configured.value); }
  }

  // ---------- What never changes about an invocation ----------

  /** The request stays, an accepted answer stays, and so does what the backend returned. */
  predicate Continues(before: Invocation, after: Invocation) {
    && after.request == before.request
    && (before.caller.GotAccepted? ==> after.caller == before.caller)
    && (!before.backend.Running? ==> !after.backend.Running? && after.backend.result == before.backend.result)
  }

  ghost predicate AllContinue(s: State, t: State) {
    && |s.invocations| <= |t.invocations|
    && forall i | 0 <= i < |s.invocations| :: Continues(s.invocations[i], t.invocations[i])
  }

  lemma StepContinues(s: State, step: Step)
    requires Enabled(s, step)
    ensures AllContinue(s, Apply(s, step))
  {
  }

  lemma OnlyReturnsEndRunning(s: State, step: Step, i: nat)
    requires Enabled(s, step) && !step.BackendReturns? && i < |Apply(s, step).invocations|
    requires i < |s.invocations| ==> s.invocations[i].backend.Running?
    ensures Apply(s, step).invocations[i].backend.Running?
  {
  }

  // ---------- The store over runs ----------

  lemma StepEvolvesStore(s: State, step: Step)
    requires Inv(s) && Enabled(s, step)
    ensures TaskStore.Later(s.store, Apply(s, step).store)
  {
    if !step.Begin? {
      var inv := s.invocations[step.i];
      assert InvocationOk(s.hasStore, s.store, inv);
      if step.CreateRecord? {
        CreateFresh(s.store, inv.caller.id, inv.request, step.now);
      } else if step.StorerWrites? {
        StoreResultSucceeds(s.store, inv.caller.id, inv.storer.result, step.now);
      }
    }
  }

  /** Over every run no record is lost, and a terminal record never changes again. */
  lemma {:induction false} RunEvolvesStore(s: State, steps: seq<Step>)
    requires Inv(s) && Runs(s, steps)
    ensures TaskStore.Later(s.store, Final(s, steps).store)
    ensures forall id | id in s.store && TaskStore.Terminal(s.store[id]) :: Final(s, steps).store[id] == s.store[id]
    decreases |steps|
  {
    if steps != [] {
      StepKeepsInv(s, steps[0]);
      StepEvolvesStore(s, steps[0]);
      RunEvolvesStore(Apply(s, steps[0]), steps[1..]);
    }
  }

  // ---------- Default IDs over runs ----------

  /** The step names a task by default. */
  predicate FallsBackToDefault(step: Step) {
    step.NameTask? && NamesByDefault(step.configured)
  }

  ghost function Fallbacks(steps: seq<Step>): nat {
    if steps == [] then 0 else (if FallsBackToDefault(steps[0]) then 1 else 0) + Fallbacks(steps[1..])
  }

  lemma StepMovesCounter(s: State, step: Step)
    requires Enabled(s, step)
    ensures Apply(s, step).counter == if FallsBackToDefault(step) then TaskIds.Bump(s.counter) else s.counter
  {
    if step.NameTask? {
      IDFunctionDecides(s.counter, s.invocations[step.i].request.id, step.configured);
    }
  }

  lemma {:induction false} CounterIsBumped(s: State, steps: seq<Step>)
    requires Runs(s, steps)
    ensures Final(s, steps).counter == TaskIds.Bumped(s.counter, Fallbacks(steps))
    decreases |steps|
  {
    if steps != [] {
      StepMovesCounter(s, steps[0]);
      CounterIsBumped(Apply(s, steps[0]), steps[1..]);
      TaskIds.BumpedFirst(s.counter, Fallbacks(steps[1..]));
    }
  }

  /** After a run the counter has moved by the number of default names given, modulo 2^64. */
  lemma CounterCountsFallbacks(s: State, steps: seq<Step>)
    requires Runs(s, steps) && s.counter < TaskIds.WRAP
    ensures Final(s, steps).counter == (s.counter + Fallbacks(steps)) % TaskIds.WRAP
  {
    CounterIsBumped(s, steps);
    TaskIds.BumpedIs(s.counter, Fallbacks(steps));
  }

  /**
   Two default IDs given in one run are different, whatever the request IDs are, as long as fewer
   than 2^64 default IDs are given from the first to the second.
   */
  lemma DefaultIdsOfRunDiffer(s: State, i: nat, first: Option<string>, middle: seq<Step>,
                              j: nat, second: Option<string>)
    requires s.counter < TaskIds.WRAP && Enabled(s, NameTask(i, first)) && FallsBackToDefault(NameTask(i, first))
    requires var t := Apply(s, NameTask(i, first));
      Runs(t, middle) && Enabled(Final(t, middle), NameTask(j, second)) && FallsBackToDefault(NameTask(j, second))
    requires Fallbacks(middle) + 1 < TaskIds.WRAP
    ensures var t := Apply(s, NameTask(i, first)); var u := Apply(Final(t, middle), NameTask(j, second));
      t.invocations[i].caller.id != u.invocations[j].caller.id
  {
    var t := Apply(s, NameTask(i, first));
    var v := Final(t, middle);
    NamedByDefault(s, i, first);
    NamedByDefault(v, j, second);
    NextDefaultDiffers(t, middle);
    TaskIds.DefaultIdsDiffer(s.invocations[i].request.id, v.invocations[j].request.id,
                             t.counter, TaskIds.Bump(v.counter));
  }

  lemma NamedByDefault(s: State, i: nat, configured: Option<string>)
    requires Enabled(s, NameTask(i, configured)) && FallsBackToDefault(NameTask(i, configured))
    ensures var n := TaskIds.Bump(s.counter); var t := Apply(s, NameTask(i, configured));
      && t.counter == n < TaskIds.WRAP
      && t.invocations[i].caller == Named(TaskIds.DefaultTaskID(s.invocations[i].request.id, n))
  {
    IDFunctionDecides(s.counter, s.invocations[i].request.id, configured);
  }

  lemma NextDefaultDiffers(t: State, middle: seq<Step>)
    requires t.counter < TaskIds.WRAP && Runs(t, middle) && Fallbacks(middle) + 1 < TaskIds.WRAP
    ensures Final(t, middle).counter < TaskIds.WRAP && TaskIds.Bump(Final(t, middle).counter) != t.counter
  {
    CounterCountsFallbacks(t, middle);
    CounterMoved(t.counter, Fallbacks(middle));
  }

  lemma CounterMoved(counter: nat, n: nat)
    requires counter < TaskIds.WRAP && n + 1 < TaskIds.WRAP
    ensures TaskIds.Bump((counter + n) % TaskIds.WRAP) != counter
  {
  }
}
