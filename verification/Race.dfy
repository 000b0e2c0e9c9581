/**
 What each branch of Invoke may do and has to do: the race between result, cancellation and timer,
 the way from the timer to the answer, and the goroutines of the backend call and of the storer.
 */
module Race {
  import opened Wrappers
  import opened Dispatch
  import Backend
  import TaskIds
  import TaskStore

  predicate CallerIs(s: State, i: nat, caller: CallerPhase) {
    i < |s.invocations| && s.invocations[i].caller == caller
  }

  // ---------- Cancellation by the caller ----------

  lemma {:induction false} CancellationStays(s: State, steps: seq<Step>, i: nat)
    requires Runs(s, steps) && i < |s.invocations| && s.invocations[i].parentCanceled
    ensures i < |Final(s, steps).invocations| && Final(s, steps).invocations[i].parentCanceled
    decreases |steps|
  {
    if steps != [] {
      CancellationStays(Apply(s, steps[0]), steps[1..], i);
    }
  }

  lemma {:induction false} CancellationTakesHold(s: State, steps: seq<Step>, i: nat, k: nat)
    requires Runs(s, steps) && k < |steps| && steps[k] == ParentCancels(i)
    ensures i < |Final(s, steps).invocations| && Final(s, steps).invocations[i].parentCanceled
    decreases |steps|
  {
    if k == 0 {
      CancellationStays(Apply(s, steps[0]), steps[1..], i);
    } else {
      CancellationTakesHold(Apply(s, steps[0]), steps[1..], i, k - 1);
    }
  }

  predicate Canceled(s: State, i: nat) {
    i < |s.invocations| && s.invocations[i].parentCanceled
  }

  lemma {:induction false} CancellationHasCause(s: State, steps: seq<Step>, i: nat) returns (k: nat)
    requires Runs(s, steps) && !Canceled(s, i) && Canceled(Final(s, steps), i)
    ensures k < |steps| && steps[k] == ParentCancels(i)
    decreases |steps|
  {
    if steps[0] == ParentCancels(i) {
      k := 0;
    } else {
      k := CancellationHasCause(Apply(s, steps[0]), steps[1..], i);
      k := k + 1;
    }
  }

  lemma {:induction false} GotCanceledIsCanceled(s: State, steps: seq<Step>, i: nat)
    requires Runs(s, steps) && (CallerIs(s, i, GotCanceled) ==> Canceled(s, i))
    ensures CallerIs(Final(s, steps), i, GotCanceled) ==> Canceled(Final(s, steps), i)
    decreases |steps|
  {
    if steps != [] {
      GotCanceledIsCanceled(Apply(s, steps[0]), steps[1..], i);
    }
  }

  /**
   A caller whose context was canceled at any point of the run and that still waits in the race may
   leave it by that branch; it then has the answer of a canceled call, and the backend's context is
   canceled as well.
   */
  lemma CanceledCallerMayLeave(s: State, steps: seq<Step>, i: nat, k: nat)
    requires Runs(s, steps) && k < |steps| && steps[k] == ParentCancels(i)
    requires CallerIs(Final(s, steps), i, Selecting)
    ensures var t := Final(s, steps);
      && Enabled(t, SelectCancel(i))
      && Apply(t, SelectCancel(i)).invocations[i].caller == GotCanceled
      && Apply(t, SelectCancel(i)).invocations[i].invokeCanceled
  {
    CancellationTakesHold(s, steps, i, k);
  }

  /** A call never ends as canceled, nor may it, unless its own caller canceled it before. */
  lemma OnlyCallersCancel(start: State, steps: seq<Step>, i: nat) returns (k: nat)
    requires Init(start) && Runs(start, steps)
    requires CallerIs(Final(start, steps), i, GotCanceled) || Enabled(Final(start, steps), SelectCancel(i))
    ensures k < |steps| && steps[k] == ParentCancels(i)
  {
    GotCanceledIsCanceled(start, steps, i);
    k := CancellationHasCause(start, steps, i);
  }

  // ---------- The race ----------

  /** A new call starts out in the race, with its backend running on a context that is not canceled. */
  lemma CallsStartInTheRace(s: State, request: Backend.Request)
    ensures Enabled(s, Begin(request))
    ensures var t, n := Apply(s, Begin(request)), |s.invocations|;
      && |t.invocations| == n + 1 && (forall i | 0 <= i < n :: t.invocations[i] == s.invocations[i])
      && t.invocations[n].request == request && t.invocations[n].caller == Selecting
      && t.invocations[n].backend == Running && t.invocations[n].slot == None && t.invocations[n].storer == NoStorer
      && !t.invocations[n].invokeCanceled && t.store == s.store && t.counter == s.counter
  {
  }

  /** The timer may always win; the result may win exactly once it has been sent, and is handed over unchanged. */
  lemma RaceIsOpen(s: State, i: nat)
    requires Reachable(s) && CallerIs(s, i, Selecting)
    ensures Enabled(s, SelectTimer(i)) && CallerIs(Apply(s, SelectTimer(i)), i, TimerFired)
    ensures Enabled(s, SelectResult(i)) <==> HasSent(s.invocations[i])
    ensures HasSent(s.invocations[i]) ==>
              && CallerIs(Apply(s, SelectResult(i)), i, GotResult(s.invocations[i].backend.result))
              && Apply(s, SelectResult(i)).store == s.store
  {
    ReachableInv(s);
    assert InvocationOk(s.hasStore, s.store, s.invocations[i]);
  }

  /** A running backend call may return anything; it then sends that and exits, canceling its context, unhindered. */
  lemma BackendMayFinish(s: State, i: nat, result: CallResult)
    requires Reachable(s) && i < |s.invocations| && s.invocations[i].backend == Running
    ensures Enabled(s, BackendReturns(i, result))
    ensures var s1 := Apply(s, BackendReturns(i, result));
      && Enabled(s1, BackendSends(i))
      && var s2 := Apply(s1, BackendSends(i));
         && Enabled(s2, BackendExits(i)) && s2.invocations[i].slot == Some(result)
         && var s3 := Apply(s2, BackendExits(i));
            s3.invocations[i].backend == Exited(result) && s3.invocations[i].invokeCanceled && s3.store == s.store
  {
    ReachableInv(s);
    assert InvocationOk(s.hasStore, s.store, s.invocations[i]);
  }

  // ---------- From the timer to the answer ----------

  /** The ID that the dispatcher settles on, spelt out. */
  ghost function NameOf(s: State, i: nat, configured: Option<string>): string
    requires i < |s.invocations|
  {
    if configured.Some? && TaskIds.Normalize(configured.value) != "" then TaskIds.Normalize(configured.value)
    else TaskIds.DefaultTaskID(s.invocations[i].request.id, TaskIds.Bump(s.counter))
  }

  lemma TimerNames(s: State, i: nat, configured: Option<string>)
    requires Inv(s) && CallerIs(s, i, TimerFired)
    ensures Enabled(s, NameTask(i, configured))
    ensures var t := Apply(s, NameTask(i, configured));
      CallerIs(t, i, Named(NameOf(s, i, configured))) && t.store == s.store && t.hasStore == s.hasStore
      && t.invocations[i].request == s.invocations[i].request
  {
    IDFunctionDecides(s.counter, s.invocations[i].request.id, configured);
    if configured.Some? { TaskIds.NormalizeIsSafe(configured.value); }
  }

  /** With the name at hand: a fresh one is accepted and filed, a taken one is refused and cancels the backend. */
  lemma NameDecides(s: State, i: nat, id: string, now: TaskStore.Time)
    requires Inv(s) && CallerIs(s, i, Named(id)) && now != TaskStore.ZERO_TIME
    ensures Enabled(s, CreateRecord(i, now))
    ensures var t := Apply(s, CreateRecord(i, now));
      if !s.hasStore then CallerIs(t, i, GotAccepted(id)) && t.store == s.store
      else if id in s.store then
        CallerIs(t, i, GotStoreError(TaskStore.TaskExists)) && t.invocations[i].invokeCanceled && t.store == s.store
      else
        && CallerIs(t, i, Recorded(id)) && Enabled(t, StartStorer(i))
        && var u := Apply(t, StartStorer(i));
           && CallerIs(u, i, GotAccepted(id)) && u.invocations[i].storer == Waiting(id) && u.store == t.store
           && id in t.store && t.store == s.store[id := t.store[id]]
           && t.store[id] == TaskStore.Record(
                id, s.invocations[i].request.id, TaskStore.Accepted, s.invocations[i].request, None, None,
                now, now, None,
                Some(map["accepted_by" := "dispatcher", "reason" := "quick_timeout"]))
  {
    assert InvocationOk(s.hasStore, s.store, s.invocations[i]);
    CreateFresh(s.store, id, s.invocations[i].request, now);
    TaskIds.SafeIsFixed(id);
  }

  /**
   Once the timer has fired, the caller is answered with the chosen ID, accepted, exactly if no store is
   configured or that ID is free in it; otherwise with the error that the task exists.
   */
  lemma TimerBranch(s: State, i: nat, configured: Option<string>, now: TaskStore.Time)
    requires Reachable(s) && CallerIs(s, i, TimerFired) && now != TaskStore.ZERO_TIME
    ensures Enabled(s, NameTask(i, configured))
    ensures var id, s1 := NameOf(s, i, configured), Apply(s, NameTask(i, configured));
      && Enabled(s1, CreateRecord(i, now))
      && var s2 := Apply(s1, CreateRecord(i, now));
         if s.hasStore && id in s.store then CallerIs(s2, i, GotStoreError(TaskStore.TaskExists)) && s2.store == s.store
         else if s.hasStore then Enabled(s2, StartStorer(i)) && CallerIs(Apply(s2, StartStorer(i)), i, GotAccepted(id))
         else CallerIs(s2, i, GotAccepted(id))
  {
    ReachableInv(s);
    TimerNames(s, i, configured);
    StepKeepsInv(s, NameTask(i, configured));
    NameDecides(Apply(s, NameTask(i, configured)), i, NameOf(s, i, configured), now);
  }

  // ---------- The storer ----------

  /** What a result leaves in an accepted record. */
  ghost function AfterResult(rec: TaskStore.Record, result: CallResult, now: TaskStore.Time): TaskStore.Record {
    var failure := (e: TaskStore.TaskError) =>
      rec.(status := TaskStore.Failed, error := Some(e), updatedAt := now, completedAt := Some(now));
    if result.err.Some? then failure(STORED[FirstCause(result.err.value, 0)])
    else if result.resp.None? then failure(TaskStore.TaskError("internal_error", "backend returned nil response"))
    else if result.resp.value.status == Backend.Failed then
      failure(TaskStore.TaskError("backend_failed", "backend returned failed status"))
    else rec.(status := TaskStore.Completed, response := result.resp, updatedAt := now, completedAt := Some(now))
  }

  /**
   Storing a result: an error is stored by its first cause, no response and a response with the status
   `failed` are failures of their own, and any other response completes the task.
   */
  lemma ResultIsStoredAs(m: TaskStore.Contents, id: string, result: CallResult, now: TaskStore.Time)
    requires TaskStore.StoreOk(m) && IdOk(id) && id in m && m[id].status == TaskStore.Accepted
    ensures StoreResult(m, id, result, now) == TaskStore.Outcome(m[id := AfterResult(m[id], result, now)], None)
  {
    TaskIds.SafeIsFixed(id);
    assert TaskStore.RecordOk(id, m[id]);
    if result.err.Some? { FirstCauseIsStored(result.err.value); }
  }

  /** A waiting storer receives its result as soon as it has been sent, and writes it. */
  lemma StorerBranch(s: State, i: nat, id: string, now: TaskStore.Time)
    requires Reachable(s) && i < |s.invocations| && s.invocations[i].storer == Waiting(id)
    requires HasSent(s.invocations[i])
    ensures Enabled(s, StorerReceives(i))
    ensures var result, s1 := s.invocations[i].backend.result, Apply(s, StorerReceives(i));
      && Enabled(s1, StorerWrites(i, now)) && id in s.store
      && Apply(s1, StorerWrites(i, now)).store == s.store[id := AfterResult(s.store[id], result, now)]
  {
    ReachableInv(s);
    assert InvocationOk(s.hasStore, s.store, s.invocations[i]);
    ResultIsStoredAs(s.store, id, s.invocations[i].backend.result, now);
  }
}
