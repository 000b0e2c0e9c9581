/**
 The store-facing code of internal/dispatch/dispatcher.go on the heap: the timer branch of Invoke and
 storeBackendResult, against the atomic steps of the state machine in Dispatch.
 */
module Dispatcher {
  import opened Wrappers
  import Backend
  import Decimal
  import Dispatch
  import MemoryStore
  import TaskIds
  import TaskStore

  class Dispatcher {
    const store: MemoryStore.Store
    /** The global defaultTaskCounter. */
    var counter: nat

    /** The store is in order and owns nothing of the dispatcher. */
    ghost predicate Valid()
      reads this, store, store.owned
    {
      store.Valid() && this !in store.owned
    }

    constructor (store: MemoryStore.Store, counter: nat)
      requires store.Valid()
      ensures Valid() && this.store == store && this.counter == counter
    {
      this.store, this.counter := store, counter;
    }

    /** atomic.AddUint64 and the two formats of defaultTaskID. */
    method DefaultTaskID(requestID: string) returns (id: string)
      modifies this
      ensures counter == TaskIds.Bump(old(counter)) && id == TaskIds.DefaultTaskID(requestID, counter)
    {
      counter := TaskIds.Bump(counter);
      var normalized := TaskIds.Normalize(requestID);
      if normalized != "" {
        return normalized + "-task-" + Decimal.Print(counter);
      }
      return "task-" + Decimal.Print(counter);
    }

    /** The ID function's answer, normalised, or a default ID if there is no function or nothing is left of it. */
    method ChooseTaskID(requestID: string, configured: Option<string>) returns (id: string)
      modifies this
      ensures (id, counter) == Dispatch.ChooseID(old(counter), requestID, configured)
    {
      var raw;
      if configured.None? {
        raw := DefaultTaskID(requestID);
      } else {
        raw := configured.value;
      }
      id := TaskIds.Normalize(raw);
      if id == "" {
        id := DefaultTaskID(requestID);
      }
    }

    /** The timer branch of Invoke up to the start of the storer, given what the ID function returned, if one is set. */
    method AcceptFallback(request: MemoryStore.RequestStruct, configured: Option<string>, now: TaskStore.Time)
      returns (taskID: string, err: Option<TaskStore.StoreError>)
      requires Valid()
      modifies this, store
      ensures Valid() && fresh(store.owned - old(store.owned))
      ensures (taskID, counter) == Dispatch.ChooseID(old(counter), request.fields.id, configured)
      ensures TaskStore.Outcome(store.contents, err)
           == TaskStore.Create(old(store.contents),
                               Dispatch.NewRecord(taskID, old(MemoryStore.RequestValue(request))), now)
    {
      taskID := ChooseTaskID(request.fields.id, configured);
      err := CreateRecord(taskID, request, now);
    }

    method CreateRecord(taskID: string, request: MemoryStore.RequestStruct, now: TaskStore.Time)
      returns (err: Option<TaskStore.StoreError>)
      requires Valid()
      modifies store
      ensures Valid() && fresh(store.owned - old(store.owned))
      ensures TaskStore.Outcome(store.contents, err)
           == TaskStore.Create(old(store.contents),
                               Dispatch.NewRecord(taskID, old(MemoryStore.RequestValue(request))), now)
    {
      var rec := MakeRecord(taskID, request);
      err := store.CreateAccepted(rec, now);
    }

    method MakeRecord(taskID: string, request: MemoryStore.RequestStruct) returns (rec: MemoryStore.RecordStruct)
      ensures MemoryStore.Value(rec) == Dispatch.NewRecord(taskID, MemoryStore.RequestValue(request))
    {
      var cloned := MemoryStore.CloneRequest(request);
      var metadata := new MemoryStore.StringMap();
      metadata.entries := map["accepted_by" := "dispatcher", "reason" := "quick_timeout"];
      rec := MemoryStore.RecordStruct(taskID, request.fields.id, TaskStore.OtherStatus(""), cloned, null, null,
                                      TaskStore.ZERO_TIME, TaskStore.ZERO_TIME, null, metadata);
    }

    /** storeBackendResult after the receive. */
    method StoreBackendResult(taskID: string, resp: MemoryStore.ResponseObject?, err: Option<Backend.Error>,
                              now: TaskStore.Time) returns (ignored: Option<TaskStore.StoreError>)
      requires Valid()
      modifies store
      ensures Valid() && fresh(store.owned - old(store.owned))
      ensures TaskStore.Outcome(store.contents, ignored)
           == Dispatch.StoreResult(old(store.contents), taskID,
                                   Dispatch.CallResult(old(MemoryStore.ResponseValue(resp)), err), now)
    {
      if err.Some? {
        ignored := store.Fail(taskID, Dispatch.SafeTaskError(err.value), now);
        return;
      }
      if resp == null {
        ignored := store.Fail(taskID, TaskStore.TaskError("internal_error", "backend returned nil response"), now);
        return;
      }
      if resp.status == Backend.Failed {
        ignored := store.Fail(taskID, TaskStore.TaskError("backend_failed", "backend returned failed status"), now);
        return;
      }
      ignored := store.Complete(taskID, resp, now);
    }
  }
}
