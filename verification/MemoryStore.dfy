/**
 The in-memory task store of internal/taskstore/memory.go with its real heap: metadata maps,
 responses, usage figures, errors and completion times are objects reached through references,
 and the store copies every one of them on the way in and on the way out.
 */
module MemoryStore {
  import opened Text
  import opened Wrappers
  import Backend
  import TaskStore

  // ---------- The objects ----------

  class StringMap {
    var entries: map<string, string>

    constructor ()
      ensures entries == map[]
    {
      entries := map[];
    }
  }

  class UsageObject {
    var value: Backend.Usage

    constructor (value: Backend.Usage)
      ensures this.value == value
    {
      this.value := value;
    }
  }

  class ResponseObject {
    var id: string
    var output: string
    var status: Backend.Status
    var taskID: string
    var usage: UsageObject?
    var metadata: StringMap?

    constructor (id: string, output: string, status: Backend.Status, taskID: string,
                 usage: UsageObject?, metadata: StringMap?)
      ensures this.id == id && this.output == output && this.status == status && this.taskID == taskID
      ensures this.usage == usage && this.metadata == metadata
    {
      this.id, this.output, this.status, this.taskID := id, output, status, taskID;
      this.usage, this.metadata := usage, metadata;
    }
  }

  class ErrorObject {
    var value: TaskStore.TaskError

    constructor (value: TaskStore.TaskError)
      ensures this.value == value
    {
      this.value := value;
    }
  }

  class TimeObject {
    var value: TaskStore.Time

    constructor (value: TaskStore.Time)
      ensures this.value == value
    {
      this.value := value;
    }
  }

  /** A request is a Go struct: its metadata field is a reference. The other fields are in `fields`. */
  datatype RequestStruct = RequestStruct(fields: Backend.Request, metadata: StringMap?)

  datatype RecordStruct = RecordStruct(
    taskID: string, requestID: string, status: TaskStore.Status, request: RequestStruct,
    response: ResponseObject?, error: ErrorObject?,
    createdAt: TaskStore.Time, updatedAt: TaskStore.Time, completedAt: TimeObject?, metadata: StringMap?)

  // ---------- What the objects say ----------

  ghost function One(o: object?): set<object> {
    if o == null then {} else {o}
  }

  ghost function MapValue(m: StringMap?): Backend.Metadata
    reads m
  {
    if m == null then None else Some(m.entries)
  }

  ghost function RequestValue(r: RequestStruct): Backend.Request
    reads r.metadata
  {
    r.fields.(metadata := MapValue(r.metadata))
  }

  ghost function UsageValue(u: UsageObject?): Option<Backend.Usage>
    reads u
  {
    if u == null then None else Some(u.value)
  }

  ghost function ResponseValue(p: ResponseObject?): Option<Backend.Response>
    reads p, if p == null then null else p.usage, if p == null then null else p.metadata
  {
    if p == null then None
    else Some(Backend.Response(p.id, p.output, p.status, p.taskID, UsageValue(p.usage), MapValue(p.metadata)))
  }

  ghost function ErrorValue(e: ErrorObject?): Option<TaskStore.TaskError>
    reads e
  {
    if e == null then None else Some(e.value)
  }

  ghost function TimeValue(t: TimeObject?): Option<TaskStore.Time>
    reads t
  {
    if t == null then None else Some(t.value)
  }

  ghost function Value(rec: RecordStruct): TaskStore.Record
    reads rec.request.metadata, rec.error, rec.completedAt, rec.metadata
    reads rec.response, if rec.response == null then null else rec.response.usage,
          if rec.response == null then null else rec.response.metadata
  {
    TaskStore.Record(rec.taskID, rec.requestID, rec.status, RequestValue(rec.request),
                     ResponseValue(rec.response), ErrorValue(rec.error), rec.createdAt, rec.updatedAt,
                     TimeValue(rec.completedAt), MapValue(rec.metadata))
  }

  /** A response and the objects it refers to all lie in `s`. */
  ghost predicate ResponseWithin(p: ResponseObject?, s: set<object>)
    reads p
  {
    p != null ==> p in s && (p.usage != null ==> p.usage in s) && (p.metadata != null ==> p.metadata in s)
  }

  /** All objects reachable from a record lie in `s`. */
  ghost predicate Within(rec: RecordStruct, s: set<object>)
    reads rec.response
  {
    && (rec.request.metadata != null ==> rec.request.metadata in s)
    && ResponseWithin(rec.response, s)
    && (rec.error != null ==> rec.error in s)
    && (rec.completedAt != null ==> rec.completedAt in s)
    && (rec.metadata != null ==> rec.metadata in s)
  }

  /** The record lies within `s` and says `value`. */
  ghost predicate Says(rec: RecordStruct, s: set<object>, value: TaskStore.Record)
    reads s
  {
    (rec.response != null ==> rec.response in s) && Within(rec, s) && Value(rec) == value
  }

  lemma SaysMonotone(rec: RecordStruct, s: set<object>, t: set<object>, value: TaskStore.Record)
    requires Says(rec, s, value) && s <= t
    ensures Says(rec, t, value)
  {
  }

  /** Finishing a record with fresh parts changes what it says in the corresponding places. */
  lemma SaysFinished(rec: RecordStruct, s: set<object>, value: TaskStore.Record, done: RecordStruct, t: set<object>)
    requires Says(rec, s, value) && ResponseWithin(done.response, t)
    requires (done.error != null ==> done.error in t) && (done.completedAt != null ==> done.completedAt in t)
    requires done == rec.(status := done.status, response := done.response, error := done.error,
                          updatedAt := done.updatedAt, completedAt := done.completedAt)
    ensures Says(done, s + t,
                 value.(status := done.status, response := ResponseValue(done.response),
                        error := ErrorValue(done.error), updatedAt := done.updatedAt,
                        completedAt := TimeValue(done.completedAt)))
  {
  }

  // ---------- Copying ----------

  method CloneStringMap(m: StringMap?) returns (out: StringMap?)
    ensures out != null ==> fresh(out)
    ensures MapValue(out) == MapValue(m)
  {
    if m == null {
      return null;
    }
    var copied := new StringMap();
    var keys := m.entries.Keys;
    while keys != {}
      invariant keys <= m.entries.Keys
      invariant copied.entries == map key | key in m.entries.Keys - keys :: m.entries[key]
      decreases keys
    {
      var key :| key in keys;
      copied.entries := copied.entries[key := m.entries[key]];
      keys := keys - {key};
    }
    assert copied.entries == m.entries;
    out := copied;
  }

  method CloneRequest(r: RequestStruct) returns (out: RequestStruct)
    ensures out.metadata != null ==> fresh(out.metadata)
    ensures RequestValue(out) == RequestValue(r)
  {
    var metadata := CloneStringMap(r.metadata);
    out := r.(metadata := metadata);
  }

  method CloneResponse(p: ResponseObject?) returns (out: ResponseObject?, ghost made: set<object>)
    ensures fresh(made) && ResponseWithin(out, made)
    ensures ResponseValue(out) == ResponseValue(p)
  {
    made := {};
    if p == null {
      return null, {};
    }
    var usage: UsageObject? := null;
    if p.usage != null {
      usage := new UsageObject(p.usage.value);
      made := made + {usage};
    }
    var metadata := CloneStringMap(p.metadata);
    if metadata != null {
      made := made + {metadata};
    }
    out := new ResponseObject(p.id, p.output, p.status, p.taskID, usage, metadata);
    made := made + {out};
  }

  method CloneError(e: ErrorObject?) returns (out: ErrorObject?)
    ensures out != null ==> fresh(out)
    ensures ErrorValue(out) == ErrorValue(e)
  {
    if e == null {
      return null;
    }
    out := new ErrorObject(e.value);
  }

  method CloneTime(t: TimeObject?) returns (out: TimeObject?)
    ensures out != null ==> fresh(out)
    ensures TimeValue(out) == TimeValue(t)
  {
    if t == null {
      return null;
    }
    out := new TimeObject(t.value);
  }

  /** The error, completion time and metadata of a record, copied. */
  method CloneAttachments(rec: RecordStruct)
    returns (error: ErrorObject?, completedAt: TimeObject?, metadata: StringMap?, ghost made: set<object>)
    ensures fresh(made)
    ensures (error != null ==> error in made) && (completedAt != null ==> completedAt in made)
    ensures metadata != null ==> metadata in made
    ensures ErrorValue(error) == ErrorValue(rec.error) && TimeValue(completedAt) == TimeValue(rec.completedAt)
    ensures MapValue(metadata) == MapValue(rec.metadata)
  {
    error := CloneError(rec.error);
    completedAt := CloneTime(rec.completedAt);
    metadata := CloneStringMap(rec.metadata);
    made := One(error) + One(completedAt) + One(metadata);
  }

  method CloneRecord(rec: RecordStruct) returns (out: RecordStruct, ghost made: set<object>)
    ensures fresh(made) && Within(out, made)
    ensures Value(out) == Value(rec)
  {
    ghost var value := Value(rec);
    var request := CloneRequest(rec.request);
    var response;
    ghost var parts;
    response, parts := CloneResponse(rec.response);
    ghost var first := parts + One(request.metadata);
    var error, completedAt, metadata;
    error, completedAt, metadata, made := CloneAttachments(rec);
    made := made + first;
    out := rec.(request := request, response := response, error := error, completedAt := completedAt,
                metadata := metadata);
    assert RequestValue(request) == value.request;
    assert ResponseValue(response) == value.response;
  }

  // ---------- The records that the store files ----------

  method MakeAccepted(rec: RecordStruct, taskID: string, now: TaskStore.Time)
    returns (stored: RecordStruct, ghost made: set<object>)
    requires taskID == TrimSpace(rec.taskID)
    ensures fresh(made) && Says(stored, made, TaskStore.AcceptedRecord(Value(rec), now))
  {
    stored, made := CloneRecord(rec);
    stored := stored.(taskID := taskID, status := TaskStore.Accepted);
    if stored.requestID == "" {
      stored := stored.(requestID := stored.request.fields.id);
    }
    if stored.createdAt == TaskStore.ZERO_TIME {
      stored := stored.(createdAt := now);
    }
    if stored.updatedAt == TaskStore.ZERO_TIME {
      stored := stored.(updatedAt := stored.createdAt);
    }
    stored := stored.(completedAt := null, response := null, error := null);
  }

  method MakeCompleted(rec: RecordStruct, ghost s: set<object>, ghost value: TaskStore.Record,
                       resp: ResponseObject, now: TaskStore.Time)
    returns (done: RecordStruct, ghost made: set<object>)
    requires Says(rec, s, value)
    ensures fresh(made) && Says(done, s + made, TaskStore.CompletedRecord(value, ResponseValue(resp), now))
  {
    ghost var said := ResponseValue(resp);
    var response;
    response, made := CloneResponse(resp);
    var completedAt := new TimeObject(now);
    made := made + {completedAt};
    done := rec.(status := TaskStore.Completed, response := response, error := null,
                 updatedAt := now, completedAt := completedAt);
    SaysFinished(rec, s, value, done, made);
    assert ResponseValue(resp) == said;
  }

  method MakeFailed(rec: RecordStruct, ghost s: set<object>, ghost value: TaskStore.Record,
                    taskErr: TaskStore.TaskError, now: TaskStore.Time)
    returns (done: RecordStruct, ghost made: set<object>)
    requires Says(rec, s, value)
    ensures fresh(made) && Says(done, s + made, TaskStore.FailedRecord(value, taskErr, now))
  {
    var errCopy := new ErrorObject(taskErr);
    var completedAt := new TimeObject(now);
    made := {errCopy, completedAt};
    done := rec.(status := TaskStore.Failed, response := null, error := errCopy,
                 updatedAt := now, completedAt := completedAt);
    SaysFinished(rec, s, value, done, made);
  }

  // ---------- The store ----------

  class Store {
    var records: map<string, RecordStruct>
    /** The objects that belong to the store alone. */
    ghost var owned: set<object>
    /** What the records say. */
    ghost var contents: TaskStore.Contents

    /** Every object of every record is the store's own, and `contents` is up to date. */
    ghost predicate Valid()
      reads this, owned
    {
      && this !in owned && contents.Keys == records.Keys
      && forall id | id in records :: Says(records[id], owned, contents[id])
    }

    constructor ()
      ensures Valid() && fresh(owned) && contents == map[]
    {
      records := map[];
      owned := {};
      contents := map[];
    }

    /** Files a record under an ID and takes over the objects it was made from. */
    method Put(id: string, rec: RecordStruct, ghost made: set<object>, ghost value: TaskStore.Record)
      requires Valid() && this !in made && Says(rec, made, value)
      modifies this
      ensures Valid() && owned == old(owned) + made
      ensures contents == old(contents)[id := value]
    {
      SaysMonotone(rec, made, owned + made, value);
      forall k | k in records ensures Says(records[k], owned + made, contents[k]) {
        SaysMonotone(records[k], owned, owned + made, contents[k]);
      }
      records := records[id := rec];
      owned := owned + made;
      contents := contents[id := value];
    }

    method CreateAccepted(rec: RecordStruct, now: TaskStore.Time) returns (err: Option<TaskStore.StoreError>)
      requires Valid()
      modifies this
      ensures Valid() && fresh(owned - old(owned))
      ensures TaskStore.Outcome(contents, err) == TaskStore.Create(old(contents), old(Value(rec)), now)
    {
      var taskID := TrimSpace(rec.taskID);
      if taskID == "" {
        return Some(TaskStore.InvalidTaskID);
      }
      var stored;
      ghost var made, value := {}, TaskStore.AcceptedRecord(Value(rec), now);
      stored, made := MakeAccepted(rec, taskID, now);
      if taskID in records {
        return Some(TaskStore.TaskExists);
      }
      Put(taskID, stored, made, value);
      err := None;
    }

    method Complete(taskID: string, resp: ResponseObject?, now: TaskStore.Time)
      returns (err: Option<TaskStore.StoreError>)
      requires Valid()
      modifies this
      ensures Valid() && fresh(owned - old(owned))
      ensures TaskStore.Outcome(contents, err)
           == TaskStore.Complete(old(contents), taskID, old(ResponseValue(resp)), now)
    {
      var id := TrimSpace(taskID);
      if id == "" {
        return Some(TaskStore.InvalidTaskID);
      }
      if resp == null {
        return Some(TaskStore.InvalidResponse);
      }
      if id !in records {
        return Some(TaskStore.TaskNotFound);
      }
      var rec := records[id];
      if rec.status != TaskStore.Accepted {
        return Some(TaskStore.InvalidTransition);
      }
      var done;
      ghost var made, value := {}, TaskStore.CompletedRecord(contents[id], ResponseValue(resp), now);
      done, made := MakeCompleted(rec, owned, contents[id], resp, now);
      Put(id, done, owned + made, value);
      err := None;
    }

    method Fail(taskID: string, taskErr: TaskStore.TaskError, now: TaskStore.Time)
      returns (err: Option<TaskStore.StoreError>)
      requires Valid()
      modifies this
      ensures Valid() && fresh(owned - old(owned))
      ensures TaskStore.Outcome(contents, err) == TaskStore.Fail(old(contents), taskID, taskErr, now)
    {
      var id := TrimSpace(taskID);
      if id == "" {
        return Some(TaskStore.InvalidTaskID);
      }
      if id !in records {
        return Some(TaskStore.TaskNotFound);
      }
      var rec := records[id];
      if rec.status != TaskStore.Accepted {
        return Some(TaskStore.InvalidTransition);
      }
      var done;
      ghost var made;
      done, made := MakeFailed(rec, owned, contents[id], taskErr, now);
      Put(id, done, owned + made, TaskStore.FailedRecord(contents[id], taskErr, now));
      err := None;
    }

    /** The record returned shares no object with the store. */
    method Get(taskID: string) returns (rec: Option<RecordStruct>, ghost made: set<object>)
      requires Valid()
      ensures fresh(made) && (rec.Some? ==> Within(rec.value, made))
      ensures (if rec.None? then None else Some(Value(rec.value))) == TaskStore.Get(contents, taskID)
    {
      var id := TrimSpace(taskID);
      if id == "" || id !in records {
        return None, {};
      }
      var copy;
      copy, made := CloneRecord(records[id]);
      rec := Some(copy);
    }
  }

  // ---------- Any client whatever ----------

  datatype Call =
    | CallCreate(rec: RecordStruct, now: TaskStore.Time)
    | CallComplete(taskID: string, resp: ResponseObject?, now: TaskStore.Time)
    | CallFail(taskID: string, err: TaskStore.TaskError, now: TaskStore.Time)
    | CallGet(taskID: string)

  /** The objects a call hands to the store all lie in `held`. */
  ghost predicate HandsOver(call: Call, held: set<object>)
    reads if call.CallCreate? then call.rec.response else if call.CallComplete? then call.resp else null
  {
    match call
    case CallCreate(rec, _) => Within(rec, held)
    case CallComplete(_, resp, _) => ResponseWithin(resp, held)
    case CallFail(_, _, _) => true
    case CallGet(_) => true
  }

  /** One exchange as values: the operation, and what the store answered at that moment. */
  datatype Exchange = Exchange(op: TaskStore.Op, err: Option<TaskStore.StoreError>, got: Option<TaskStore.Record>)

  /** The answer is the one the store of values gives. */
  ghost predicate Answered(m: TaskStore.Contents, x: Exchange) {
    && x.err == TaskStore.Perform(m, x.op).err
    && x.got == if x.op.DoGet? then TaskStore.Get(m, x.op.taskID) else None
  }

  /** Every answer in the log is the right one at that point. */
  ghost predicate Faithful(m: TaskStore.Contents, log: seq<Exchange>)
    decreases |log|
  {
    log != [] ==> Answered(m, log[0]) && Faithful(TaskStore.Perform(m, log[0].op).contents, log[1..])
  }

  /** The operations of a log. */
  ghost function Ops(log: seq<Exchange>): seq<TaskStore.Op> {
    seq(|log|, i requires 0 <= i < |log| => log[i].op)
  }

  /**
   The client's own turn: overwrite any of the objects it holds, allocate more, and choose a call
   that hands over objects it holds. Callers see only this contract, so anything it allows may happen.
   */
  method ClientTurn(ghost held: set<object>) returns (ghost heldNow: set<object>, call: Call)
    modifies held
    ensures held <= heldNow && fresh(heldNow - held)
    ensures HandsOver(call, heldNow)
  {
    heldNow := held;
    call := CallGet("");
  }

  /** One turn of the client followed by the call it chose. */
  method Turn(store: Store, ghost held: set<object>) returns (ghost heldNow: set<object>, ghost x: Exchange)
    requires store.Valid() && held !! store.owned && store !in held
    modifies store, held
    ensures store.Valid() && heldNow !! store.owned && store !in heldNow
    ensures fresh(heldNow - held) && fresh(store.owned - old(store.owned))
    ensures store.contents == TaskStore.Perform(old(store.contents), x.op).contents
    ensures Answered(old(store.contents), x)
  {
    var call;
    heldNow, call := ClientTurn(held);
    match call {
      case CallCreate(rec, now) =>
        ghost var op := TaskStore.DoCreate(Value(rec), now);
        var err := store.CreateAccepted(rec, now);
        x := Exchange(op, err, None);
      case CallComplete(taskID, resp, now) =>
        ghost var op := TaskStore.DoComplete(taskID, ResponseValue(resp), now);
        var err := store.Complete(taskID, resp, now);
        x := Exchange(op, err, None);
      case CallFail(taskID, taskErr, now) =>
        var err := store.Fail(taskID, taskErr, now);
        x := Exchange(TaskStore.DoFail(taskID, taskErr, now), err, None);
      case CallGet(taskID) =>
        var rec;
        ghost var made;
        rec, made := store.Get(taskID);
        x := Exchange(TaskStore.DoGet(taskID), None, if rec.None? then None else Some(Value(rec.value)));
        heldNow := heldNow + made;
    }
  }

  /**
   Isolation: whatever a client does between calls to the objects it passed in or got back, the
   store behaves as the map of immutable values, and every answer is the one that map gives.
   */
  method AnyClient(store: Store, ghost held: set<object>, turns: nat) returns (ghost log: seq<Exchange>)
    requires store.Valid() && held !! store.owned && store !in held
    modifies store, held
    ensures store.Valid()
    ensures |log| == turns && Faithful(old(store.contents), log)
    ensures store.contents == TaskStore.After(old(store.contents), Ops(log))
    decreases turns
  {
    if turns == 0 {
      return [];
    }
    ghost var mine, x := Turn(store, held);
    ghost var rest := AnyClient(store, mine, turns - 1);
    log := [x] + rest;
    assert Ops(log)[1..] == Ops(rest);
  }
}
