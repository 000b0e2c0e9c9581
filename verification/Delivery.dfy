/**
 The agent, the text endpoint, the dispatcher, its backend and the store together: utterances become
 backend requests, commands answer them, polls are answered from the task store at some moment while
 they are on their way, other clients call the server as they like, and everything interleaves.
 */
module Delivery {
  import opened Wrappers
  import Agent
  import Backend
  import DevClient
  import Dispatch
  import HermesAdapter
  import TaskIds
  import TaskStore

  // ---------- What the server answers ----------

  /** taskResponseFromRecord, as far as the agent reads it. */
  function RecordAnswer(rec: TaskStore.Record): Agent.Answer {
    if rec.error.Some? then Agent.ErrorPayload(rec.error.value.message)
    else Agent.StatusAnswer(rec.status, if rec.response.Some? then rec.response.value.output else "")
  }

  /** devTask on a task path. */
  function DevTask(store: TaskStore.Contents, path: string): Agent.Answer {
    match TaskIds.TaskIDFromPath(path)
    case None => Agent.ErrorPayload("task not found")
    case Some(id) =>
      match TaskStore.Get(store, id)
      case None => Agent.ErrorPayload("task not found")
      case Some(rec) => RecordAnswer(rec)
  }

  /** A path that names no task of the store is answered by an error. */
  lemma UnknownTaskIsError(store: TaskStore.Contents, path: string)
    requires forall id | path == "/v1/dev/tasks/" + id && id != "" && !TaskIds.HasSlash(id) ::
               TaskStore.Get(store, id).None?
    ensures DevTask(store, path) == Agent.ErrorPayload("task not found")
  {
    if TaskIds.TaskIDFromPath(path).Some? {
      TaskIds.PathRoundTrip(path, TaskIds.TaskIDFromPath(path).value);
    }
  }

  /** What a poll tells of a record: that it is still accepted, its output, or its error. */
  lemma RecordAnswerIs(id: string, rec: TaskStore.Record)
    requires TaskStore.RecordOk(id, rec)
    ensures rec.status == TaskStore.Accepted ==> RecordAnswer(rec) == Agent.StatusAnswer(TaskStore.Accepted, "")
    ensures rec.status == TaskStore.Completed ==>
              RecordAnswer(rec) == Agent.StatusAnswer(TaskStore.Completed, rec.response.value.output)
    ensures rec.status == TaskStore.Failed ==> RecordAnswer(rec) == Agent.ErrorPayload(rec.error.value.message)
  {
  }

  function StatusText(s: Backend.Status): string {
    match s
    case Completed => "completed"
    case Accepted => "accepted"
    case Failed => "failed"
    case OtherStatus(name) => name
  }

  /** devText's reply once Backend.Invoke has returned. */
  function Reply(inv: Dispatch.Invocation): Agent.ForwardAnswer
    requires Dispatch.HasReturned(inv)
  {
    match inv.caller
    case GotAccepted(id) => Agent.ForwardAccepted(id)
    case GotResult(r) =>
      if r.err.Some? then Agent.ForwardError(DevClient.BackendErrorStatus(r.err.value).1)
      else if r.resp.None? then Agent.ForwardError("backend returned nil response")
      else if r.resp.value.status == Backend.Accepted then Agent.ForwardAccepted(r.resp.value.taskID)
      else Agent.ForwardOther(StatusText(r.resp.value.status), r.resp.value.output)
    case _ => Agent.ForwardError("internal error")
  }

  // ---------- What the backend returns ----------

  /** A backend that finishes its calls itself and never answers `accepted`. */
  predicate PlainResult(r: Dispatch.CallResult) {
    r.resp.Some? ==> r.resp.value.status != Backend.Accepted
  }

  /** The Hermes CLI adapter, or any other backend with plain results, such as the static one. */
  datatype Adapter = Cli(config: HermesAdapter.Config) | Plain

  /** What running a command for a call came to; a plain backend has no use for it. */
  type Command = Result<HermesAdapter.CommandResult, HermesAdapter.RunError>

  /** The backend may return `r` for a request, given what its command came to. */
  ghost predicate Gives(adapter: Adapter, req: Backend.Request, command: Command, r: Dispatch.CallResult) {
    match adapter
    case Cli(cfg) => HermesAdapter.Answers(cfg, req, command, r)
    case Plain => PlainResult(r)
  }

  lemma GivesPlainResults(adapter: Adapter, req: Backend.Request, command: Command, r: Dispatch.CallResult)
    requires Gives(adapter, req, command, r)
    ensures PlainResult(r)
  {
    if adapter.Cli? { HermesAdapter.NeverAccepts(adapter.config, req, command, r); }
  }

  /** The text endpoint, as the requests that it may make of an utterance. */
  type Endpoint = (string, Backend.Request) -> bool

  /** The agent posts a text as the input, and `q` is the request that the endpoint makes of that. */
  ghost predicate Posts(cfg: DevClient.HandlerConfig, text: string, q: Backend.Request) {
    exists req: DevClient.DevTextRequest ::
      req.input == text && req.text == "" && DevClient.Prepared(cfg, true, DevClient.Decoded(req)) == Ok(q)
  }

  /** The endpoint of the program. */
  ghost function EndpointOf(cfg: DevClient.HandlerConfig): Endpoint {
    (text: string, q: Backend.Request) => Posts(cfg, text, q)
  }

  // ---------- The composed machine ----------

  /** The invocation that serves a turn, and the text of that turn. */
  datatype Link = Link(invocation: nat, text: string)

  /**
   Poll answers on their way back, by turn and by delivery; the link of each turn that reached the
   dispatcher; the turn that each delivery stems from; and the command behind each backend call.
   */
  datatype World = World(
    http: Endpoint, adapter: Adapter, server: Dispatch.State, agent: Agent.State,
    turnAnswers: map<nat, Agent.Answer>, deliveryAnswers: map<nat, Agent.Answer>,
    links: map<nat, Link>, origins: seq<nat>, commands: map<nat, Command>)

  /** `OnServer` includes new invocations on behalf of other clients. */
  datatype Step =
    | OnServer(step: Dispatch.Step)
    | OnAgent(local: Agent.Step)
    | ReachServer(t: nat, request: Backend.Request)
    | CommandEnds(i: nat, command: Command, result: Dispatch.CallResult)
    | ForwardReplies(t: nat)
    | ServeTurn(t: nat)
    | TurnReceives(t: nat)
    | ServeDelivery(c: nat)
    | DeliveryReceives(c: nat)

  /** Agent steps that need no backend call: transfers that fail, and utterances turned down before routing ends. */
  predicate IsLocal(step: Agent.Step) {
    match step
    case StartForward(_) => true
    case StartPoll => true
    case ForwardAnswered(_, answer) => answer.ForwardUnreachable? || answer.ForwardError?
    case PollAnswered(_, answer) => answer.Unreachable?
    case DeliveryStarts(_) => true
    case DeliveryWakes(_) => true
    case DeliveryAnswered(_, answer) => answer.Unreachable?
  }

  /** The invocation that serves turn `t`. */
  function Serving(w: World, t: nat): Dispatch.Invocation
    requires t in w.links && w.links[t].invocation < |w.server.invocations|
  {
    w.server.invocations[w.links[t].invocation]
  }

  ghost predicate Enabled(w: World, step: Step) {
    match step
    case OnServer(st) => Dispatch.Enabled(w.server, st) && !st.BackendReturns?
    case OnAgent(st) => Agent.Enabled(w.agent, st) && IsLocal(st)
    case ReachServer(t, request) =>
      && t < |w.agent.turns| && w.agent.turns[t].Forwarding? && t !in w.links
      && w.http(w.agent.turns[t].text, request)
    case CommandEnds(i, command, result) =>
      && Dispatch.Enabled(w.server, Dispatch.BackendReturns(i, result))
      && Gives(w.adapter, w.server.invocations[i].request, command, result)
    case ForwardReplies(t) =>
      && t in w.links && t < |w.agent.turns| && w.agent.turns[t].Forwarding?
      && w.links[t].invocation < |w.server.invocations| && Dispatch.HasReturned(Serving(w, t))
    case ServeTurn(t) => t < |w.agent.turns| && w.agent.turns[t].PollingLast? && t !in w.turnAnswers
    case TurnReceives(t) => t in w.turnAnswers && t < |w.agent.turns| && w.agent.turns[t].PollingLast?
    case ServeDelivery(c) =>
      c < |w.agent.deliveries| && w.agent.deliveries[c].phase == Agent.Polling && c !in w.deliveryAnswers
    case DeliveryReceives(c) =>
      c in w.deliveryAnswers && c < |w.agent.deliveries| && w.agent.deliveries[c].phase == Agent.Polling
  }

  function Apply(w: World, step: Step): World
    requires Enabled(w, step)
  {
    match step
    case OnServer(st) => w.(server := Dispatch.Apply(w.server, st))
    case OnAgent(st) =>
      w.(agent := Agent.Apply(w.agent, st),
         deliveryAnswers := if st.DeliveryAnswered? then w.deliveryAnswers - {st.c} else w.deliveryAnswers)
    case ReachServer(t, request) =>
      w.(server := Dispatch.Apply(w.server, Dispatch.Begin(request)),
         links := w.links[t := Link(|w.server.invocations|, w.agent.turns[t].text)])
    case CommandEnds(i, command, result) =>
      w.(server := Dispatch.Apply(w.server, Dispatch.BackendReturns(i, result)),
         commands := w.commands[i := command])
    case ForwardReplies(t) =>
      var agent := Agent.Apply(w.agent, Agent.ForwardAnswered(t, Reply(Serving(w, t))));
      w.(agent := agent,
         origins := if |agent.deliveries| > |w.agent.deliveries| then w.origins + [t] else w.origins)
    case ServeTurn(t) =>
      w.(turnAnswers := w.turnAnswers[t := DevTask(w.server.store, TaskIds.TASK_PREFIX + w.agent.turns[t].task.id)])
    case TurnReceives(t) =>
      w.(agent := Agent.Apply(w.agent, Agent.PollAnswered(t, w.turnAnswers[t])))
    case ServeDelivery(c) =>
      w.(deliveryAnswers := w.deliveryAnswers[
           c := DevTask(w.server.store, TaskIds.TASK_PREFIX + w.agent.deliveries[c].task.id)])
    case DeliveryReceives(c) =>
      w.(agent := Agent.Apply(w.agent, Agent.DeliveryAnswered(c, w.deliveryAnswers[c])),
         deliveryAnswers := w.deliveryAnswers - {c})
  }

  // ---------- The invariant ----------

  /** The agent's task has a record under a path-safe ID. */
  ghost predicate Known(store: TaskStore.Contents, id: string) {
    id in store && Dispatch.IdOk(id)
  }

  /** An answer is either an old `accepted` snapshot or the record's final word. */
  predicate AnswerOk(store: TaskStore.Contents, id: string, a: Agent.Answer) {
    || a.Unreachable?
    || (a.StatusAnswer? && a.status == TaskStore.Accepted)
    || (id in store && TaskStore.Terminal(store[id]) && a == RecordAnswer(store[id]))
  }

  /** A report repeats the record's final word. */
  predicate ReportOk(store: TaskStore.Contents, id: string, r: Agent.Report) {
    && id in store && TaskStore.Terminal(store[id])
    && Agent.Decisive(RecordAnswer(store[id])) && r == Agent.ReportOf(RecordAnswer(store[id]))
  }

  ghost predicate TurnOk(store: TaskStore.Contents, turn: Agent.Turn) {
    && (turn.PollingLast? ==> Known(store, turn.task.id))
    && (turn.Spoken? && turn.speech.SayReport? ==> ReportOk(store, turn.speech.id, turn.speech.report))
  }

  ghost predicate AgentOk(store: TaskStore.Contents, s: Agent.State) {
    && (s.last.Some? ==> Known(store, s.last.value.id))
    && (forall c | 0 <= c < |s.deliveries| :: Known(store, s.deliveries[c].task.id))
    && (forall t | 0 <= t < |s.turns| :: TurnOk(store, s.turns[t]))
    && (forall k | 0 <= k < |s.notifications| :: ReportOk(store, s.notifications[k].id, s.notifications[k].report))
    && s.warned == {}
  }

  ghost predicate AnswersOk(w: World) {
    && (forall t | t in w.turnAnswers && t < |w.agent.turns| && w.agent.turns[t].PollingLast? ::
          AnswerOk(w.server.store, w.agent.turns[t].task.id, w.turnAnswers[t]))
    && (forall t | t in w.turnAnswers :: t < |w.agent.turns|)
    && (forall c | c in w.deliveryAnswers ::
          c < |w.agent.deliveries| && AnswerOk(w.server.store, w.agent.deliveries[c].task.id, w.deliveryAnswers[c]))
  }

  /** No backend result says `accepted`. */
  ghost predicate PlainBackends(s: Dispatch.State) {
    forall i | 0 <= i < |s.invocations| && !s.invocations[i].backend.Running? ::
      PlainResult(s.invocations[i].backend.result)
  }

  ghost predicate Inv(w: World) {
    && Dispatch.Inv(w.server) && w.server.hasStore && PlainBackends(w.server)
    && Agent.Inv(w.agent) && AgentOk(w.server.store, w.agent) && AnswersOk(w)
  }

  ghost predicate Init(w: World) {
    && Dispatch.Init(w.server) && w.server.hasStore && w.agent == Agent.INITIAL
    && w.turnAnswers == map[] && w.deliveryAnswers == map[] && w.links == map[]
    && w.origins == [] && w.commands == map[]
  }

  // ---------- Server steps ----------

  /** Nothing the agent knows or has said is overtaken by a later store. */
  lemma LaterStoreKeeps(w: World, server: Dispatch.State)
    requires Inv(w) && Dispatch.Inv(server) && server.hasStore && PlainBackends(server)
    requires TaskStore.Later(w.server.store, server.store)
    ensures Inv(w.(server := server))
  {
    var m, n := w.server.store, server.store;
    forall id | Known(m, id) ensures Known(n, id) {}
    forall id, r | ReportOk(m, id, r) ensures ReportOk(n, id, r) {}
    forall id, a | AnswerOk(m, id, a) ensures AnswerOk(n, id, a) {}
    forall t | 0 <= t < |w.agent.turns| ensures TurnOk(n, w.agent.turns[t]) {
      assert TurnOk(m, w.agent.turns[t]);
    }
  }

  lemma PlainBackendsStay(s: Dispatch.State, step: Dispatch.Step)
    requires PlainBackends(s) && Dispatch.Enabled(s, step) && (step.BackendReturns? ==> PlainResult(step.result))
    ensures PlainBackends(Dispatch.Apply(s, step))
  {
  }

  lemma ServerStepKeeps(w: World, step: Dispatch.Step)
    requires Inv(w) && Dispatch.Enabled(w.server, step) && (step.BackendReturns? ==> PlainResult(step.result))
    ensures Inv(w.(server := Dispatch.Apply(w.server, step)))
  {
    Dispatch.StepKeepsInv(w.server, step);
    Dispatch.StepEvolvesStore(w.server, step);
    PlainBackendsStay(w.server, step);
    LaterStoreKeeps(w, Dispatch.Apply(w.server, step));
  }

  // ---------- Agent steps ----------

  /** What an agent step may bring in from outside. */
  ghost predicate InputOk(store: TaskStore.Contents, s: Agent.State, step: Agent.Step)
    requires Agent.Enabled(s, step)
  {
    match step
    case ForwardAnswered(_, answer) => answer.ForwardAccepted? ==> Known(store, answer.taskID)
    case PollAnswered(t, a) => AnswerOk(store, s.turns[t].task.id, a)
    case DeliveryAnswered(c, a) => AnswerOk(store, s.deliveries[c].task.id, a)
    case _ => true
  }

  /** A final answer that is in order gives a report that is in order, and never an unknown status. */
  lemma FinalAnswerReports(store: TaskStore.Contents, id: string, a: Agent.Answer)
    requires TaskStore.StoreOk(store) && AnswerOk(store, id, a) && Agent.Decisive(a)
    ensures ReportOk(store, id, Agent.ReportOf(a))
    ensures Agent.ReportOf(a).Done? || Agent.ReportOf(a).Unavailable?
  {
    assert TaskStore.RecordOk(id, store[id]);
  }

  lemma AgentStepKeeps(store: TaskStore.Contents, s: Agent.State, step: Agent.Step)
    requires TaskStore.StoreOk(store) && AgentOk(store, s) && Agent.Enabled(s, step) && InputOk(store, s, step)
    ensures AgentOk(store, Agent.Apply(s, step))
  {
    var t := Agent.Apply(s, step);
    if step.PollAnswered? && Agent.Decisive(step.answer) {
      FinalAnswerReports(store, s.turns[step.t].task.id, step.answer);
    }
    if step.DeliveryAnswered? && Agent.Decisive(step.answer) {
      FinalAnswerReports(store, s.deliveries[step.c].task.id, step.answer);
    }
    forall k | 0 <= k < |t.turns| ensures TurnOk(store, t.turns[k]) {
      if k < |s.turns| { assert TurnOk(store, s.turns[k]); }
    }
    forall c | 0 <= c < |t.deliveries| ensures Known(store, t.deliveries[c].task.id) {
      if c < |s.deliveries| { assert Known(store, s.deliveries[c].task.id); }
    }
    forall k | 0 <= k < |t.notifications| ensures ReportOk(store, t.notifications[k].id, t.notifications[k].report) {
      if k < |s.notifications| { assert ReportOk(store, s.notifications[k].id, s.notifications[k].report); }
    }
  }

  /** Agent steps never change the task of a turn that is polling, or of a delivery. */
  lemma AgentStepKeepsTasks(s: Agent.State, step: Agent.Step)
    requires Agent.Enabled(s, step)
    ensures var t := Agent.Apply(s, step);
      && |s.turns| <= |t.turns| && |s.deliveries| <= |t.deliveries|
      && (forall k | 0 <= k < |s.turns| && t.turns[k].PollingLast? :: t.turns[k] == s.turns[k])
      && (forall c | 0 <= c < |s.deliveries| :: t.deliveries[c].task == s.deliveries[c].task)
  {
  }

  lemma AgentMoves(w: World, step: Agent.Step, answers: map<nat, Agent.Answer>)
    requires Inv(w) && Agent.Enabled(w.agent, step) && InputOk(w.server.store, w.agent, step)
    requires answers.Keys <= w.deliveryAnswers.Keys && forall c | c in answers :: answers[c] == w.deliveryAnswers[c]
    ensures Inv(w.(agent := Agent.Apply(w.agent, step), deliveryAnswers := answers))
  {
    Agent.StepKeepsInv(w.agent, step);
    AgentStepKeeps(w.server.store, w.agent, step);
    AgentStepKeepsTasks(w.agent, step);
  }

  /** A poll of a known task is answered by its record, as it is at that moment. */
  lemma ServedAnswerOk(store: TaskStore.Contents, id: string)
    requires TaskStore.StoreOk(store) && Known(store, id)
    ensures var a := DevTask(store, TaskIds.TASK_PREFIX + id);
      && a == RecordAnswer(store[id]) && AnswerOk(store, id, a)
      && (Agent.Decisive(a) <==> TaskStore.Terminal(store[id]))
  {
    TaskIds.SafeIsFixed(id);
    TaskIds.PathRoundTrip(TaskIds.TASK_PREFIX + id, id);
    assert TaskStore.RecordOk(id, store[id]);
  }

  /** An accepted reply is the dispatcher's own, and names a record of the store. */
  lemma AcceptedReplyIsKnown(w: World, i: nat)
    requires Inv(w) && i < |w.server.invocations| && Dispatch.HasReturned(w.server.invocations[i])
    ensures var inv := w.server.invocations[i];
      Reply(inv).ForwardAccepted? ==>
        inv.caller == Dispatch.GotAccepted(Reply(inv).taskID) && Known(w.server.store, Reply(inv).taskID)
  {
    assert Dispatch.InvocationOk(w.server.hasStore, w.server.store, w.server.invocations[i]);
  }

  lemma StepKeepsInv(w: World, step: Step)
    requires Inv(w) && Enabled(w, step)
    ensures Inv(Apply(w, step))
  {
    match step
    case OnServer(st) => ServerStepKeeps(w, st);
    case OnAgent(st) => AgentMoves(w, st, Apply(w, step).deliveryAnswers);
    case ReachServer(t, request) => ServerStepKeeps(w, Dispatch.Begin(request));
    case CommandEnds(i, command, result) =>
      GivesPlainResults(w.adapter, w.server.invocations[i].request, command, result);
      ServerStepKeeps(w, Dispatch.BackendReturns(i, result));
    case ForwardReplies(t) =>
      AcceptedReplyIsKnown(w, w.links[t].invocation);
      AgentMoves(w, Agent.ForwardAnswered(t, Reply(Serving(w, t))), w.deliveryAnswers);
    case ServeTurn(t) => ServeTurnKeeps(w, t);
    case TurnReceives(t) => AgentMoves(w, Agent.PollAnswered(t, w.turnAnswers[t]), w.deliveryAnswers);
    case ServeDelivery(c) => ServeDeliveryKeeps(w, c);
    case DeliveryReceives(c) =>
      AgentMoves(w, Agent.DeliveryAnswered(c, w.deliveryAnswers[c]), w.deliveryAnswers - {c});
  }

  lemma ServeTurnKeeps(w: World, t: nat)
    requires Inv(w) && Enabled(w, ServeTurn(t))
    ensures Inv(Apply(w, ServeTurn(t)))
  {
    assert TurnOk(w.server.store, w.agent.turns[t]);
    ServedAnswerOk(w.server.store, w.agent.turns[t].task.id);
  }

  lemma ServeDeliveryKeeps(w: World, c: nat)
    requires Inv(w) && Enabled(w, ServeDelivery(c))
    ensures Inv(Apply(w, ServeDelivery(c)))
  {
    ServedAnswerOk(w.server.store, w.agent.deliveries[c].task.id);
  }

  // ---------- Runs ----------

  ghost predicate Runs(w: World, steps: seq<Step>)
    decreases |steps|
  {
    steps == [] || (Enabled(w, steps[0]) && Runs(Apply(w, steps[0]), steps[1..]))
  }

  ghost function Final(w: World, steps: seq<Step>): World
    requires Runs(w, steps)
    decreases |steps|
  {
    if steps == [] then w else Final(Apply(w, steps[0]), steps[1..])
  }

  lemma {:induction false} RunKeepsInv(w: World, steps: seq<Step>)
    requires Inv(w) && Runs(w, steps)
    ensures Inv(Final(w, steps))
    decreases |steps|
  {
    if steps != [] {
      StepKeepsInv(w, steps[0]);
      RunKeepsInv(Apply(w, steps[0]), steps[1..]);
    }
  }

  // ---------- What the user hears ----------

  /** The user has been given report `r` on task `id`, aloud or in a notification. */
  ghost predicate Heard(s: Agent.State, id: string, r: Agent.Report) {
    || (exists k :: 0 <= k < |s.notifications| && s.notifications[k].id == id && s.notifications[k].report == r)
    || (exists t :: 0 <= t < |s.turns| && s.turns[t] == Agent.Spoken(Agent.SayReport(id, r)))
  }

  /** How a stored outcome is reported: a failure as unavailable with its message, a success by its output. */
  function OutcomeReport(rec: TaskStore.Record): Agent.Report {
    if rec.status == TaskStore.Failed then
      Agent.Unavailable(Agent.Or(if rec.error.Some? then rec.error.value.message else "", Agent.UNKNOWN_ERROR))
    else
      Agent.Done(Agent.Or(if rec.response.Some? then rec.response.value.output else "", Agent.EMPTY_OUTPUT))
  }

  lemma HeardIsStored(w: World, id: string, r: Agent.Report)
    requires Inv(w) && Heard(w.agent, id, r)
    ensures id in w.server.store && TaskStore.Terminal(w.server.store[id])
    ensures r == OutcomeReport(w.server.store[id])
  {
    if t :| 0 <= t < |w.agent.turns| && w.agent.turns[t] == Agent.Spoken(Agent.SayReport(id, r)) {
      assert TurnOk(w.server.store, w.agent.turns[t]);
    }
    assert ReportOk(w.server.store, id, r);
    assert TaskStore.RecordOk(id, w.server.store[id]);
  }

  /**
   In every run of agent and server together, whatever is reported on a task, aloud or in a
   notification, is its stored terminal outcome; so any two reports on one task are the same, and
   neither the `failed` branch nor the unknown-status branch is ever reached.
   */
  lemma ReportsTellTheStoredOutcome(start: World, steps: seq<Step>, id: string, r: Agent.Report, q: Agent.Report)
    requires Init(start) && Runs(start, steps)
    requires Heard(Final(start, steps).agent, id, r) && Heard(Final(start, steps).agent, id, q)
    ensures r == q && (r.Done? || r.Unavailable?)
    ensures var store := Final(start, steps).server.store;
      id in store && TaskStore.Terminal(store[id]) && r == OutcomeReport(store[id])
  {
    RunKeepsInv(start, steps);
    HeardIsStored(Final(start, steps), id, r);
    HeardIsStored(Final(start, steps), id, q);
  }

  /**
   No accepted task is lost: it is still pending with a live delivery coroutine, or the user has
   been told its stored outcome.
   */
  lemma EveryTaskIsPendingOrReported(start: World, steps: seq<Step>, c: nat)
    requires Init(start) && Runs(start, steps) && c < |Final(start, steps).agent.deliveries|
    ensures var w := Final(start, steps); var id := w.agent.deliveries[c].task.id;
      || (id in w.agent.pending && exists k: nat :: Agent.Alive(w.agent, k, id))
      || (id in w.server.store && TaskStore.Terminal(w.server.store[id])
          && Heard(w.agent, id, OutcomeReport(w.server.store[id])))
  {
    RunKeepsInv(start, steps);
    var w := Final(start, steps);
    var id := w.agent.deliveries[c].task.id;
    if id !in w.agent.pending {
      assert Agent.Told(w.agent, id);
      if k :| 0 <= k < |w.agent.notifications| && w.agent.notifications[k].id == id {
        HeardIsStored(w, id, w.agent.notifications[k].report);
      } else {
        var t :| 0 <= t < |w.agent.turns| && w.agent.turns[t].Spoken? && w.agent.turns[t].speech.SayReport?
                 && w.agent.turns[t].speech.id == id;
        var r := w.agent.turns[t].speech.report;
        assert w.agent.turns[t] == Agent.Spoken(Agent.SayReport(id, r));
        HeardIsStored(w, id, r);
      }
    }
  }

  /** A report once given stays true: later steps change neither the record nor what was said. */
  lemma ReportsStayTrue(w: World, steps: seq<Step>, id: string, r: Agent.Report)
    requires Inv(w) && Runs(w, steps) && Heard(w.agent, id, r)
    ensures Heard(Final(w, steps).agent, id, r)
    ensures id in w.server.store && id in Final(w, steps).server.store
    ensures Final(w, steps).server.store[id] == w.server.store[id]
    decreases |steps|
  {
    HeardIsStored(w, id, r);
    if steps != [] {
      StepKeepsInv(w, steps[0]);
      HeardStays(w, steps[0], id, r);
      ReportsStayTrue(Apply(w, steps[0]), steps[1..], id, r);
    }
  }

  lemma AgentGrows(w: World, step: Step)
    requires Enabled(w, step)
    ensures Agent.Grows(w.agent, Apply(w, step).agent)
  {
    match step
    case OnAgent(st) => Agent.StepGrows(w.agent, st);
    case ForwardReplies(t) =>
      Agent.StepGrows(w.agent, Agent.ForwardAnswered(t, Reply(Serving(w, t))));
    case TurnReceives(t) => Agent.StepGrows(w.agent, Agent.PollAnswered(t, w.turnAnswers[t]));
    case DeliveryReceives(c) => Agent.StepGrows(w.agent, Agent.DeliveryAnswered(c, w.deliveryAnswers[c]));
    case _ =>
  }

  lemma HeardStays(w: World, step: Step, id: string, r: Agent.Report)
    requires Inv(w) && Enabled(w, step) && Heard(w.agent, id, r)
    ensures Heard(Apply(w, step).agent, id, r)
    ensures id in w.server.store && id in Apply(w, step).server.store
    ensures Apply(w, step).server.store[id] == w.server.store[id]
  {
    var v := Apply(w, step);
    AgentGrows(w, step);
    HeardIsStored(w, id, r);
    if k :| 0 <= k < |w.agent.notifications| && w.agent.notifications[k].id == id
            && w.agent.notifications[k].report == r {
      assert v.agent.notifications[k] == w.agent.notifications[k];
    } else {
      var t :| 0 <= t < |w.agent.turns| && w.agent.turns[t] == Agent.Spoken(Agent.SayReport(id, r));
      assert v.agent.turns[t] == w.agent.turns[t];
    }
    if step.OnServer? {
      Dispatch.StepEvolvesStore(w.server, step.step);
    } else if step.ReachServer? {
      Dispatch.StepEvolvesStore(w.server, Dispatch.Begin(step.request));
    } else if step.CommandEnds? {
      Dispatch.StepEvolvesStore(w.server, Dispatch.BackendReturns(step.i, step.result));
    }
  }
}
