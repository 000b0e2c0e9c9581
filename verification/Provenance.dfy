/**
 Where every report comes from: in the composed machine each delivery stems from one utterance, is
 served by one invocation, and reports what that invocation's own backend call came to.
 */
module Provenance {
  import opened Delivery
  import opened Text
  import opened Wrappers
  import Agent
  import Backend
  import CleanupDefaults
  import DevClient
  import Dispatch
  import HermesAdapter
  import HermesCli
  import TaskStore

  // ---------- The invariant ----------

  /** A turn that reached the dispatcher has an invocation of its text, which it still knows while it waits. */
  ghost predicate LinkOk(w: World, t: nat)
    requires t in w.links
  {
    && t < |w.agent.turns| && w.links[t].invocation < |w.server.invocations|
    && (w.agent.turns[t].Forwarding? ==> w.agent.turns[t].text == w.links[t].text)
    && w.http(w.links[t].text, Serving(w, t).request)
  }

  ghost predicate LinksOk(w: World) {
    && (forall t | t in w.links :: LinkOk(w, t))
    && (forall t, u | t in w.links && u in w.links && t != u :: w.links[t].invocation != w.links[u].invocation)
  }

  /** Delivery `c` stems from turn `t`: that turn is over, and its invocation was accepted as this task. */
  ghost predicate StemsFrom(w: World, c: nat, t: nat) {
    && c < |w.agent.deliveries| && t in w.links && w.links[t].invocation < |w.server.invocations|
    && t < |w.agent.turns| && !w.agent.turns[t].Forwarding?
    && Serving(w, t).caller == Dispatch.GotAccepted(w.agent.deliveries[c].task.id)
    && w.agent.deliveries[c].task.text == w.links[t].text
  }

  ghost predicate OriginsOk(w: World) {
    && |w.origins| == |w.agent.deliveries|
    && (forall c | 0 <= c < |w.origins| :: StemsFrom(w, c, w.origins[c]))
    && (forall c, d | 0 <= c < d < |w.origins| :: w.origins[c] != w.origins[d])
  }

  /** A backend call that has returned was answered by its own command. */
  ghost predicate CommandOk(w: World, i: nat)
    requires i < |w.server.invocations|
  {
    var inv := w.server.invocations[i];
    !inv.backend.Running? ==> i in w.commands && Gives(w.adapter, inv.request, w.commands[i], inv.backend.result)
  }

  ghost predicate CommandsOk(w: World) {
    forall i | 0 <= i < |w.server.invocations| :: CommandOk(w, i)
  }

  ghost predicate Traceable(w: World) {
    LinksOk(w) && OriginsOk(w) && CommandsOk(w) && Agent.AllFollowed(w.agent)
  }

  // ---------- Server steps ----------

  /** What the links and origins say outlives any step of the server. */
  lemma ServerMovesLinks(w: World, server: Dispatch.State)
    requires LinksOk(w) && OriginsOk(w) && Dispatch.AllContinue(w.server, server)
    ensures LinksOk(w.(server := server)) && OriginsOk(w.(server := server))
  {
    var v := w.(server := server);
    forall t | t in v.links ensures LinkOk(v, t) { assert LinkOk(w, t); }
    forall c | 0 <= c < |v.origins| ensures StemsFrom(v, c, v.origins[c]) {
      assert StemsFrom(w, c, w.origins[c]);
    }
  }

  /** A step by which no backend call returns leaves the commands of the returned calls as they are. */
  lemma CommandsStay(w: World, step: Dispatch.Step)
    requires CommandsOk(w) && Dispatch.Enabled(w.server, step) && !step.BackendReturns?
    ensures CommandsOk(w.(server := Dispatch.Apply(w.server, step)))
  {
    var v := w.(server := Dispatch.Apply(w.server, step));
    forall i: nat | i < |v.server.invocations| ensures CommandOk(v, i) {
      if i < |w.server.invocations| && !w.server.invocations[i].backend.Running? {
        assert CommandOk(w, i);
        Dispatch.StepContinues(w.server, step);
      } else {
        Dispatch.OnlyReturnsEndRunning(w.server, step, i);
      }
    }
  }

  lemma CommandReturns(w: World, i: nat, command: Command, result: Dispatch.CallResult)
    requires CommandsOk(w) && Enabled(w, CommandEnds(i, command, result))
    ensures CommandsOk(Apply(w, CommandEnds(i, command, result)))
  {
    var v := Apply(w, CommandEnds(i, command, result));
    forall j: nat | j < |v.server.invocations| ensures CommandOk(v, j) {
      if j != i { assert CommandOk(w, j); }
    }
  }

  /** A turn reaches the dispatcher: a new invocation, linked to this turn alone. */
  lemma ReachKeepsLinks(w: World, t: nat, request: Backend.Request)
    requires LinksOk(w) && OriginsOk(w) && Enabled(w, ReachServer(t, request))
    ensures LinksOk(Apply(w, ReachServer(t, request))) && OriginsOk(Apply(w, ReachServer(t, request)))
  {
    var v := Apply(w, ReachServer(t, request));
    var n := |w.server.invocations|;
    assert v.server.invocations[n].request == request;
    forall u | u in v.links ensures LinkOk(v, u) {
      if u != t { assert LinkOk(w, u); }
    }
    forall u | u in w.links ensures w.links[u].invocation < n { assert LinkOk(w, u); }
    forall c | 0 <= c < |v.origins| ensures StemsFrom(v, c, v.origins[c]) {
      assert StemsFrom(w, c, w.origins[c]);
    }
  }

  // ---------- Agent steps ----------

  /** An agent step that brings no accepted reply adds no delivery. */
  predicate AddsNoDelivery(step: Agent.Step) {
    step.ForwardAnswered? ==> !step.forwarded.ForwardAccepted?
  }

  /** Turns that are over stay over, turns that wait keep their text, and new turns come at the end. */
  lemma AgentStepKeepsTurns(s: Agent.State, step: Agent.Step)
    requires Agent.Enabled(s, step)
    ensures var v := Agent.Apply(s, step);
      && |s.turns| <= |v.turns| && Agent.KeepsTasks(s, v)
      && (AddsNoDelivery(step) ==> |v.deliveries| == |s.deliveries|)
      && (forall t | 0 <= t < |s.turns| && v.turns[t].Forwarding? :: v.turns[t] == s.turns[t])
  {
  }

  lemma AgentMovesLinks(w: World, agent: Agent.State)
    requires LinksOk(w) && |w.agent.turns| <= |agent.turns|
    requires forall t | 0 <= t < |w.agent.turns| && agent.turns[t].Forwarding? :: agent.turns[t] == w.agent.turns[t]
    ensures LinksOk(w.(agent := agent))
  {
    var v := w.(agent := agent);
    forall t | t in v.links ensures LinkOk(v, t) { assert LinkOk(w, t); }
  }

  lemma AgentMovesOrigins(w: World, agent: Agent.State)
    requires OriginsOk(w) && |w.agent.turns| <= |agent.turns|
    requires forall t | 0 <= t < |w.agent.turns| && agent.turns[t].Forwarding? :: agent.turns[t] == w.agent.turns[t]
    requires Agent.KeepsTasks(w.agent, agent)
    ensures forall c | 0 <= c < |w.origins| :: StemsFrom(w.(agent := agent), c, w.origins[c])
  {
    forall c | 0 <= c < |w.origins| ensures StemsFrom(w.(agent := agent), c, w.origins[c]) {
      assert StemsFrom(w, c, w.origins[c]);
    }
  }

  /** An agent step, with or without a delivery of its own. */
  lemma AgentMovesTraces(w: World, step: Agent.Step)
    requires Traceable(w) && Agent.Enabled(w.agent, step) && AddsNoDelivery(step)
    ensures Traceable(w.(agent := Agent.Apply(w.agent, step)))
  {
    var v := w.(agent := Agent.Apply(w.agent, step));
    AgentStepKeepsTurns(w.agent, step);
    AgentMovesLinks(w, v.agent);
    AgentMovesOrigins(w, v.agent);
    Agent.StepKeepsFollowed(w.agent, step);
    forall i | 0 <= i < |v.server.invocations| ensures CommandOk(v, i) { assert CommandOk(w, i); }
  }

  /** The turn of an origin is over, so a turn that waits is the origin of no delivery yet. */
  lemma WaitingIsNoOrigin(w: World, t: nat)
    requires OriginsOk(w) && t < |w.agent.turns| && w.agent.turns[t].Forwarding?
    ensures forall c | 0 <= c < |w.origins| :: w.origins[c] != t
  {
    forall c | 0 <= c < |w.origins| ensures w.origins[c] != t { assert StemsFrom(w, c, w.origins[c]); }
  }

  /** What an accepted or other reply does to the agent. */
  lemma ReplyMovesAgent(s: Agent.State, t: nat, reply: Agent.ForwardAnswer)
    requires Agent.Enabled(s, Agent.ForwardAnswered(t, reply))
    ensures var v := Agent.Apply(s, Agent.ForwardAnswered(t, reply));
      && v.turns[t].Spoken? && |v.turns| == |s.turns|
      && if reply.ForwardAccepted? && reply.taskID != "" then
           && |v.deliveries| == |s.deliveries| + 1
           && v.deliveries[|s.deliveries|].task == Agent.Task(reply.taskID, s.turns[t].text)
         else |v.deliveries| == |s.deliveries|
  {
  }

  /** The turn of an accepted reply is the origin of the new delivery. */
  lemma AcceptedAddsOrigin(w: World, agent: Agent.State, t: nat)
    requires OriginsOk(w) && t < |w.agent.turns| && w.agent.turns[t].Forwarding?
    requires forall c | 0 <= c < |w.origins| :: StemsFrom(w.(agent := agent), c, w.origins[c])
    requires |agent.deliveries| == |w.agent.deliveries| + 1
    requires StemsFrom(w.(agent := agent), |w.origins|, t)
    ensures OriginsOk(w.(agent := agent, origins := w.origins + [t]))
  {
    var v := w.(agent := agent, origins := w.origins + [t]);
    WaitingIsNoOrigin(w, t);
    forall c | 0 <= c < |v.origins| ensures StemsFrom(v, c, v.origins[c]) {
      assert StemsFrom(w.(agent := agent), c, v.origins[c]);
    }
  }

  lemma ReplyKeepsOrigins(w: World, t: nat)
    requires Inv(w) && LinksOk(w) && OriginsOk(w) && Enabled(w, ForwardReplies(t))
    ensures OriginsOk(Apply(w, ForwardReplies(t)))
  {
    var reply := Reply(Serving(w, t));
    var agent := Agent.Apply(w.agent, Agent.ForwardAnswered(t, reply));
    AcceptedReplyIsKnown(w, w.links[t].invocation);
    AgentStepKeepsTurns(w.agent, Agent.ForwardAnswered(t, reply));
    AgentMovesOrigins(w, agent);
    ReplyMovesAgent(w.agent, t, reply);
    assert LinkOk(w, t);
    if |agent.deliveries| > |w.agent.deliveries| {
      AcceptedAddsOrigin(w, agent, t);
    } else {
      SameOrigins(w, agent);
    }
  }

  lemma SameOrigins(w: World, agent: Agent.State)
    requires OriginsOk(w) && |agent.deliveries| == |w.agent.deliveries|
    requires forall c | 0 <= c < |w.origins| :: StemsFrom(w.(agent := agent), c, w.origins[c])
    ensures OriginsOk(w.(agent := agent, origins := w.origins))
  {
    var v := w.(agent := agent, origins := w.origins);
    forall c | 0 <= c < |v.origins| ensures StemsFrom(v, c, v.origins[c]) {
      assert StemsFrom(w.(agent := agent), c, v.origins[c]);
    }
  }

  lemma ReplyKeepsTraces(w: World, t: nat)
    requires Inv(w) && Traceable(w) && Enabled(w, ForwardReplies(t))
    ensures Traceable(Apply(w, ForwardReplies(t)))
  {
    var v, step := Apply(w, ForwardReplies(t)), Agent.ForwardAnswered(t, Reply(Serving(w, t)));
    AgentStepKeepsTurns(w.agent, step);
    AgentMovesLinks(w, v.agent);
    assert LinksOk(v) by {
      forall u | u in v.links ensures LinkOk(v, u) { assert LinkOk(w.(agent := v.agent), u); }
    }
    ReplyKeepsOrigins(w, t);
    Agent.StepKeepsFollowed(w.agent, step);
    forall i | 0 <= i < |v.server.invocations| ensures CommandOk(v, i) { assert CommandOk(w, i); }
  }

  // ---------- Every step keeps it ----------

  lemma ServerMovesTraces(w: World, step: Dispatch.Step)
    requires Traceable(w) && Dispatch.Enabled(w.server, step) && !step.BackendReturns?
    ensures Traceable(w.(server := Dispatch.Apply(w.server, step)))
  {
    Dispatch.StepContinues(w.server, step);
    ServerMovesLinks(w, Dispatch.Apply(w.server, step));
    CommandsStay(w, step);
  }

  lemma CommandKeepsTraces(w: World, i: nat, command: Command, result: Dispatch.CallResult)
    requires Traceable(w) && Enabled(w, CommandEnds(i, command, result))
    ensures Traceable(Apply(w, CommandEnds(i, command, result)))
  {
    var server := Dispatch.Apply(w.server, Dispatch.BackendReturns(i, result));
    var u, v := w.(server := server), Apply(w, CommandEnds(i, command, result));
    Dispatch.StepContinues(w.server, Dispatch.BackendReturns(i, result));
    ServerMovesLinks(w, server);
    CommandReturns(w, i, command, result);
    forall t | t in v.links ensures LinkOk(v, t) { assert LinkOk(u, t); }
    forall c | 0 <= c < |v.origins| ensures StemsFrom(v, c, v.origins[c]) { assert StemsFrom(u, c, u.origins[c]); }
  }

  lemma ReachKeepsTraces(w: World, t: nat, request: Backend.Request)
    requires Traceable(w) && Enabled(w, ReachServer(t, request))
    ensures Traceable(Apply(w, ReachServer(t, request)))
  {
    var v := Apply(w, ReachServer(t, request));
    ReachKeepsLinks(w, t, request);
    CommandsStay(w, Dispatch.Begin(request));
    forall i | 0 <= i < |v.server.invocations| ensures CommandOk(v, i) {
      assert CommandOk(w.(server := v.server), i);
    }
  }

  /** Traces depend on neither the answers on their way nor anything else that is left out here. */
  lemma AnswersDoNotMatter(w: World, turnAnswers: map<nat, Agent.Answer>, deliveryAnswers: map<nat, Agent.Answer>)
    requires Traceable(w)
    ensures Traceable(w.(turnAnswers := turnAnswers, deliveryAnswers := deliveryAnswers))
  {
    var v := w.(turnAnswers := turnAnswers, deliveryAnswers := deliveryAnswers);
    forall t | t in v.links ensures LinkOk(v, t) { assert LinkOk(w, t); }
    forall c | 0 <= c < |v.origins| ensures StemsFrom(v, c, v.origins[c]) { assert StemsFrom(w, c, w.origins[c]); }
    forall i | 0 <= i < |v.server.invocations| ensures CommandOk(v, i) { assert CommandOk(w, i); }
  }

  lemma AgentKeepsTraces(w: World, step: Agent.Step, deliveryAnswers: map<nat, Agent.Answer>)
    requires Traceable(w) && Agent.Enabled(w.agent, step) && AddsNoDelivery(step)
    ensures Traceable(w.(agent := Agent.Apply(w.agent, step), deliveryAnswers := deliveryAnswers))
  {
    AgentMovesTraces(w, step);
    AnswersDoNotMatter(w.(agent := Agent.Apply(w.agent, step)), w.turnAnswers, deliveryAnswers);
  }

  lemma StepKeepsTraces(w: World, step: Step)
    requires Inv(w) && Traceable(w) && Enabled(w, step)
    ensures Traceable(Apply(w, step))
  {
    match step
    case OnServer(st) => ServerMovesTraces(w, st);
    case OnAgent(st) => AgentKeepsTraces(w, st, Apply(w, step).deliveryAnswers);
    case ReachServer(t, request) => ReachKeepsTraces(w, t, request);
    case CommandEnds(i, command, result) => CommandKeepsTraces(w, i, command, result);
    case ForwardReplies(t) => ReplyKeepsTraces(w, t);
    case ServeTurn(t) => AnswersDoNotMatter(w, Apply(w, step).turnAnswers, w.deliveryAnswers);
    case TurnReceives(t) => AgentKeepsTraces(w, Agent.PollAnswered(t, w.turnAnswers[t]), w.deliveryAnswers);
    case ServeDelivery(c) => AnswersDoNotMatter(w, w.turnAnswers, Apply(w, step).deliveryAnswers);
    case DeliveryReceives(c) =>
      AgentKeepsTraces(w, Agent.DeliveryAnswered(c, w.deliveryAnswers[c]), w.deliveryAnswers - {c});
  }

  lemma {:induction false} RunKeepsTraces(w: World, steps: seq<Step>)
    requires Inv(w) && Traceable(w) && Runs(w, steps)
    ensures Inv(Final(w, steps)) && Traceable(Final(w, steps))
    ensures Final(w, steps).http == w.http && Final(w, steps).adapter == w.adapter
    decreases |steps|
  {
    if steps != [] {
      Delivery.StepKeepsInv(w, steps[0]);
      StepKeepsTraces(w, steps[0]);
      RunKeepsTraces(Apply(w, steps[0]), steps[1..]);
    }
  }

  // ---------- One task, one utterance, one result ----------

  /** Task `id` is the one that invocation `i` was accepted as. */
  predicate AcceptedAs(w: World, i: nat, id: string) {
    i < |w.server.invocations| && w.server.invocations[i].caller == Dispatch.GotAccepted(id)
  }

  /** Two invocations are never accepted as the same task. */
  lemma AcceptedOnce(w: World, i: nat, j: nat, id: string)
    requires Inv(w) && AcceptedAs(w, i, id) && AcceptedAs(w, j, id)
    ensures i == j
  {
    assert Dispatch.Owns(w.server, i, id) && Dispatch.Owns(w.server, j, id);
  }

  /** Two deliveries are never for the same task. */
  lemma DeliveriesDiffer(w: World, c: nat, d: nat)
    requires Inv(w) && Traceable(w) && c < |w.agent.deliveries| && d < |w.agent.deliveries|
    requires w.agent.deliveries[c].task.id == w.agent.deliveries[d].task.id
    ensures c == d
  {
    var t, u, id := w.origins[c], w.origins[d], w.agent.deliveries[c].task.id;
    assert StemsFrom(w, c, t) && StemsFrom(w, d, u);
    AcceptedOnce(w, w.links[t].invocation, w.links[u].invocation, id);
  }

  /** In every run of the whole system, no task is delivered by two coroutines, and each is notified at most once. */
  lemma EachTaskIsNotifiedOnce(start: World, steps: seq<Step>, j: nat, k: nat)
    requires Init(start) && Runs(start, steps)
    requires j < |Final(start, steps).agent.notifications| && k < |Final(start, steps).agent.notifications|
    requires Final(start, steps).agent.notifications[j].id == Final(start, steps).agent.notifications[k].id
    ensures j == k
  {
    RunKeepsTraces(start, steps);
    var w := Final(start, steps);
    var m, n := w.agent.notifications[j], w.agent.notifications[k];
    assert Agent.NotificationOk(w.agent, m) && Agent.NotificationOk(w.agent, n);
    DeliveriesDiffer(w, m.coroutine, n.coroutine);
  }

  /** How the result of a backend call is reported, if it is reported at all. */
  function ResultReport(result: Dispatch.CallResult): Agent.Report {
    match Dispatch.TaskFailure(result)
    case Some(e) => Agent.Unavailable(Agent.Or(e.message, Agent.UNKNOWN_ERROR))
    case None => Agent.Done(Agent.Or(if result.resp.Some? then result.resp.value.output else "", Agent.EMPTY_OUTPUT))
  }

  /** A finished record that holds a result is reported as that result. */
  lemma RecordedIsReported(rec: TaskStore.Record, result: Dispatch.CallResult)
    requires Dispatch.RecordsResult(rec, result)
    ensures OutcomeReport(rec) == ResultReport(result)
  {
  }

  /** The terminal record of an accepted task holds the result of its own backend call. */
  lemma TerminalHoldsOwnResult(w: World, i: nat, id: string)
    requires Inv(w) && AcceptedAs(w, i, id) && id in w.server.store && TaskStore.Terminal(w.server.store[id])
    ensures Dispatch.HasSent(w.server.invocations[i])
    ensures Dispatch.RecordsResult(w.server.store[id], w.server.invocations[i].backend.result)
  {
    assert Dispatch.InvocationOk(w.server.hasStore, w.server.store, w.server.invocations[i]);
  }

  lemma HeardIsFollowed(w: World, id: string, r: Agent.Report) returns (c: nat)
    requires Inv(w) && Traceable(w) && Heard(w.agent, id, r)
    ensures c < |w.agent.deliveries| && w.agent.deliveries[c].task.id == id
  {
    if k :| 0 <= k < |w.agent.notifications| && w.agent.notifications[k].id == id
            && w.agent.notifications[k].report == r {
      assert Agent.NotificationOk(w.agent, w.agent.notifications[k]);
      c := w.agent.notifications[k].coroutine;
    } else {
      var t :| 0 <= t < |w.agent.turns| && w.agent.turns[t] == Agent.Spoken(Agent.SayReport(id, r));
      assert Agent.TurnFollowed(w.agent, w.agent.turns[t]);
      c :| 0 <= c < |w.agent.deliveries| && w.agent.deliveries[c].task.id == id;
    }
  }

  /** Delivery `c` of turn `t`, served by invocation `i`, is of task `id`, and `r` reports that invocation's result. */
  ghost predicate OwnReport(w: World, id: string, r: Agent.Report, c: nat, t: nat, i: nat) {
    && c < |w.agent.deliveries| && c < |w.origins| && w.origins[c] == t
    && t in w.links && w.links[t].invocation == i && AcceptedAs(w, i, id)
    && w.agent.deliveries[c].task == Agent.Task(id, w.links[t].text)
    && var inv := w.server.invocations[i];
       && w.http(w.links[t].text, inv.request)
       && Dispatch.HasSent(inv) && r == ResultReport(inv.backend.result)
       && i in w.commands && Gives(w.adapter, inv.request, w.commands[i], inv.backend.result)
  }

  lemma HeardIsOwn(w: World, id: string, r: Agent.Report) returns (c: nat, t: nat, i: nat)
    requires Inv(w) && Traceable(w) && Heard(w.agent, id, r)
    ensures OwnReport(w, id, r, c, t, i)
  {
    HeardIsStored(w, id, r);
    c := HeardIsFollowed(w, id, r);
    t := w.origins[c];
    assert StemsFrom(w, c, t) && LinkOk(w, t);
    i := w.links[t].invocation;
    TerminalHoldsOwnResult(w, i, id);
    RecordedIsReported(w.server.store[id], w.server.invocations[i].backend.result);
    assert CommandOk(w, i);
  }

  /**
   Results are never mixed up between tasks: in every run of the whole system, a report on a task
   belongs to one utterance, whose turn was served by the one invocation that was accepted as this
   task, and it tells what that invocation's own backend call, for a request made of that utterance,
   came to.
   */
  lemma ReportsTellTheOwnResult(start: World, steps: seq<Step>, id: string, r: Agent.Report)
    returns (c: nat, t: nat, i: nat)
    requires Init(start) && Runs(start, steps) && Heard(Final(start, steps).agent, id, r)
    ensures OwnReport(Final(start, steps), id, r, c, t, i)
    ensures Final(start, steps).http == start.http && Final(start, steps).adapter == start.adapter
  {
    RunKeepsTraces(start, steps);
    c, t, i := HeardIsOwn(Final(start, steps), id, r);
  }

  // ---------- From the spoken words to the spoken answer ----------

  /** What a command for a valid request is reported as. */
  function CommandReport(cfg: HermesAdapter.Config, req: Backend.Request, command: Command): Agent.Report {
    if HermesAdapter.Delivered(cfg, req, command) then Agent.Done(HermesCli.Answer(command.value.stdout))
    else if command.Err? && command.error.interrupted then Agent.Unavailable("backend temporarily unavailable")
    else Agent.Unavailable("backend invocation failed")
  }

  /** A command's answer is reported word for word, and a refusal by its cause. */
  lemma AnswerIsReported(cfg: HermesAdapter.Config, req: Backend.Request, command: Command, r: Dispatch.CallResult)
    requires HermesAdapter.Answers(cfg, req, command, r) && Backend.Validate(req).None?
    ensures ResultReport(r) == CommandReport(cfg, req, command)
  {
    if HermesAdapter.Delivered(cfg, req, command) {
      assert TrimSpace("") == "";
    } else {
      HermesAdapter.RefusalIsStored(r.err.value, HermesAdapter.Cause(req, command));
    }
  }

  /** The endpoint of the program makes only valid requests, with the cleaned words of the utterance as input. */
  lemma PostedIsClean(cfg: DevClient.HandlerConfig, text: string, q: Backend.Request)
    requires DevClient.Served(cfg) && Posts(cfg, text, q)
    ensures Backend.Validate(q).None? && q.input == Sentence(CleanupDefaults.CleanWords(Fields(text)))
  {
    var req: DevClient.DevTextRequest :|
      req.input == text && req.text == "" && DevClient.Prepared(cfg, true, DevClient.Decoded(req)) == Ok(q);
    DevClient.EveryRequestIsValid(cfg, true, DevClient.Decoded(req));
    DevClient.ReachesBackendIff(cfg, true, DevClient.Decoded(req));
  }

  /** An endpoint that makes only valid requests, for the cleaned words of the utterance. */
  ghost predicate CleanEndpoint(http: Endpoint) {
    forall text, q | http(text, q) ::
      Backend.Validate(q).None? && q.input == Sentence(CleanupDefaults.CleanWords(Fields(text)))
  }

  lemma ProgramEndpointIsClean(cfg: DevClient.HandlerConfig)
    requires DevClient.Served(cfg)
    ensures CleanEndpoint(EndpointOf(cfg))
  {
    forall text, q | EndpointOf(cfg)(text, q)
      ensures Backend.Validate(q).None? && q.input == Sentence(CleanupDefaults.CleanWords(Fields(text)))
    {
      PostedIsClean(cfg, text, q);
    }
  }

  /** The same as below, for any endpoint that is clean. */
  lemma ReportsTellTheCommand(start: World, steps: seq<Step>, id: string, r: Agent.Report)
    returns (c: nat, i: nat)
    requires Init(start) && Runs(start, steps) && Heard(Final(start, steps).agent, id, r)
    requires CleanEndpoint(start.http) && start.adapter.Cli?
    ensures var w := Final(start, steps);
      && c < |w.agent.deliveries| && w.agent.deliveries[c].task.id == id && AcceptedAs(w, i, id) && i in w.commands
      && var req := w.server.invocations[i].request;
         && req.input == Sentence(CleanupDefaults.CleanWords(Fields(w.agent.deliveries[c].task.text)))
         && r == CommandReport(start.adapter.config, req, w.commands[i])
  {
    var t;
    c, t, i := ReportsTellTheOwnResult(start, steps, id, r);
    var w := Final(start, steps);
    var inv := w.server.invocations[i];
    AnswerIsReported(start.adapter.config, inv.request, w.commands[i], inv.backend.result);
  }

  /**
   End to end, for the program's endpoint and the Hermes CLI adapter: whatever is reported on a task is
   the parsed answer of the one command that was run on the cleaned words of that task's utterance, if
   that command delivered one, and otherwise one of two messages that tell an interruption from a failure.
   */
  lemma ReportsTellTheOwnCommand(start: World, steps: seq<Step>, cfg: DevClient.HandlerConfig, id: string,
                                 r: Agent.Report)
    returns (c: nat, i: nat)
    requires Init(start) && Runs(start, steps) && Heard(Final(start, steps).agent, id, r)
    requires start.http == EndpointOf(cfg) && DevClient.Served(cfg) && start.adapter.Cli?
    ensures var w := Final(start, steps);
      && c < |w.agent.deliveries| && w.agent.deliveries[c].task.id == id && AcceptedAs(w, i, id) && i in w.commands
      && var req := w.server.invocations[i].request;
         && req.input == Sentence(CleanupDefaults.CleanWords(Fields(w.agent.deliveries[c].task.text)))
         && r == CommandReport(start.adapter.config, req, w.commands[i])
  {
    ProgramEndpointIsClean(cfg);
    c, i := ReportsTellTheCommand(start, steps, id, r);
  }
}
