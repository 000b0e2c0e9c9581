/**
 What the user gets to hear, and when: the reply to each utterance, and the way from a finished record
 to a report on it.
 */
module Conversation {
  import opened Delivery
  import opened Provenance
  import opened Text
  import opened Wrappers
  import Agent
  import Backend
  import CleanupDefaults
  import DevClient
  import Dispatch
  import HermesAdapter
  import HermesCli
  import TaskIds
  import TaskStore

  // ---------- The reply to an utterance ----------

  /** Turn `t` waits for the reply of invocation `i`. */
  ghost predicate Awaits(w: World, t: nat, i: nat) {
    && t in w.links && w.links[t].invocation == i && i < |w.server.invocations|
    && t < |w.agent.turns| && w.agent.turns[t].Forwarding?
  }

  /** The reply to turn `t` is spoken as it is, and nothing else happens. */
  ghost predicate SpeaksReply(w: World, t: nat, answer: Agent.ForwardAnswer) {
    && Enabled(w, ForwardReplies(t))
    && Apply(w, ForwardReplies(t)).agent
       == w.agent.(turns := w.agent.turns[t := Agent.Spoken(Agent.SayForwarded(answer))])
  }

  lemma ReplyIsSpoken(w: World, t: nat, i: nat, answer: Agent.ForwardAnswer)
    requires Awaits(w, t, i) && Dispatch.HasReturned(w.server.invocations[i]) && Reply(w.server.invocations[i]) == answer
    requires !answer.ForwardAccepted?
    ensures SpeaksReply(w, t, answer)
  {
    Agent.OtherReplyIsSpoken(w.agent, t, answer);
  }

  /** A fast result is replied with its own status and output, or with its own error. */
  lemma FastResultIsSpoken(w: World, t: nat, i: nat, result: Dispatch.CallResult)
    requires Awaits(w, t, i) && w.server.invocations[i].caller == Dispatch.GotResult(result)
    ensures result.err.Some? ==>
              SpeaksReply(w, t, Agent.ForwardError(DevClient.BackendErrorStatus(result.err.value).1))
    ensures result.err.None? && result.resp.None? ==>
              SpeaksReply(w, t, Agent.ForwardError("backend returned nil response"))
    ensures result.err.None? && result.resp.Some? ==>
              var resp := result.resp.value;
              && (resp.status == Backend.Completed ==> SpeaksReply(w, t, Agent.ForwardOther("completed", resp.output)))
              && (resp.status == Backend.Failed ==> SpeaksReply(w, t, Agent.ForwardOther("failed", resp.output)))
              && (resp.status.OtherStatus? ==> SpeaksReply(w, t, Agent.ForwardOther(resp.status.name, resp.output)))
  {
    var inv := w.server.invocations[i];
    if !Reply(inv).ForwardAccepted? { ReplyIsSpoken(w, t, i, Reply(inv)); }
  }

  /** A call that was canceled, or whose task could not be recorded, is replied with an error that tells nothing. */
  lemma LostCallIsSpoken(w: World, t: nat, i: nat)
    requires Awaits(w, t, i)
    requires w.server.invocations[i].caller.GotCanceled? || w.server.invocations[i].caller.GotStoreError?
    ensures SpeaksReply(w, t, Agent.ForwardError("internal error"))
  {
    ReplyIsSpoken(w, t, i, Agent.ForwardError("internal error"));
  }

  /** An accepted call makes its task the last one, pending, with a new coroutine, under the turn's own text. */
  lemma AcceptedCallIsFollowed(w: World, t: nat, i: nat, id: string)
    requires Awaits(w, t, i) && w.server.invocations[i].caller == Dispatch.GotAccepted(id) && id != ""
    ensures Enabled(w, ForwardReplies(t))
    ensures var task, a := Agent.Task(id, w.agent.turns[t].text), Apply(w, ForwardReplies(t)).agent;
      && a.turns == w.agent.turns[t := Agent.Spoken(Agent.SayTaskAccepted)] && a.last == Some(task)
      && a.pending == w.agent.pending[id := task] && a.notifications == w.agent.notifications
      && a.deliveries == w.agent.deliveries + [Agent.Delivery(task, Agent.Scheduled)]
  {
  }

  /**
   An error that is not of a context is replied with the same code and message that would be stored for it,
   under a status of its own; only an unknown error is told apart from what is stored.
   */
  lemma FastAndStoredErrorsAgree(e: Backend.Error)
    requires Backend.ContextCanceled !in e.wraps && Backend.DeadlineExceeded !in e.wraps
    ensures var n := Dispatch.FirstCause(e, 0);
      && 2 <= n <= 6
      && (n < 6 ==> var stored := Dispatch.SafeTaskError(e);
                    DevClient.BackendErrorStatus(e)
                    == (DevClient.ErrorReply([400, 401, 503, 502][n - 2], stored.code), stored.message))
      && (n == 6 ==> DevClient.BackendErrorStatus(e) == (DevClient.ErrorReply(500, "internal_error"), "internal error"))
  {
    Dispatch.FirstCauseIsStored(e);
    assert Dispatch.CAUSES[0] == Backend.ContextCanceled && Dispatch.CAUSES[1] == Backend.DeadlineExceeded;
    assert Dispatch.CAUSES[2] == Backend.InvalidRequest && Dispatch.CAUSES[3] == Backend.Unauthorized;
    assert Dispatch.CAUSES[4] == Backend.Temporary && Dispatch.CAUSES[5] == Backend.InvocationFailed;
  }

  /** How a refusal by the adapter is replied: an interruption or a failure. */
  lemma FastRefusalTells(e: Backend.Error, cause: Backend.Sentinel)
    requires e.wraps == {cause}
    ensures cause == Backend.Temporary ==> DevClient.BackendErrorStatus(e).1 == "backend temporarily unavailable"
    ensures cause == Backend.InvocationFailed ==> DevClient.BackendErrorStatus(e).1 == "backend invocation failed"
  {
  }

  /** The reply to turn `t` is the parsed answer of command `i`, or tells an interruption from a failure. */
  ghost predicate SpeaksCommand(w: World, config: HermesAdapter.Config, t: nat, i: nat)
    requires i < |w.server.invocations| && i in w.commands
  {
    var command := w.commands[i];
    SpeaksReply(w, t,
      if HermesAdapter.Delivered(config, w.server.invocations[i].request, command) then
        Agent.ForwardOther("completed", HermesCli.Answer(command.value.stdout))
      else if command.Err? && command.error.interrupted then Agent.ForwardError("backend temporarily unavailable")
      else Agent.ForwardError("backend invocation failed"))
  }

  /** The result that a waiting turn gets is what its own command came to, for a request made of its own text. */
  lemma OwnResult(w: World, t: nat, i: nat) returns (result: Dispatch.CallResult)
    requires Inv(w) && Traceable(w) && Awaits(w, t, i) && w.server.invocations[i].caller.GotResult?
    ensures w.server.invocations[i].caller == Dispatch.GotResult(result)
    ensures w.http(w.agent.turns[t].text, w.server.invocations[i].request)
    ensures i in w.commands && Gives(w.adapter, w.server.invocations[i].request, w.commands[i], result)
  {
    assert LinkOk(w, t) && CommandOk(w, i);
    assert Dispatch.InvocationOk(w.server.hasStore, w.server.store, w.server.invocations[i]);
    result := w.server.invocations[i].caller.result;
  }

  lemma CommandIsSpoken(w: World, config: HermesAdapter.Config, t: nat, i: nat, result: Dispatch.CallResult)
    requires Awaits(w, t, i) && w.server.invocations[i].caller == Dispatch.GotResult(result) && i in w.commands
    requires Backend.Validate(w.server.invocations[i].request).None?
    requires HermesAdapter.Answers(config, w.server.invocations[i].request, w.commands[i], result)
    ensures SpeaksCommand(w, config, t, i)
  {
    FastResultIsSpoken(w, t, i, result);
    if result.err.Some? {
      FastRefusalTells(result.err.value, HermesAdapter.Cause(w.server.invocations[i].request, w.commands[i]));
    }
  }

  /**
   The fast answer, end to end, for the program's endpoint and the Hermes CLI adapter: in every run, a turn
   whose call returned in time is answered with the parsed answer of its own command, which was run on the
   cleaned words of that very turn, if the command delivered one, and otherwise with an error that tells an
   interruption from a failure.
   */
  lemma FastAnswerIsTheOwnCommand(start: World, steps: seq<Step>, cfg: DevClient.HandlerConfig, t: nat, i: nat)
    requires Init(start) && Runs(start, steps)
    requires start.http == EndpointOf(cfg) && DevClient.Served(cfg) && start.adapter.Cli?
    requires Awaits(Final(start, steps), t, i) && Final(start, steps).server.invocations[i].caller.GotResult?
    ensures var w := Final(start, steps);
      && i in w.commands && SpeaksCommand(w, start.adapter.config, t, i)
      && w.server.invocations[i].request.input == Sentence(CleanupDefaults.CleanWords(Fields(w.agent.turns[t].text)))
  {
    ProgramEndpointIsClean(cfg);
    FastAnswerIsTheCommand(start, steps, t, i);
  }

  /** The same for any endpoint that is clean. */
  lemma FastAnswerIsTheCommand(start: World, steps: seq<Step>, t: nat, i: nat)
    requires Init(start) && Runs(start, steps) && CleanEndpoint(start.http) && start.adapter.Cli?
    requires Awaits(Final(start, steps), t, i) && Final(start, steps).server.invocations[i].caller.GotResult?
    ensures var w := Final(start, steps);
      && i in w.commands && SpeaksCommand(w, start.adapter.config, t, i)
      && w.server.invocations[i].request.input == Sentence(CleanupDefaults.CleanWords(Fields(w.agent.turns[t].text)))
  {
    Provenance.RunKeepsTraces(start, steps);
    var w := Final(start, steps);
    var result := OwnResult(w, t, i);
    CommandIsSpoken(w, w.adapter.config, t, i, result);
  }

  // ---------- From a finished record to a report ----------

  /** An answer is on its way only to a coroutine that polls. */
  ghost predicate NoStrayAnswers(w: World) {
    forall c | c in w.deliveryAnswers :: c < |w.agent.deliveries| && w.agent.deliveries[c].phase == Agent.Polling
  }

  lemma StepKeepsNoStray(w: World, step: Step)
    requires NoStrayAnswers(w) && Enabled(w, step)
    ensures NoStrayAnswers(Apply(w, step))
  {
  }

  lemma {:induction false} RunKeepsNoStray(w: World, steps: seq<Step>)
    requires NoStrayAnswers(w) && Runs(w, steps)
    ensures NoStrayAnswers(Final(w, steps))
    decreases |steps|
  {
    if steps != [] {
      StepKeepsNoStray(w, steps[0]);
      RunKeepsNoStray(Apply(w, steps[0]), steps[1..]);
    }
  }

  /** A coroutine wakes up, its poll is served, and the answer arrives, with nothing in between. */
  ghost predicate PollsThrough(w: World, c: nat, v: World) {
    && Enabled(w, OnAgent(Agent.DeliveryWakes(c)))
    && var w1 := Apply(w, OnAgent(Agent.DeliveryWakes(c)));
       && Enabled(w1, ServeDelivery(c))
       && var w2 := Apply(w1, ServeDelivery(c));
          Enabled(w2, DeliveryReceives(c)) && Apply(w2, DeliveryReceives(c)) == v
  }

  /** A known record is reported by its outcome as soon as it is finished, and by nothing before. */
  lemma KnownAnswerIs(w: World, id: string)
    requires Inv(w) && Known(w.server.store, id)
    ensures var rec, a := w.server.store[id], DevTask(w.server.store, TaskIds.TASK_PREFIX + id);
      && (Agent.Decisive(a) <==> TaskStore.Terminal(rec)) && !a.Unreachable?
      && (TaskStore.Terminal(rec) ==> Agent.ReportOf(a) == OutcomeReport(rec) && !OutcomeReport(rec).UnknownStatus?)
  {
    ServedAnswerOk(w.server.store, id);
    assert TaskStore.RecordOk(id, w.server.store[id]);
  }

  lemma DeliveryPolls(w: World, c: nat) returns (v: World)
    requires Inv(w) && NoStrayAnswers(w) && c < |w.agent.deliveries| && w.agent.deliveries[c].phase == Agent.Sleeping
    ensures PollsThrough(w, c, v)
    ensures var id := w.agent.deliveries[c].task.id;
      var woken := Agent.Apply(w.agent, Agent.DeliveryWakes(c));
      var step := Agent.DeliveryAnswered(c, DevTask(w.server.store, TaskIds.TASK_PREFIX + id));
      Agent.Enabled(w.agent, Agent.DeliveryWakes(c)) && Agent.Enabled(woken, step)
      && v.agent == Agent.Apply(woken, step) && v.server == w.server
  {
    var w1 := Apply(w, OnAgent(Agent.DeliveryWakes(c)));
    var w2 := Apply(w1, ServeDelivery(c));
    v := Apply(w2, DeliveryReceives(c));
  }

  /** From `w` to `v`, coroutine `c` has told the outcome of its task if that is finished, and nothing otherwise. */
  ghost predicate TellsOutcome(w: World, c: nat, v: World)
    requires c < |w.agent.deliveries|
  {
    var id := w.agent.deliveries[c].task.id;
    && id in w.server.store && v.server == w.server && |v.agent.deliveries| == |w.agent.deliveries|
    && if TaskStore.Terminal(w.server.store[id]) then
         && v.agent.notifications
            == w.agent.notifications + [Agent.Notification(c, id, OutcomeReport(w.server.store[id]))]
         && id !in v.agent.pending && v.agent.deliveries[c].phase == Agent.Ended
       else v.agent.notifications == w.agent.notifications && v.agent.pending == w.agent.pending
  }

  lemma SleeperTells(w: World, c: nat) returns (v: World)
    requires Inv(w) && NoStrayAnswers(w) && c < |w.agent.deliveries| && w.agent.deliveries[c].phase == Agent.Sleeping
    ensures PollsThrough(w, c, v) && TellsOutcome(w, c, v)
  {
    v := DeliveryPolls(w, c);
    KnownAnswerIs(w, w.agent.deliveries[c].task.id);
  }

  /**
   In every run: a sleeping coroutine may wake up and poll at any time. If the record of its task is finished
   by then, one notification tells the stored outcome and the coroutine ends; if not, nothing is told and the
   task stays pending.
   */
  lemma FinishedTaskIsNotified(start: World, steps: seq<Step>, c: nat) returns (v: World)
    requires Init(start) && Runs(start, steps)
    requires c < |Final(start, steps).agent.deliveries|
    requires Final(start, steps).agent.deliveries[c].phase == Agent.Sleeping
    ensures PollsThrough(Final(start, steps), c, v) && TellsOutcome(Final(start, steps), c, v)
  {
    Delivery.RunKeepsInv(start, steps);
    RunKeepsNoStray(start, steps);
    v := SleeperTells(Final(start, steps), c);
  }

  /** The status question is asked, its poll is served, and the answer arrives, with nothing in between. */
  ghost predicate AsksThrough(w: World, v: World) {
    var t := |w.agent.turns|;
    && Enabled(w, OnAgent(Agent.StartPoll))
    && var w1 := Apply(w, OnAgent(Agent.StartPoll));
       && Enabled(w1, ServeTurn(t))
       && var w2 := Apply(w1, ServeTurn(t));
          Enabled(w2, TurnReceives(t)) && Apply(w2, TurnReceives(t)) == v
  }

  lemma QuestionPolls(w: World) returns (v: World)
    requires Inv(w) && w.agent.last.Some?
    ensures AsksThrough(w, v)
    ensures var t, asked := |w.agent.turns|, Agent.Apply(w.agent, Agent.StartPoll);
      var step := Agent.PollAnswered(t, DevTask(w.server.store, TaskIds.TASK_PREFIX + w.agent.last.value.id));
      Agent.Enabled(asked, step) && v.agent == Agent.Apply(asked, step)
  {
    var t := |w.agent.turns|;
    var w1 := Apply(w, OnAgent(Agent.StartPoll));
    var w2 := Apply(w1, ServeTurn(t));
    v := Apply(w2, TurnReceives(t));
  }

  /** From `w` to `v`, the question is answered by the outcome of the last task if that is finished. */
  ghost predicate AnswersQuestion(w: World, v: World)
    requires w.agent.last.Some?
  {
    var t, id := |w.agent.turns|, w.agent.last.value.id;
    && id in w.server.store && t < |v.agent.turns|
    && v.agent.turns[t] == Agent.Spoken(
         if TaskStore.Terminal(w.server.store[id]) then Agent.SayReport(id, OutcomeReport(w.server.store[id]))
         else Agent.SayStillRunning)
  }

  lemma QuestionIsAnswered(w: World) returns (v: World)
    requires Inv(w) && w.agent.last.Some?
    ensures AsksThrough(w, v) && AnswersQuestion(w, v)
  {
    KnownAnswerIs(w, w.agent.last.value.id);
    v := QuestionPolls(w);
  }

  /**
   In every run: the status question may be asked at any time there is a last task. Its poll is answered by
   the stored outcome of that task if the record is finished, and otherwise by saying that it still runs.
   */
  lemma StatusQuestionIsAnswered(start: World, steps: seq<Step>) returns (v: World)
    requires Init(start) && Runs(start, steps) && Final(start, steps).agent.last.Some?
    ensures AsksThrough(Final(start, steps), v) && AnswersQuestion(Final(start, steps), v)
  {
    Delivery.RunKeepsInv(start, steps);
    v := QuestionIsAnswered(Final(start, steps));
  }
}
