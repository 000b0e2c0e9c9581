/**
 The Home Assistant agent of conversation.py as a cooperative state machine: conversation turns and
 delivery coroutines that run without interruption between awaits. Each step is the code from one
 await to the next.
 */
module Agent {
  import opened Wrappers
  import TaskStore

  /** LastAcceptedTask and PendingTask. */
  datatype Task = Task(id: string, text: string)

  /** What a task poll brings back. A failed transfer raises; an error object wins over any status. */
  datatype Answer =
    | Unreachable
    | ErrorPayload(message: string)
    | StatusAnswer(status: TaskStore.Status, output: string)

  /** What the text endpoint answers to a forwarded utterance. */
  datatype ForwardAnswer =
    | ForwardUnreachable
    | ForwardError(message: string)
    | ForwardAccepted(taskID: string)
    | ForwardOther(status: string, output: string)

  /** A final report on a task, spoken or in a notification. */
  datatype Report =
    | Unavailable(message: string)
    | Done(output: string)
    | Broken(message: string)
    | UnknownStatus(name: string)

  datatype Speech =
    | SayNoTask
    | SayUnreachable
    | SayStillRunning
    | SayTaskAccepted
    | SayForwarded(answer: ForwardAnswer)
    | SayReport(id: string, report: Report)

  datatype Turn =
    | Forwarding(text: string)
    | PollingLast(task: Task)
    | Spoken(speech: Speech)

  datatype Phase = Scheduled | Sleeping | Polling | Ended

  datatype Delivery = Delivery(task: Task, phase: Phase)

  /** A persistent notification, with the delivery coroutine that created it. */
  datatype Notification = Notification(coroutine: nat, id: string, report: Report)

  /** `warned` are the tasks whose unknown status was only logged. */
  datatype State = State(
    last: Option<Task>, pending: map<string, Task>, deliveries: seq<Delivery>, turns: seq<Turn>,
    notifications: seq<Notification>, warned: set<string>)

  const INITIAL := State(None, map[], [], [], [], {})

  datatype Step =
    | StartForward(text: string)
    | ForwardAnswered(t: nat, forwarded: ForwardAnswer)
    | StartPoll
    | PollAnswered(t: nat, answer: Answer)
    | DeliveryStarts(c: nat)
    | DeliveryWakes(c: nat)
    | DeliveryAnswered(c: nat, answer: Answer)

  // ---------- Reading an answer ----------

  function Or(s: string, fallback: string): string {
    if s == "" then fallback else s
  }

  const UNKNOWN_ERROR := "unknown error"
  const EMPTY_OUTPUT := "Задача завершилась, но результат пустой."
  const FAILED_MESSAGE := "Hermes Voice сообщил о неуспешном выполнении."

  /** A poll that settles the task: neither a failed transfer nor the accepted status. */
  predicate Decisive(a: Answer) {
    a.ErrorPayload? || (a.StatusAnswer? && a.status != TaskStore.Accepted)
  }

  function StatusName(s: TaskStore.Status): string {
    match s
    case Accepted => "accepted"
    case Completed => "completed"
    case Failed => "failed"
    case OtherStatus(name) => name
  }

  function ReportOf(a: Answer): Report
    requires Decisive(a)
  {
    if a.ErrorPayload? then Unavailable(Or(a.message, UNKNOWN_ERROR))
    else if a.status == TaskStore.Completed then Done(Or(a.output, EMPTY_OUTPUT))
    else if a.status == TaskStore.Failed then Broken(FAILED_MESSAGE)
    else UnknownStatus(StatusName(a.status))
  }

  // ---------- Steps ----------

  predicate Enabled(s: State, step: Step) {
    match step
    case StartForward(_) => true
    case StartPoll => true
    case ForwardAnswered(t, _) => t < |s.turns| && s.turns[t].Forwarding?
    case PollAnswered(t, _) => t < |s.turns| && s.turns[t].PollingLast?
    case DeliveryStarts(c) => c < |s.deliveries| && s.deliveries[c].phase == Scheduled
    case DeliveryWakes(c) => c < |s.deliveries| && s.deliveries[c].phase == Sleeping
    case DeliveryAnswered(c, _) => c < |s.deliveries| && s.deliveries[c].phase == Polling
  }

  function Speak(s: State, t: nat, speech: Speech): State
    requires t < |s.turns|
  {
    s.(turns := s.turns[t := Spoken(speech)])
  }

  /** _enqueue_pending_task */
  function Enqueue(s: State, task: Task): State {
    s.(pending := s.pending[task.id := task], deliveries := s.deliveries + [Delivery(task, Scheduled)])
  }

  /** _forward_to_hermes after its await */
  function Forwarded(s: State, t: nat, text: string, answer: ForwardAnswer): State
    requires t < |s.turns|
  {
    if answer.ForwardAccepted? && answer.taskID != "" then
      var task := Task(answer.taskID, text);
      Speak(Enqueue(s.(last := Some(task)), task), t, SayTaskAccepted)
    else Speak(s, t, SayForwarded(answer))
  }

  /** _poll_last_task after its await */
  function LastPolled(s: State, t: nat, task: Task, a: Answer): State
    requires t < |s.turns|
  {
    if a.Unreachable? then Speak(s, t, SayUnreachable)
    else if a.ErrorPayload? then Speak(s.(last := None), t, SayReport(task.id, ReportOf(a)))
    else if a.status == TaskStore.Accepted then Speak(s, t, SayStillRunning)
    else Speak(s.(last := None, pending := s.pending - {task.id}), t, SayReport(task.id, ReportOf(a)))
  }

  /** The loop test of _deliver_pending_task_when_ready */
  function LoopTest(s: State, c: nat): State
    requires c < |s.deliveries|
  {
    var d := s.deliveries[c];
    s.(deliveries := s.deliveries[c := d.(phase := if d.task.id in s.pending then Sleeping else Ended)])
  }

  /** _poll_pending_task_for_notification after its await */
  function DeliveryPolled(s: State, c: nat, task: Task, a: Answer): State {
    if !Decisive(a) then s
    else
      var popped := s.(pending := s.pending - {task.id});
      var told := popped.(notifications := s.notifications + [Notification(c, task.id, ReportOf(a))]);
      if a.ErrorPayload? then told
      else
        var cleared := if s.last.Some? && s.last.value.id == task.id then None else s.last;
        if ReportOf(a).UnknownStatus? then popped.(last := cleared, warned := s.warned + {task.id})
        else told.(last := cleared)
  }

  function Apply(s: State, step: Step): State
    requires Enabled(s, step)
  {
    match step
    case StartForward(text) => s.(turns := s.turns + [Forwarding(text)])
    case ForwardAnswered(t, answer) => Forwarded(s, t, s.turns[t].text, answer)
    case StartPoll =>
      s.(turns := s.turns + [if s.last.None? then Spoken(SayNoTask) else PollingLast(s.last.value)])
    case PollAnswered(t, answer) => LastPolled(s, t, s.turns[t].task, answer)
    case DeliveryStarts(c) => LoopTest(s, c)
    case DeliveryWakes(c) => s.(deliveries := s.deliveries[c := s.deliveries[c].(phase := Polling)])
    case DeliveryAnswered(c, answer) => LoopTest(DeliveryPolled(s, c, s.deliveries[c].task, answer), c)
  }

  // ---------- The invariant ----------

  /** Coroutine `c` is still at work on task `id`. */
  predicate Alive(s: State, c: nat, id: string) {
    c < |s.deliveries| && s.deliveries[c].task.id == id && s.deliveries[c].phase != Ended
  }

  ghost predicate PendingAlive(s: State) {
    forall id | id in s.pending :: exists c: nat :: Alive(s, c, id)
  }

  /** A notification comes from a coroutine for that very task which has ended. */
  predicate NotificationOk(s: State, n: Notification) {
    n.coroutine < |s.deliveries| && s.deliveries[n.coroutine] == Delivery(s.deliveries[n.coroutine].task, Ended)
    && s.deliveries[n.coroutine].task.id == n.id
  }

  ghost predicate NotificationsOk(s: State) {
    && (forall k | 0 <= k < |s.notifications| :: NotificationOk(s, s.notifications[k]))
    && (forall j, k | 0 <= j < k < |s.notifications| :: s.notifications[j].coroutine != s.notifications[k].coroutine)
  }

  predicate SaysReport(turn: Turn, id: string) {
    turn.Spoken? && turn.speech.SayReport? && turn.speech.id == id
  }

  /** The end of task `id` has been reported to the user, or only logged. */
  ghost predicate Told(s: State, id: string) {
    || (exists k :: 0 <= k < |s.notifications| && s.notifications[k].id == id)
    || (exists t :: 0 <= t < |s.turns| && SaysReport(s.turns[t], id))
    || id in s.warned
  }

  /** Task `id` still waits, or its end has been reported or logged. */
  ghost predicate Accounted(s: State, id: string) {
    id in s.pending || Told(s, id)
  }

  ghost predicate NothingLost(s: State) {
    forall c | 0 <= c < |s.deliveries| :: Accounted(s, s.deliveries[c].task.id)
  }

  /** The last task is still pending, or was notified as unavailable, which does not clear it. */
  ghost predicate LastOk(s: State) {
    s.last.Some? ==>
      || s.last.value.id in s.pending
      || exists k :: 0 <= k < |s.notifications| && s.notifications[k].id == s.last.value.id
                     && s.notifications[k].report.Unavailable?
  }

  ghost predicate Inv(s: State) {
    PendingAlive(s) && NotificationsOk(s) && NothingLost(s)
  }

  // ---------- Every step keeps it ----------

  /** Telling and warning only ever adds. */
  lemma ToldGrows(s: State, t: State, id: string)
    requires Told(s, id)
    requires s.notifications <= t.notifications && s.warned <= t.warned && |s.turns| <= |t.turns|
    requires forall k | 0 <= k < |s.turns| && s.turns[k].Spoken? :: t.turns[k] == s.turns[k]
    ensures Told(t, id)
  {
    if k :| 0 <= k < |s.notifications| && s.notifications[k].id == id {
      assert t.notifications[k].id == id;
    } else if k :| 0 <= k < |s.turns| && SaysReport(s.turns[k], id) {
      assert SaysReport(t.turns[k], id);
    }
  }

  /** What was said stays said. */
  ghost predicate Grows(s: State, t: State) {
    && s.notifications <= t.notifications && s.warned <= t.warned && |s.turns| <= |t.turns|
    && (forall k | 0 <= k < |s.turns| && s.turns[k].Spoken? :: t.turns[k] == s.turns[k])
  }

  lemma StepGrows(s: State, step: Step)
    requires Enabled(s, step)
    ensures Grows(s, Apply(s, step))
  {
  }

  /** A step that changes neither the pending map nor any delivery keeps the invariant. */
  lemma QuietStep(s: State, t: State)
    requires Inv(s) && Grows(s, t)
    requires t.pending == s.pending && t.deliveries == s.deliveries && t.notifications == s.notifications
    ensures Inv(t)
  {
    forall id | id in t.pending ensures exists c: nat :: Alive(t, c, id) {
      var c: nat :| Alive(s, c, id);
      assert Alive(t, c, id);
    }
    forall k | 0 <= k < |t.notifications| ensures NotificationOk(t, t.notifications[k]) {
      assert NotificationOk(s, s.notifications[k]);
    }
    forall c | 0 <= c < |t.deliveries| ensures Accounted(t, t.deliveries[c].task.id) {
      if s.deliveries[c].task.id !in s.pending { ToldGrows(s, t, s.deliveries[c].task.id); }
    }
  }

  lemma EnqueueKeeps(s: State, task: Task)
    requires Inv(s)
    ensures Inv(Enqueue(s, task))
  {
    var t := Enqueue(s, task);
    forall id | id in t.pending ensures exists c: nat :: Alive(t, c, id) {
      if id == task.id {
        assert Alive(t, |s.deliveries|, id);
      } else {
        var c: nat :| Alive(s, c, id);
        assert Alive(t, c, id);
      }
    }
    forall k | 0 <= k < |t.notifications| ensures NotificationOk(t, t.notifications[k]) {
      assert NotificationOk(s, s.notifications[k]);
    }
    forall c | 0 <= c < |t.deliveries| ensures Accounted(t, t.deliveries[c].task.id) {
      if c < |s.deliveries| && s.deliveries[c].task.id !in s.pending { ToldGrows(s, t, s.deliveries[c].task.id); }
    }
  }

  /** Dropping a task from the pending map is fine once its end has been told. */
  lemma PopKeeps(s: State, t: State, id: string)
    requires Inv(s) && Grows(s, t) && Told(t, id)
    requires t.pending == s.pending - {id} && t.deliveries == s.deliveries && t.notifications == s.notifications
    ensures Inv(t)
  {
    forall k | k in t.pending ensures exists c: nat :: Alive(t, c, k) {
      var c: nat :| Alive(s, c, k);
      assert Alive(t, c, k);
    }
    forall k | 0 <= k < |t.notifications| ensures NotificationOk(t, t.notifications[k]) {
      assert NotificationOk(s, s.notifications[k]);
    }
    forall c | 0 <= c < |t.deliveries| ensures Accounted(t, t.deliveries[c].task.id) {
      if s.deliveries[c].task.id !in s.pending { ToldGrows(s, t, s.deliveries[c].task.id); }
    }
  }

  /** The loop test of a live coroutine keeps the invariant, even right after a poll that told the end. */
  lemma LoopTestKeeps(s: State, c: nat)
    requires Inv(s) && c < |s.deliveries| && s.deliveries[c].phase != Ended
    ensures Inv(LoopTest(s, c))
  {
    var t := LoopTest(s, c);
    forall id | id in t.pending ensures exists k: nat :: Alive(t, k, id) {
      var k: nat :| Alive(s, k, id);
      assert Alive(t, k, id);
    }
    forall k | 0 <= k < |t.notifications| ensures NotificationOk(t, t.notifications[k]) {
      assert NotificationOk(s, s.notifications[k]);
    }
    forall k | 0 <= k < |t.deliveries| ensures Accounted(t, t.deliveries[k].task.id) {
      assert t.deliveries[k].task == s.deliveries[k].task;
      if s.deliveries[k].task.id !in s.pending { ToldGrows(s, t, s.deliveries[k].task.id); }
    }
  }

  /** A poll that settles the task: it leaves the map, its end is told, and this coroutine ends. */
  lemma FinalPollKeeps(s: State, c: nat, a: Answer)
    requires Inv(s) && Enabled(s, DeliveryAnswered(c, a)) && Decisive(a)
    ensures Inv(Apply(s, DeliveryAnswered(c, a)))
  {
    var id := s.deliveries[c].task.id;
    var t := Apply(s, DeliveryAnswered(c, a));
    assert t.deliveries == s.deliveries[c := Delivery(s.deliveries[c].task, Ended)];
    assert Told(t, id) by {
      if id !in t.warned { assert t.notifications[|s.notifications|].id == id; }
    }
    forall k | k in t.pending ensures exists j: nat :: Alive(t, j, k) {
      var j: nat :| Alive(s, j, k);
      assert Alive(t, j, k);
    }
    forall k | 0 <= k < |t.notifications| ensures NotificationOk(t, t.notifications[k]) {
      if k < |s.notifications| { assert NotificationOk(s, s.notifications[k]); }
    }
    forall j, k | 0 <= j < k < |t.notifications| ensures t.notifications[j].coroutine != t.notifications[k].coroutine {
      assert NotificationOk(s, s.notifications[j]);
    }
    forall k | 0 <= k < |t.deliveries| ensures Accounted(t, t.deliveries[k].task.id) {
      assert t.deliveries[k].task == s.deliveries[k].task;
      if s.deliveries[k].task.id !in s.pending { ToldGrows(s, t, s.deliveries[k].task.id); }
    }
  }

  lemma StepKeepsInv(s: State, step: Step)
    requires Inv(s) && Enabled(s, step)
    ensures Inv(Apply(s, step))
  {
    var t := Apply(s, step);
    StepGrows(s, step);
    match step
    case StartForward(_) => QuietStep(s, t);
    case StartPoll => QuietStep(s, t);
    case ForwardAnswered(k, answer) =>
      if answer.ForwardAccepted? && answer.taskID != "" {
        var task := Task(answer.taskID, s.turns[k].text);
        EnqueueKeeps(s, task);
        QuietStep(Enqueue(s, task), t);
      } else {
        QuietStep(s, t);
      }
    case PollAnswered(k, a) =>
      if a.StatusAnswer? && a.status != TaskStore.Accepted {
        assert SaysReport(t.turns[k], s.turns[k].task.id);
        PopKeeps(s, t, s.turns[k].task.id);
      } else {
        QuietStep(s, t);
      }
    case DeliveryStarts(c) => LoopTestKeeps(s, c);
    case DeliveryWakes(c) => WakeKeeps(s, c);
    case DeliveryAnswered(c, a) =>
      if Decisive(a) { FinalPollKeeps(s, c, a); } else { LoopTestKeeps(s, c); }
  }

  lemma WakeKeeps(s: State, c: nat)
    requires Inv(s) && Enabled(s, DeliveryWakes(c))
    ensures Inv(Apply(s, DeliveryWakes(c)))
  {
    var t := Apply(s, DeliveryWakes(c));
    forall id | id in t.pending ensures exists k: nat :: Alive(t, k, id) {
      var k: nat :| Alive(s, k, id);
      assert Alive(t, k, id);
    }
    forall k | 0 <= k < |t.notifications| ensures NotificationOk(t, t.notifications[k]) {
      assert NotificationOk(s, s.notifications[k]);
    }
    forall k | 0 <= k < |t.deliveries| ensures Accounted(t, t.deliveries[k].task.id) {
      assert t.deliveries[k].task == s.deliveries[k].task;
      if s.deliveries[k].task.id !in s.pending { ToldGrows(s, t, s.deliveries[k].task.id); }
    }
  }

  lemma StepKeepsLastOk(s: State, step: Step)
    requires LastOk(s) && Enabled(s, step)
    ensures LastOk(Apply(s, step))
  {
    var t := Apply(s, step);
    StepGrows(s, step);
    if t.last.Some? && t.last.value.id !in t.pending {
      var id := t.last.value.id;
      if k :| 0 <= k < |s.notifications| && s.notifications[k].id == id && s.notifications[k].report.Unavailable? {
        assert t.notifications[k] == s.notifications[k];
      } else {
        assert t.notifications[|s.notifications|].id == id;
      }
    }
  }

  // ---------- Every task spoken of has a delivery ----------

  ghost predicate Followed(s: State, id: string) {
    exists c :: 0 <= c < |s.deliveries| && s.deliveries[c].task.id == id
  }

  /** The task that a turn asks about or reports on has a delivery. */
  ghost predicate TurnFollowed(s: State, turn: Turn) {
    && (turn.PollingLast? ==> Followed(s, turn.task.id))
    && (turn.Spoken? && turn.speech.SayReport? ==> Followed(s, turn.speech.id))
  }

  ghost predicate AllFollowed(s: State) {
    && (s.last.Some? ==> Followed(s, s.last.value.id))
    && (forall t | 0 <= t < |s.turns| :: TurnFollowed(s, s.turns[t]))
  }

  /** Deliveries are never dropped, and their tasks never change. */
  ghost predicate KeepsTasks(s: State, t: State) {
    && |s.deliveries| <= |t.deliveries|
    && forall c | 0 <= c < |s.deliveries| :: t.deliveries[c].task == s.deliveries[c].task
  }

  lemma FollowedStays(s: State, t: State, id: string)
    requires KeepsTasks(s, t) && Followed(s, id)
    ensures Followed(t, id)
  {
    var c :| 0 <= c < |s.deliveries| && s.deliveries[c].task.id == id;
    assert t.deliveries[c].task.id == id;
  }

  lemma StepKeepsFollowed(s: State, step: Step)
    requires AllFollowed(s) && Enabled(s, step)
    ensures AllFollowed(Apply(s, step)) && KeepsTasks(s, Apply(s, step))
  {
    var v := Apply(s, step);
    assert KeepsTasks(s, v);
    forall id | Followed(s, id) ensures Followed(v, id) { FollowedStays(s, v, id); }
    if v.last.Some? && v.last != s.last {
      assert v.deliveries[|s.deliveries|].task == v.last.value;
    }
    forall t | 0 <= t < |v.turns| ensures TurnFollowed(v, v.turns[t]) {
      if t < |s.turns| { assert TurnFollowed(s, s.turns[t]); }
    }
  }

  // ---------- Runs ----------

  ghost predicate Runs(s: State, steps: seq<Step>)
    decreases |steps|
  {
    steps == [] || (Enabled(s, steps[0]) && Runs(Apply(s, steps[0]), steps[1..]))
  }

  ghost function Final(s: State, steps: seq<Step>): State
    requires Runs(s, steps)
    decreases |steps|
  {
    if steps == [] then s else Final(Apply(s, steps[0]), steps[1..])
  }

  lemma {:induction false} RunKeepsInv(s: State, steps: seq<Step>)
    requires Inv(s) && LastOk(s) && Runs(s, steps)
    ensures Inv(Final(s, steps)) && LastOk(Final(s, steps))
    decreases |steps|
  {
    if steps != [] {
      StepKeepsInv(s, steps[0]);
      StepKeepsLastOk(s, steps[0]);
      RunKeepsInv(Apply(s, steps[0]), steps[1..]);
    }
  }

  ghost function NotificationsBy(s: State, c: nat): set<int> {
    set k | 0 <= k < |s.notifications| && s.notifications[k].coroutine == c
  }

  /**
   In every interleaving before the entity is removed: every pending task has a live coroutine,
   every enqueue leads to at most one notification, every enqueued task is pending, reported or logged,
   and the task the status question is about is pending or has been notified as unavailable.
   */
  lemma DeliveryIsSafe(steps: seq<Step>)
    requires Runs(INITIAL, steps)
    ensures var s := Final(INITIAL, steps);
      && (forall id | id in s.pending :: exists c: nat :: Alive(s, c, id))
      && (forall c: nat :: |NotificationsBy(s, c)| <= 1)
      && (forall c | 0 <= c < |s.deliveries| :: Accounted(s, s.deliveries[c].task.id))
      && LastOk(s)
  {
    RunKeepsInv(INITIAL, steps);
    var s := Final(INITIAL, steps);
    forall c: nat ensures |NotificationsBy(s, c)| <= 1 {
      var ks := NotificationsBy(s, c);
      if ks != {} {
        var k :| k in ks;
        assert ks == {k};
      }
    }
  }

  /** A task leaves the pending map only when a poll of that task saw a status other than accepted or an error. */
  lemma LeavesPendingOnlyWhenDecisive(s: State, step: Step, id: string)
    requires Enabled(s, step) && id in s.pending && id !in Apply(s, step).pending
    ensures || (step.PollAnswered? && s.turns[step.t].task.id == id && Decisive(step.answer))
            || (step.DeliveryAnswered? && s.deliveries[step.c].task.id == id && Decisive(step.answer))
  {
  }

  /** Any other reply is spoken as it is, and changes nothing else. */
  lemma OtherReplyIsSpoken(s: State, t: nat, answer: ForwardAnswer)
    requires Enabled(s, ForwardAnswered(t, answer)) && !(answer.ForwardAccepted? && answer.taskID != "")
    ensures Apply(s, ForwardAnswered(t, answer)) == s.(turns := s.turns[t := Spoken(SayForwarded(answer))])
  {
  }

  /** An utterance waits for its reply with its own text; nothing else happens. */
  lemma UtteranceWaits(s: State, text: string)
    ensures Enabled(s, StartForward(text))
    ensures Apply(s, StartForward(text)) == s.(turns := s.turns + [Forwarding(text)])
  {
  }

  /** The status question is about the last task if there is one, and polls it; otherwise it is answered at once. */
  lemma StatusQuestionAsks(s: State)
    ensures Enabled(s, StartPoll)
    ensures Apply(s, StartPoll)
         == s.(turns := s.turns + [if s.last.Some? then PollingLast(s.last.value) else Spoken(SayNoTask)])
  {
  }

  /** An answer that settles nothing is spoken, and changes nothing else. */
  lemma UnsettledPollIsSpoken(s: State, t: nat, a: Answer)
    requires Enabled(s, PollAnswered(t, a)) && !Decisive(a)
    ensures var speech := if a.Unreachable? then SayUnreachable else SayStillRunning;
      Apply(s, PollAnswered(t, a)) == s.(turns := s.turns[t := Spoken(speech)])
  {
  }

  /**
   A poll of a delivery coroutine: an answer that settles the task takes it off the map and ends the
   coroutine, and is told in one new notification unless its status is unknown; the last task is
   forgotten exactly if it is this one and the answer was a status.
   */
  lemma SettledDeliveryIsTold(s: State, c: nat, a: Answer)
    requires Enabled(s, DeliveryAnswered(c, a)) && Decisive(a)
    ensures var task, t := s.deliveries[c].task, Apply(s, DeliveryAnswered(c, a));
      && t.pending == s.pending - {task.id} && t.turns == s.turns
      && t.deliveries == s.deliveries[c := Delivery(task, Ended)]
      && t.last == (if a.StatusAnswer? && s.last.Some? && s.last.value.id == task.id then None else s.last)
    ensures var told := (r: Report) => s.notifications + [Notification(c, s.deliveries[c].task.id, r)];
      var n := Apply(s, DeliveryAnswered(c, a)).notifications;
      match a
      case ErrorPayload(m) => n == told(Unavailable(if m == "" then "unknown error" else m))
      case StatusAnswer(st, output) =>
        (match st
         case Completed => n == told(Done(if output == "" then EMPTY_OUTPUT else output))
         case Failed => n == told(Broken(FAILED_MESSAGE))
         case _ => n == s.notifications && s.deliveries[c].task.id in Apply(s, DeliveryAnswered(c, a)).warned)
      case Unreachable => true
  {
  }

  /** An answer that settles nothing sends the coroutine back to sleep if its task still waits, and else ends it. */
  lemma UnsettledDeliveryGoesOn(s: State, c: nat, a: Answer)
    requires Enabled(s, DeliveryAnswered(c, a)) && !Decisive(a)
    ensures var task := s.deliveries[c].task;
      Apply(s, DeliveryAnswered(c, a))
      == s.(deliveries := s.deliveries[c := Delivery(task, if task.id in s.pending then Sleeping else Ended)])
  {
  }

  /** A new coroutine goes to sleep if its task still waits, and else ends; a sleeping one wakes up to poll. */
  lemma DeliveryStartsAndWakes(s: State, c: nat)
    requires c < |s.deliveries|
    ensures var task := s.deliveries[c].task;
      && (s.deliveries[c].phase == Scheduled ==>
            && Enabled(s, DeliveryStarts(c))
            && Apply(s, DeliveryStarts(c))
               == s.(deliveries := s.deliveries[c := Delivery(task, if task.id in s.pending then Sleeping else Ended)]))
      && (s.deliveries[c].phase == Sleeping ==>
            && Enabled(s, DeliveryWakes(c))
            && Apply(s, DeliveryWakes(c)) == s.(deliveries := s.deliveries[c := Delivery(task, Polling)]))
  {
  }

  /** After an accepted reply, the task is pending with a coroutine of its own, and is the one asked about. */
  lemma AcceptedTaskIsFollowed(s: State, t: nat, id: string)
    requires Enabled(s, ForwardAnswered(t, ForwardAccepted(id))) && id != ""
    ensures var v := Apply(s, ForwardAnswered(t, ForwardAccepted(id)));
      && id in v.pending && Alive(v, |s.deliveries|, id) && |v.deliveries| == |s.deliveries| + 1
      && v.turns[t] == Spoken(SayTaskAccepted)
      && var u := Apply(v, StartPoll); u.turns[|s.turns|] == PollingLast(Task(id, s.turns[t].text))
  {
  }

  /** Answering the status question forgets whatever task is the last one by then, polled or not. */
  lemma PollForgetsAnyLast(s: State, t: nat, a: Answer)
    requires Enabled(s, PollAnswered(t, a))
    ensures Apply(s, PollAnswered(t, a)).last == if Decisive(a) then None else s.last
    ensures Decisive(a) ==> Apply(s, PollAnswered(t, a)).turns[t] == Spoken(SayReport(s.turns[t].task.id, ReportOf(a)))
    ensures s.turns[t].task.id in Apply(s, PollAnswered(t, a)).pending
       <==> s.turns[t].task.id in s.pending && (a.ErrorPayload? || !Decisive(a))
    ensures forall id | id in s.pending && id != s.turns[t].task.id :: id in Apply(s, PollAnswered(t, a)).pending
  {
  }

  /** The newer task is forgotten exactly if the answer is final and another task became the last one meanwhile. */
  lemma NewerTaskForgottenIff(s: State, t: nat, a: Answer)
    requires Enabled(s, PollAnswered(t, a)) && s.last.Some?
    ensures s.last.value != s.turns[t].task && Apply(s, PollAnswered(t, a)).last.None?
       <==> Decisive(a) && s.last.value != s.turns[t].task
  {
  }

  /** A run in which a newer task is forgotten while an older one is reported; it is still delivered. */
  lemma NewerTaskIsForgotten() returns (steps: seq<Step>)
    ensures Runs(INITIAL, steps) && Final(INITIAL, steps).last.None?
    ensures "new" in Final(INITIAL, steps).pending && Told(Final(INITIAL, steps), "old")
  {
    var s1 := Apply(INITIAL, StartForward("a"));
    var s2 := Apply(s1, ForwardAnswered(0, ForwardAccepted("old")));
    var s3 := Apply(s2, StartPoll);
    var s4 := Apply(s3, StartForward("b"));
    var s5 := Apply(s4, ForwardAnswered(2, ForwardAccepted("new")));
    var a := StatusAnswer(TaskStore.Completed, "x");
    var s6 := Apply(s5, PollAnswered(1, a));
    assert SaysReport(s6.turns[1], "old") && "new" != "old";
    RunCons(s5, PollAnswered(1, a), []);
    RunCons(s4, ForwardAnswered(2, ForwardAccepted("new")), [PollAnswered(1, a)]);
    var r4 := [ForwardAnswered(2, ForwardAccepted("new"))] + [PollAnswered(1, a)];
    RunCons(s3, StartForward("b"), r4);
    RunCons(s2, StartPoll, [StartForward("b")] + r4);
    var r2 := [StartPoll] + ([StartForward("b")] + r4);
    RunCons(s1, ForwardAnswered(0, ForwardAccepted("old")), r2);
    RunCons(INITIAL, StartForward("a"), [ForwardAnswered(0, ForwardAccepted("old"))] + r2);
    steps := [StartForward("a")] + ([ForwardAnswered(0, ForwardAccepted("old"))] + r2);
  }

  // ---------- Reported again ----------

  /** An accepted reply that names task `id`. */
  predicate Accepts(step: Step, id: string) {
    step.ForwardAnswered? && step.forwarded.ForwardAccepted? && step.forwarded.taskID == id
  }

  /** A report on `id` that was not there in `s`. */
  ghost predicate NewReport(s: State, t: State, id: string) {
    || (exists k :: |s.notifications| <= k < |t.notifications| && t.notifications[k].id == id)
    || (exists k :: 0 <= k < |t.turns| && SaysReport(t.turns[k], id) && (k < |s.turns| ==> !s.turns[k].Spoken?))
  }

  /** Some run that accepts no task `id` adds a report on `id`. */
  ghost predicate CanReport(s: State, id: string) {
    exists steps :: Runs(s, steps) && NoAccept(steps, id) && NewReport(s, Final(s, steps), id)
  }

  ghost predicate NoAccept(steps: seq<Step>, id: string) {
    forall k | 0 <= k < |steps| :: !Accepts(steps[k], id)
  }

  /** Coroutine `c` is going to poll task `id` once more. */
  predicate WillPoll(s: State, c: nat, id: string) {
    && c < |s.deliveries| && s.deliveries[c].task.id == id
    && (s.deliveries[c].phase == Sleeping || s.deliveries[c].phase == Polling
        || (s.deliveries[c].phase == Scheduled && id in s.pending))
  }

  predicate Asks(s: State, t: nat, id: string) {
    t < |s.turns| && s.turns[t].PollingLast? && s.turns[t].task.id == id
  }

  /** A poll of task `id` is under way, or one is going to be made or may still be asked for. */
  ghost predicate MayReport(s: State, id: string) {
    || (exists c: nat :: WillPoll(s, c, id))
    || (exists t: nat :: Asks(s, t, id))
    || (s.last.Some? && s.last.value.id == id)
  }

  /** Once no poll of `id` is left, only a new acceptance brings one back. */
  lemma NoPollStays(s: State, step: Step, id: string)
    requires Enabled(s, step) && !MayReport(s, id) && !Accepts(step, id)
    ensures !MayReport(Apply(s, step), id)
  {
    var v := Apply(s, step);
    forall c: nat ensures !WillPoll(v, c, id) { assert !WillPoll(s, c, id); }
    forall t: nat ensures !Asks(v, t, id) { assert !Asks(s, t, id); }
  }

  lemma NoPollTellsNothing(s: State, step: Step, id: string)
    requires Enabled(s, step) && !MayReport(s, id)
    ensures !NewReport(s, Apply(s, step), id)
  {
    if step.DeliveryAnswered? { assert !WillPoll(s, step.c, id); }
    if step.PollAnswered? { assert !Asks(s, step.t, id); }
  }

  /** A report added by a run was added by its first part or by the rest. */
  lemma NewReportSplits(s: State, v: State, u: State, id: string)
    requires Grows(s, v) && Grows(v, u) && NewReport(s, u, id)
    ensures NewReport(s, v, id) || NewReport(v, u, id)
  {
    if k :| |s.notifications| <= k < |u.notifications| && u.notifications[k].id == id {
      if k < |v.notifications| { assert v.notifications[k].id == id; }
    } else {
      var k :| 0 <= k < |u.turns| && SaysReport(u.turns[k], id) && (k < |s.turns| ==> !s.turns[k].Spoken?);
      if k < |v.turns| && v.turns[k].Spoken? { assert SaysReport(v.turns[k], id); }
    }
  }

  lemma {:induction false} RunGrows(s: State, steps: seq<Step>)
    requires Runs(s, steps)
    ensures Grows(s, Final(s, steps))
    decreases |steps|
  {
    if steps != [] {
      StepGrows(s, steps[0]);
      RunGrows(Apply(s, steps[0]), steps[1..]);
    }
  }

  lemma {:induction false} NoPollNoReport(s: State, steps: seq<Step>, id: string)
    requires Runs(s, steps) && NoAccept(steps, id) && !MayReport(s, id)
    ensures !NewReport(s, Final(s, steps), id)
    decreases |steps|
  {
    if steps != [] {
      var v := Apply(s, steps[0]);
      assert !Accepts(steps[0], id);
      NoPollStays(s, steps[0], id);
      NoPollTellsNothing(s, steps[0], id);
      assert NoAccept(steps[1..], id);
      NoPollNoReport(v, steps[1..], id);
      StepGrows(s, steps[0]);
      RunGrows(v, steps[1..]);
      if NewReport(s, Final(s, steps), id) { NewReportSplits(s, v, Final(s, steps), id); }
    }
  }

  const ANSWER := ErrorPayload("")

  lemma PollingCanReport(s: State, c: nat, id: string)
    requires c < |s.deliveries| && s.deliveries[c] == Delivery(s.deliveries[c].task, Polling)
    requires s.deliveries[c].task.id == id
    ensures CanReport(s, id)
  {
    var step := DeliveryAnswered(c, ANSWER);
    RunCons(s, step, []);
    assert Apply(s, step).notifications[|s.notifications|].id == id;
    assert NoAccept([step] + [], id);
  }

  lemma AskingCanReport(s: State, t: nat, id: string)
    requires Asks(s, t, id)
    ensures CanReport(s, id)
  {
    var step := PollAnswered(t, ANSWER);
    RunCons(s, step, []);
    assert SaysReport(Apply(s, step).turns[t], id);
    assert NoAccept([step] + [], id);
  }

  /** One more step in front. */
  lemma CanReportEarlier(s: State, step: Step, id: string)
    requires Enabled(s, step) && !Accepts(step, id) && CanReport(Apply(s, step), id)
    ensures CanReport(s, id)
  {
    var v := Apply(s, step);
    var steps :| Runs(v, steps) && NoAccept(steps, id) && NewReport(v, Final(v, steps), id);
    var u := Final(v, steps);
    RunCons(s, step, steps);
    StepGrows(s, step);
    assert NewReport(s, u, id) by {
      if k :| |v.notifications| <= k < |u.notifications| && u.notifications[k].id == id {
      } else {
        var k :| 0 <= k < |u.turns| && SaysReport(u.turns[k], id) && (k < |v.turns| ==> !v.turns[k].Spoken?);
        assert k < |s.turns| ==> !s.turns[k].Spoken?;
      }
    }
    assert NoAccept([step] + steps, id);
  }

  lemma WillPollCanReport(s: State, c: nat, id: string)
    requires WillPoll(s, c, id)
    ensures CanReport(s, id)
    decreases s.deliveries[c].phase == Scheduled
  {
    match s.deliveries[c].phase
    case Polling => PollingCanReport(s, c, id);
    case Sleeping =>
      PollingCanReport(Apply(s, DeliveryWakes(c)), c, id);
      CanReportEarlier(s, DeliveryWakes(c), id);
    case Scheduled =>
      WillPollCanReport(Apply(s, DeliveryStarts(c)), c, id);
      CanReportEarlier(s, DeliveryStarts(c), id);
    case Ended =>
  }

  /**
   When a task can be reported, be it for the first time or once more: without a new acceptance of
   that task, some continuation reports on it exactly if a poll of it is under way, is going to be
   made by a delivery coroutine, or may still be asked for because it is the last task.
   */
  lemma ReportedAgainIff(s: State, id: string)
    ensures CanReport(s, id) <==> MayReport(s, id)
  {
    if CanReport(s, id) && !MayReport(s, id) {
      var steps :| Runs(s, steps) && NoAccept(steps, id) && NewReport(s, Final(s, steps), id);
      NoPollNoReport(s, steps, id);
    }
    if c: nat :| WillPoll(s, c, id) {
      WillPollCanReport(s, c, id);
    } else if t: nat :| Asks(s, t, id) {
      AskingCanReport(s, t, id);
    } else if s.last.Some? && s.last.value.id == id {
      AskingCanReport(Apply(s, StartPoll), |s.turns|, id);
      CanReportEarlier(s, StartPoll, id);
    }
  }

  /** Delivery is not exactly-once: a task has been spoken about, may be reported again, and is notified too. */
  lemma SpokenAndNotified() returns (before: seq<Step>, after: seq<Step>)
    ensures Runs(INITIAL, before)
    ensures var s := Final(INITIAL, before);
      && |s.turns| == 2 && SaysReport(s.turns[1], "x") && s.notifications == [] && CanReport(s, "x")
      && Runs(s, after) && NoAccept(after, "x")
      && var t := Final(s, after); |t.notifications| == 1 && t.notifications[0].id == "x" && t.turns == s.turns
  {
    var a := StatusAnswer(TaskStore.Completed, "y");
    var s1 := Apply(INITIAL, StartForward("a"));
    var s2 := Apply(s1, ForwardAnswered(0, ForwardAccepted("x")));
    var s3 := Apply(s2, DeliveryStarts(0));
    var s4 := Apply(s3, DeliveryWakes(0));
    var s5 := Apply(s4, StartPoll);
    var s6 := Apply(s5, PollAnswered(1, a));
    RunCons(s5, PollAnswered(1, a), []);
    var r5 := [PollAnswered(1, a)] + [];
    RunCons(s4, StartPoll, r5);
    var r4 := [StartPoll] + r5;
    RunCons(s3, DeliveryWakes(0), r4);
    var r3 := [DeliveryWakes(0)] + r4;
    RunCons(s2, DeliveryStarts(0), r3);
    var r2 := [DeliveryStarts(0)] + r3;
    RunCons(s1, ForwardAnswered(0, ForwardAccepted("x")), r2);
    var r1 := [ForwardAnswered(0, ForwardAccepted("x"))] + r2;
    RunCons(INITIAL, StartForward("a"), r1);
    before := [StartForward("a")] + r1;
    assert WillPoll(s6, 0, "x");
    ReportedAgainIff(s6, "x");
    RunCons(s6, DeliveryAnswered(0, a), []);
    after := [DeliveryAnswered(0, a)] + [];
  }

  lemma RunCons(s: State, step: Step, rest: seq<Step>)
    requires Enabled(s, step) && Runs(Apply(s, step), rest)
    ensures Runs(s, [step] + rest) && Final(s, [step] + rest) == Final(Apply(s, step), rest)
  {
    assert ([step] + rest)[1..] == rest;
  }
}
