# Hermes Voice: a verified model

Hermes Voice takes an utterance from Home Assistant, routes it by device and alias to a person, a
profile, a model and a backend, cleans the text, and calls the backend. A backend that is slow is left
running: the caller gets `accepted` with a task ID, and the Home Assistant agent polls that task until
it can tell the user how it ended. This project models that behaviour in Dafny and proves what holds
for every input, every interleaving and every run.

| file | what it is about |
|---|---|
| `Text.dfy`, `Decimal.dfy`, `Wrappers.dfy` | Go's string functions on code points, decimal printing, Option and Result |
| `Cleanup.dfy`, `CleanupRules.dfy`, `CleanupDefaults.dfy` | the cleanup rule interpreter with its trace, what each kind of rule means, and the default rules as an algorithm on words |
| `Registry.dfy`, `RegistryValidation.dfy`, `ReportedIssues.dfy`, `Backup.dfy` | well-formed registries and routing, validation over unordered maps and what it reports, backup files |
| `Backend.dfy`, `HermesCli.dfy`, `HermesAdapter.dfy` | requests and their validation, the stdout parser, the command-line adapter around it |
| `TaskStore.dfy`, `MemoryStore.dfy` | the task store as a map of values, and the store on the heap that refines it |
| `TaskIds.dfy`, `Dispatch.dfy`, `Race.dfy`, `Dispatcher.dfy` | task IDs, the dispatcher as a state machine of goroutines, what each of its branches may and must do, and its store-facing code on the heap |
| `Agent.dfy` | the Home Assistant agent as a state machine between awaits |
| `Delivery.dfy` | agent, endpoint, dispatcher, backend, store and other clients together |
| `Provenance.dfy`, `Conversation.dfy` | which utterance, invocation and command a report comes from; what each utterance, poll and finished record comes to |
| `DevClient.dfy` | the text endpoint from a decoded body to the backend request |

Main results, in the order of the parts:

* *Dispatcher and store.* In every interleaving of any number of invocations, every record still
  `accepted` has exactly one unfinished storer, no storer ever meets one of the store errors that the
  program discards, every backend result is in exactly one place, and an accepted ID leads to the
  caller's own record. There is neither deadlock nor livelock. The heap store refines a map of immutable values under a client that overwrites
  every object it ever passed in or got back.
* *Cleanup.* For every utterance the 26 default rules equal a short algorithm on words. Cleaning twice
  is not the same as cleaning once; the exact condition, and a bound after which repetition settles, are
  proved.
* *Registry.* Validation gives one sorted list whatever order the maps are walked in, reports exactly the
  issues that are spelt out entry by entry, accepts exactly the well-formed registries, and the way routing can still fail on such a registry is stated exactly.
* *Agent.* No accepted task is dropped in silence, and in the composition with the store every report
  on a task, spoken or notified, is its stored terminal outcome, so two reports never disagree. When a
  task is reported more than once is stated exactly.
* *End to end.* Results are never mixed up between tasks: a report on a task is the parsed answer of the
  one command that was run on the cleaned words of that task's utterance, or tells why there is none; the
  same holds for the fast answer to an utterance.

Conventions. A spec function (`Run`, `Create`, `Apply`, ...) says what an operation does to values; each
method that the program writes as a loop or an update is proved against one of them, and the lemmas
state what the program promises about it. Strings are sequences of code points. Go maps are Dafny maps
walked in an arbitrary order. `now` parameters are readings of the clock.

Where code and documentation disagree, the model follows the code:

* README.md:43-44 of the repository says that a missing alias `person` or `profile` inherits the
  device default. Validation takes a field of white space only for missing
  (`internal/registry/validation.go:130`), routing does not (`internal/registry/lookup.go:16-21`).
  `ResolveOnWellFormed` states the exact outcome, `WellFormedAliasCanFail` gives a registry.
* Default cleanup looks idempotent but is not, because each prefix rule runs once: "ну ну свет" needs
  two passes (`NotIdempotent`, `IdempotentIff`). The same goes for parsing CLI output that holds a
  doubled carriage return (`ReparseCounterexample`, `ReparseIffLines`).
* The agent has a branch for the status `failed`; a failed record carries an error object, so the
  answer takes the error branch first and the other one is never reached (`ReportsTellTheStoredOutcome`).
* The agent's status question forgets whichever task is the last one by the time the answer arrives,
  also a newer one (`NewerTaskForgottenIff`, `NewerTaskIsForgotten`); the newer task is still delivered.

## Model

| member | source | states |
|---|---|---|
| Dispatch.AcceptedRecordsHaveOneOwner | internal/dispatch/dispatcher.go:75-129 | in every reachable state a dispatcher-created record is `accepted` exactly if an unfinished invocation owns it, that owner is unique, and no finished storer got a store error |
| Dispatch.ResultsAreConserved | internal/dispatch/dispatcher.go:56-107 | after the send a result is in exactly one of channel, caller and storer, unaltered; it stays in the channel only while a receiver is alive or for one of three reasons; the send never blocks |
| Dispatch.DetachedContextStaysAlive | internal/dispatch/dispatcher.go:56-106 | while the backend call runs its context is canceled exactly if the caller was canceled in the race or the record could not be created, so never after an accepted fallback |
| Dispatch.FastOrCanceledNeverWrites | internal/dispatch/dispatcher.go:68-92 | an invocation that ends with a fast result or a cancellation made no store call at any point of the run |
| Race.CanceledCallerMayLeave | internal/dispatch/dispatcher.go:68-73 | a caller that canceled at any point of the run and still waits may leave the race by that branch, with the answer of a canceled call and the backend's context canceled |
| Race.OnlyCallersCancel | internal/dispatch/dispatcher.go:68-73 | in any run, a call that ended as canceled, or could, was canceled by its own caller before |
| Race.CallsStartInTheRace | internal/dispatch/dispatcher.go:52-68 | a new call waits in the race, with its backend running on a context that is not canceled |
| Race.RaceIsOpen | internal/dispatch/dispatcher.go:68-75 | the timer may always win; the result may win exactly once it has been sent, and is handed over unchanged |
| Race.BackendMayFinish | internal/dispatch/dispatcher.go:59-63 | a running backend call may return anything, sends it and exits, canceling its own context, unhindered |
| Race.TimerBranch | internal/dispatch/dispatcher.go:74-105 | after the timer the caller is answered with the chosen ID, accepted, exactly if no store is configured or the ID is free, and otherwise with the error that the task exists |
| Race.NameDecides | internal/dispatch/dispatcher.go:79-105 | the record that is filed, field by field, and that a taken ID cancels the backend and leaves the store alone |
| Race.ResultIsStoredAs | internal/dispatch/dispatcher.go:114-129 | an error is stored by its first cause, no response and a response with the status `failed` as failures of their own, any other response as the completion |
| Race.StorerBranch | internal/dispatch/dispatcher.go:114-129 | a waiting storer receives the result once it has been sent, and then writes just that |
| Dispatch.StoreChangesOnlyByOwner | internal/dispatch/dispatcher.go:79-129 | a step that changes the store is a store call of one invocation and touches the record of that invocation alone |
| Dispatch.AcceptedIDLeadsToOwnTask | internal/dispatch/dispatcher.go:75-105 | the ID of an accepted response is non-empty, stable under normalisation, trimming and the task path, and its record holds the caller's request and, once finished, the caller's own result |
| Dispatch.StepKeepsInv | internal/dispatch/dispatcher.go:52-129 | every atomic step of any goroutine keeps the protocol invariant |
| Dispatch.RunKeepsInv | internal/dispatch/dispatcher.go:52-129 | so does every run |
| Dispatch.RunEvolvesStore | internal/dispatch/dispatcher.go:79-129 | over a run no record disappears and no terminal record changes |
| Dispatch.StoreResultSucceeds | internal/dispatch/dispatcher.go:114-129 | storing any result for an accepted record succeeds and leaves that result behind |
| Dispatch.CreateFresh | internal/dispatch/dispatcher.go:79-91 | creating the record of a fallback fails exactly if the ID is taken, and otherwise adds one accepted record with the caller's request |
| Dispatch.StoredErrorTellsFirstCause | internal/dispatch/dispatcher.go:155-172 | two errors are stored alike exactly if the first of the six known causes that they wrap is the same; the error's own text plays no part |
| Dispatch.IDFunctionDecides | internal/dispatch/dispatcher.go:75-78 | a configured ID function decides, normalised, and leaves the counter alone unless its answer is blank; then, or without a function (dispatcher.go:41-43), the counter moves on by exactly one and ends the ID; the ID is path-safe and non-empty in every case |
| Dispatch.QuiescentMeansDone | internal/dispatch/dispatcher.go:52-129 | no deadlock: in a reachable state in which only new calls and cancellations are possible, every caller is answered, every backend goroutine has exited, and every dispatcher-created record is completed or failed |
| Dispatch.InnerStepsAreBounded | internal/dispatch/dispatcher.go:52-129 | no livelock: a run takes at most nine steps of the dispatcher's goroutines for each of its invocations |
| Dispatch.DefaultIdsOfRunDiffer | internal/dispatch/dispatcher.go:174-180 | two default IDs given in one run differ, with any steps and any request IDs in between, up to 2^64 fallbacks |
| Dispatch.CounterCountsFallbacks | internal/dispatch/dispatcher.go:75-78 | after a run the counter has moved by the number of default IDs given, modulo 2^64 |
| Dispatcher.Dispatcher.DefaultTaskID | internal/dispatch/dispatcher.go:174-180 | bumps the global counter once and prints it into the ID |
| Dispatcher.Dispatcher.ChooseTaskID | internal/dispatch/dispatcher.go:75-78 | the ID and the counter move as the naming step of the state machine says |
| Dispatcher.Dispatcher.AcceptFallback | internal/dispatch/dispatcher.go:74-91 | on the heap, the timer branch names the task and creates the record as the two steps of the state machine do, and the store stays valid |
| Dispatcher.Dispatcher.StoreBackendResult | internal/dispatch/dispatcher.go:114-129 | on the heap, storing a result does to the store what the writing step of the state machine does |
| TaskIds.NormalizeIsSafe | internal/dispatch/dispatcher.go:142-153 | a normalised ID is the trimmed one with a dash for each separator and white space, is empty exactly for blank input, and is fixed by normalising and by trimming |
| TaskIds.DefaultIsSafe | internal/dispatch/dispatcher.go:174-180 | default IDs are non-empty and path-safe |
| TaskIds.DefaultIdShape | internal/dispatch/dispatcher.go:174-180 | a default ID is the normalised request ID and a dash, if there is one, then `task-`, then the counter in decimal without leading zeros |
| TaskIds.DefaultIdsDiffer | internal/dispatch/dispatcher.go:174-180 | different counter values give different default IDs for any two request IDs |
| TaskIds.DefaultIdsDistinct | internal/dispatch/dispatcher.go:174-180 | from any counter value, any stretch of fewer than 2^64 default IDs has no repetition, across the wrap-around of the counter |
| TaskIds.PathRoundTrip | internal/devclient/handler.go:78-88 | a path yields an ID exactly if it is the prefix followed by that non-empty ID without a slash |
| TaskStore.RunKeepsLifeCycle | internal/taskstore/memory.go:21-107 | over any sequence of store calls records only move from accepted to completed or failed, terminal ones never change, and the status fixes which of response, error and completion time are set |
| TaskStore.PerformKeepsLifeCycle | internal/taskstore/memory.go:21-122 | the same for one call, and a call that returns an error changes nothing |
| TaskStore.FinishOnce | internal/taskstore/memory.go:53-107 | finishing succeeds exactly on a known accepted task, leaves the given response or error with the time, leaves all other tasks alone, and any second finish is an invalid transition |
| TaskStore.FinishErrors | internal/taskstore/memory.go:53-100 | which error a finishing call meets: for a blank ID, without a response, for an unknown task, for a finished one |
| TaskStore.GetFinds | internal/taskstore/memory.go:109-122 | a lookup finds exactly the record filed under the trimmed ID |
| TaskStore.CreateFilesRecord | internal/taskstore/memory.go:21-51 | creating fails exactly for blank and for taken IDs, and otherwise files the record under its trimmed ID next to all others: as given apart from the life-cycle fields, with the clock for a missing creation time and that time for a missing update time |
| MemoryStore.CloneStringMap | internal/taskstore/memory.go:159-168 | a nil map stays nil, any other becomes a fresh map with the same entries |
| MemoryStore.CloneResponse | internal/taskstore/memory.go:146-157 | a fresh response that says the same and shares neither usage nor metadata |
| MemoryStore.CloneRecord | internal/taskstore/memory.go:124-138 | a record that says the same and shares no object |
| MemoryStore.Store.CreateAccepted | internal/taskstore/memory.go:21-51 | does on the heap what `Create` does on values, and the store owns only objects it made itself |
| MemoryStore.Store.Complete | internal/taskstore/memory.go:53-80 | likewise for `Complete`, with the response as it was at the call |
| MemoryStore.Store.Fail | internal/taskstore/memory.go:82-107 | likewise for `Fail` |
| MemoryStore.Store.Get | internal/taskstore/memory.go:109-122 | returns what `Get` returns on values, made of fresh objects only |
| MemoryStore.AnyClient | internal/taskstore/memory.go:21-168 | for any number of calls by a client that overwrites at will every object it passed in or got back, the store behaves as the map of values and every answer is the one that map gives |
| Cleanup.New | internal/cleanup/validate.go:6-40 | a cleaner is made exactly from rules with unique non-empty IDs and well-shaped kinds; otherwise the first bad rule gets the first complaint that applies |
| Cleanup.CleanWithTrace | internal/cleanup/cleanup.go:15-42 | the loop computes the run of the rules, their entries, and the fallback |
| Cleanup.TraceIsPath | internal/cleanup/cleanup.go:15-42 | the trace is a gapless path from the original to the cleaned text in which every entry changes the text |
| Cleanup.TraceFollowsDeclarationOrder | internal/cleanup/cleanup.go:19-29 | the entries come from rules at strictly increasing positions, each the work of its rule |
| Cleanup.FallbackComesLast | internal/cleanup/cleanup.go:31-41 | a fallback entry starts from the empty text, restores the words of the input and is never the first entry |
| Cleanup.FallbackIsNotBlank | internal/cleanup/cleanup.go:31-41 | the fallback for a non-blank utterance is non-blank |
| Cleanup.ReplayTracedRules | internal/cleanup/cleanup.go:19-29 | running only the rules named in the trace gives the same text before the fallback |
| CleanupRules.TrimRuleCuts | internal/cleanup/cleanup.go:46-47 | a trim cuts white space and nothing else off both ends, until none is left there |
| CleanupRules.CollapseRuleJoins | internal/cleanup/cleanup.go:48-49 | a collapse keeps the words and leaves single spaces between them and nowhere else |
| CleanupRules.PrefixRuleCuts | internal/cleanup/cleanup.go:50-54 | a prefix phrase goes exactly if white space or nothing follows it, and nothing else goes |
| CleanupRules.SuffixRuleCuts | internal/cleanup/cleanup.go:55-59 | a suffix phrase goes exactly if white space or nothing precedes it, and nothing else goes |
| CleanupRules.ReplaceRuleJoins | internal/cleanup/cleanup.go:60-61 | a replacement cuts the text at every occurrence of the phrase and joins the parts anew |
| CleanupRules.DefaultTraceStartsWithTrim | internal/cleanup/defaults.go:6 | the default trace begins with `trim_space_initial` if the utterance has white space at an end, and otherwise does not hold it |
| Text.SplitAtFirst | internal/cleanup/cleanup.go:60-61 | splitting cuts at the first occurrence of the separator and goes on behind it |
| Text.ReplaceIsSplitJoin | internal/cleanup/cleanup.go:60-61 | replacing a non-empty phrase is splitting on it and joining with the replacement |
| CleanupDefaults.DefaultCleanIsWordList | internal/cleanup/defaults.go:4-41 | for every utterance the default pipeline splits into words, drops each of seven phrases at most once in order, drops one trailing word, keeps all words if none remain, and joins with single spaces |
| CleanupDefaults.PrefixPhraseIsWordPrefix | internal/cleanup/cleanup.go:71-80 | on a sentence the boundary-checked prefix match is the prefix relation on words, and removing it leaves the remaining words |
| CleanupDefaults.SuffixPhraseIsLastWord | internal/cleanup/cleanup.go:82-91 | on a sentence the boundary-checked suffix match compares the last word, and removing it leaves the other words |
| CleanupDefaults.DefaultCleanKeepsBlankness | internal/cleanup/cleanup.go:31-41 | the cleaned text is blank exactly if the utterance is |
| CleanupDefaults.CleanedIsInfix | internal/cleanup/defaults.go:4-41 | the words of the result are a contiguous stretch of the input words, at most 11 shorter |
| CleanupDefaults.SecondPassFixesOrShrinks | internal/cleanup/defaults.go:4-41 | a second pass changes nothing or removes a word |
| CleanupDefaults.RepeatedCleaningSettles | internal/cleanup/defaults.go:4-41 | repeated cleaning is constant after at most one pass more than there are words |
| CleanupDefaults.IdempotentIff | internal/cleanup/cleanup.go:15-42 | a second pass changes nothing exactly if the words that are left of the utterance have no phrase in front and no polite word at the end, or are made of nothing but phrases in order, each at most once, and perhaps the polite word |
| CleanupDefaults.FallsBackIff | internal/cleanup/cleanup.go:31-41 | the fallback is used exactly for non-blank utterances made of nothing but phrases in order, each at most once, and perhaps the polite word |
| CleanupDefaults.NotIdempotent | internal/cleanup/defaults.go:25-27 | "ну ну свет" takes two passes |
| CleanupDefaults.DefaultRulesAreValid | internal/cleanup/defaults.go:4-41 | the default rules are accepted by `New` |
| Registry.ResolveOnWellFormed | internal/registry/lookup.go:3-60 | on a well-formed registry routing fails exactly for an unknown device, an unknown alias, or a binding with a field of white space only; every success leads through existing entries to a profile of the person chosen |
| Registry.ResolveNeedsStart | internal/registry/lookup.go:3-22 | on any registry, routing fails by the device or the alias exactly if that is unknown |
| Registry.ResolveFollowsChain | internal/registry/lookup.go:24-60 | on any registry, routing ends at the first missing link, or returns device, alias and the whole chain |
| Registry.WellFormedAliasCanFail | internal/registry/lookup.go:16-21 | a well-formed registry with a declared alias that does not resolve |
| RegistryValidation.Validate | internal/registry/validation.go:15-198 | whatever order the maps are walked in, the list is sorted and holds each issue as often as it arises |
| RegistryValidation.ValidateTwice | internal/registry/validation.go:184-198 | two validations of one registry return the same list |
| RegistryValidation.SortedIsUnique | internal/registry/validation.go:188-196 | the order by path, code and message leaves only one sorted arrangement of a bag of issues |
| RegistryValidation.IssueLessIff | internal/registry/validation.go:188-196 | issues are ordered by path, on one path by code, under one code by message, strings by their first difference |
| ReportedIssues.ReportedExactly | internal/registry/validation.go:26-161 | which issue, with path, code and message, is reported for which field of which entry, and that nothing else is |
| ReportedIssues.ListHoldsReported | internal/registry/validation.go:184-198 | so the list returned holds exactly these issues |
| RegistryValidation.TotalPick | internal/registry/validation.go:46-94 | the issues summed over a map do not depend on which key comes first |
| RegistryValidation.NoIssuesIffWellFormed | internal/registry/validation.go:26-161 | there is no issue exactly if the registry is well-formed |
| RegistryValidation.Collect | internal/registry/validation.go:46-93 | a loop over a map in any order adds the issues of every entry exactly once |
| RegistryValidation.CheckBackends | internal/registry/validation.go:46-60 | the loop adds exactly the issues of the backends |
| RegistryValidation.CheckModels | internal/registry/validation.go:61-72 | likewise for the models |
| RegistryValidation.CheckPersons | internal/registry/validation.go:73-79 | likewise for the persons |
| RegistryValidation.CheckProfiles | internal/registry/validation.go:80-93 | likewise for the profiles |
| RegistryValidation.CheckAlias | internal/registry/validation.go:120-159 | the flags carried through the branches amount to checking the effective person and profile |
| RegistryValidation.CheckDevices | internal/registry/validation.go:94-161 | the nested loops add exactly the issues of the devices and their aliases |
| Backup.BackupFile | internal/registry/backup.go:14-66 | the bytes land under the first free name, every other file is unchanged, failures change nothing, and at most as many names are found taken as there are files in that directory |
| Backup.CopyToFirstFree | internal/registry/backup.go:41-65 | the loop ends, with the least free index, for any injective naming |
| Backup.TakenNeedsFiles | internal/registry/backup.go:41-50 | pigeonhole: as many taken names need as many existing files |
| Backup.NamesDiffer | internal/registry/backup.go:42-45 | no two rounds try the same name, the %02d form included |
| Backup.NameShape | internal/registry/backup.go:42-45 | the first name carries no number, the others carry theirs in at least two digits, and with a leading zero only to make two |
| Backup.PartsWithExtension | internal/registry/backup.go:35-39 | the name of a backup keeps the file name in front of its last dot, and the extension from there on, whatever the directory |
| Backup.PartsWithoutExtension | internal/registry/backup.go:35-39 | a file name without a dot is kept whole and gets `.bak` |
| Backup.PathsAreInDirectory | internal/registry/backup.go:35-46 | every name that may be tried lies directly in the backup directory |
| HermesCli.ParseHermesCLIStdout | internal/backend/hermes_cli.go:104-117 | the loop keeps the non-session lines in order and the last session value |
| HermesCli.AnswerIsKeptLines | internal/backend/hermes_cli.go:106-116 | the lines of the answer are the non-session lines of stdout in order, up to trimming at the two edges |
| HermesCli.AnswerHasNoSessionLine | internal/backend/hermes_cli.go:108-116 | no line of the answer is a session line |
| HermesCli.LastSessionWins | internal/backend/hermes_cli.go:108-113 | the session is the value of the last session line, or empty without one |
| HermesCli.SessionIsLastLabelled | internal/backend/hermes_cli.go:108-113 | the session is what follows `session_id:`, trimmed, on the last line that starts with that label after white space |
| HermesCli.NoLabelNoSession | internal/backend/hermes_cli.go:108-113 | without such a line there is no session |
| HermesCli.KeptAreUnlabelled | internal/backend/hermes_cli.go:108-115 | the lines kept are exactly the lines without the label, each once and in order |
| HermesCli.ReparseIff | internal/backend/hermes_cli.go:104-117 | parsing an answer again gives it back, without a session, exactly if it holds no carriage return before a newline |
| HermesCli.ReparseIffLines | internal/backend/hermes_cli.go:104-117 | in terms of the lines of stdout: exactly if, among those that are no session lines, none from one non-blank line up to before another ends in a carriage return |
| HermesCli.ReparseWithoutDoubledReturns | internal/backend/hermes_cli.go:104-117 | so always for stdout without a doubled carriage return before a newline, ordinary CRLF output included |
| HermesCli.ReparseCounterexample | internal/backend/hermes_cli.go:105 | a doubled carriage return survives one parse and not the next |
| HermesAdapter.Invoke | internal/backend/hermes_cli.go:63-102 | a success comes exactly of a valid request, a zero exit, output within the bound in bytes and a non-blank answer, and carries that answer and its session; any refusal wraps its one cause |
| HermesAdapter.AnswersCaseByCase | internal/backend/hermes_cli.go:67-101 | case by case: which refusal an invalid request, a failed or interrupted run, a non-zero exit, too much output and a blank answer get, and what a success carries |
| Backend.Validate | internal/backend/validate.go:10-30 | a request passes exactly if none of the six required fields is blank; otherwise the first blank one is named |
| DevClient.DevText | internal/devclient/handler.go:90-130 | the request built, or the error reply, is the one composed from parsing, routing and cleaning |
| DevClient.RequestMetadata | internal/devclient/handler.go:265-274 | the copying loop keeps every entry and adds a source only if there is none |
| DevClient.ParseOkIff | internal/devclient/handler.go:227-263 | a body parses exactly if it names a device, input and text do not conflict, and something non-blank was said |
| DevClient.EveryRequestIsValid | internal/devclient/handler.go:97-130 | with a validated registry and the default rules, every request that reaches the backend passes its validation |
| DevClient.EveryRequestFollowsRoute | internal/devclient/handler.go:110-129 | every such request names its sender, starts from the alias override or the device default, follows profile, model and backend through the registry, and carries the given metadata with some source |
| DevClient.ReachesBackendIff | internal/devclient/handler.go:90-130 | which requests reach the backend, exactly, and that their input is the cleaned words |
| DevClient.RefusalIs | internal/devclient/handler.go:91-114 | which error reply a refused request gets, for the method, the body, a missing part of the handler and the route |
| Agent.DeliveryIsSafe | homeassistant/custom_components/hermes_voice/conversation.py:224-333 | in every interleaving each pending task has a live coroutine, each enqueue gives at most one notification, each enqueued task is pending, reported or logged, and the last task is pending or was notified as unavailable |
| Agent.StepKeepsInv | homeassistant/custom_components/hermes_voice/conversation.py:224-333 | every stretch of code between two awaits keeps the invariant |
| Agent.LeavesPendingOnlyWhenDecisive | homeassistant/custom_components/hermes_voice/conversation.py:238-309 | a task leaves the pending map only after a poll of that task saw an error or a status other than accepted |
| Agent.AcceptedTaskIsFollowed | homeassistant/custom_components/hermes_voice/conversation.py:188-197 | an accepted reply leaves the task pending, with a coroutine of its own, and the next status question is about it |
| Agent.PollForgetsAnyLast | homeassistant/custom_components/hermes_voice/conversation.py:238-249 | a final answer is spoken and clears the last task, whichever it is by then; the task asked about stays pending only after an error or while accepted, and no other pending task is dropped |
| Agent.UnsettledPollIsSpoken | homeassistant/custom_components/hermes_voice/conversation.py:234-246 | a failed transfer or an accepted task is spoken about and changes nothing else |
| Agent.UtteranceWaits | homeassistant/custom_components/hermes_voice/conversation.py:153-172 | an utterance waits for its reply with its own text |
| Agent.StatusQuestionAsks | homeassistant/custom_components/hermes_voice/conversation.py:224-232 | the status question polls the last task if there is one, and is answered at once otherwise |
| Agent.OtherReplyIsSpoken | homeassistant/custom_components/hermes_voice/conversation.py:173-202 | any reply but an accepted one with an ID is spoken as it is, and changes nothing else |
| Agent.SettledDeliveryIsTold | homeassistant/custom_components/hermes_voice/conversation.py:294-333 | what a deciding poll of a coroutine tells, removes and forgets, for each kind of answer |
| Agent.UnsettledDeliveryGoesOn | homeassistant/custom_components/hermes_voice/conversation.py:279-307 | after any other poll the coroutine sleeps again exactly if its task still waits |
| Agent.NewerTaskForgottenIff | homeassistant/custom_components/hermes_voice/conversation.py:241-249 | a task other than the one asked about is forgotten exactly if the answer is final and it became the last one meanwhile |
| Agent.NewerTaskIsForgotten | homeassistant/custom_components/hermes_voice/conversation.py:224-259 | a run in which that happens; the newer task is still pending |
| Agent.ReportedAgainIff | homeassistant/custom_components/hermes_voice/conversation.py:224-333 | without a new acceptance of a task, some continuation reports on it, for the first time or again, exactly if a poll of it is under way, a coroutine is going to make one, or it is the last task |
| Agent.SpokenAndNotified | homeassistant/custom_components/hermes_voice/conversation.py:224-321 | a run after which a task has been spoken about and may be reported again, and a continuation that notifies it too |
| Delivery.ReportsTellTheStoredOutcome | internal/devclient/handler.go:51-75 | in every run of agent and server together, every report on a task is its stored terminal outcome, so any two agree; the agent's `failed` and unknown-status branches are never reached |
| Delivery.EveryTaskIsPendingOrReported | homeassistant/custom_components/hermes_voice/conversation.py:261-331 | every accepted task is pending with a live coroutine, or its stored outcome has been reported |
| Delivery.ReportsStayTrue | internal/taskstore/memory.go:69-105 | once a report is given, no later step changes the record it tells of |
| Delivery.ServedAnswerOk | internal/devclient/handler.go:317-341 | a poll of a known task is answered by its record as it is at that moment, decisively exactly if the record is completed or failed |
| Delivery.UnknownTaskIsError | internal/devclient/handler.go:57-74 | a path that names no stored task is answered by an error |
| Delivery.RecordAnswerIs | internal/devclient/handler.go:317-341 | what a poll tells of an accepted, a completed and a failed record |
| Delivery.StepKeepsInv | homeassistant/custom_components/hermes_voice/conversation.py:153-333 | every step of agent, endpoint, dispatcher, backend or another client keeps the joint invariant |
| Provenance.ReportsTellTheOwnCommand | internal/devclient/handler.go:110-141 | end to end: a report on a task is the parsed answer of the one command run on the cleaned words of that task's utterance if it delivered one, and otherwise one of two messages that tell an interruption from a failure |
| Provenance.ReportsTellTheOwnResult | homeassistant/custom_components/hermes_voice/conversation.py:153-333 | for the CLI adapter and for any backend with plain results: a report on a task belongs to the turn whose text the task carries, that turn was served by the one invocation accepted as this task, and the report tells that invocation's own result |
| Provenance.EachTaskIsNotifiedOnce | homeassistant/custom_components/hermes_voice/conversation.py:261-333 | in the composition each task is notified at most once, whatever the coroutine |
| Provenance.DeliveriesDiffer | homeassistant/custom_components/hermes_voice/conversation.py:261-275 | no two deliveries are for the same task |
| Provenance.StepKeepsTraces | homeassistant/custom_components/hermes_voice/conversation.py:153-333 | every step keeps each delivery tied to one turn, each turn to one invocation, and each returned backend call to its command |
| Provenance.PostedIsClean | internal/devclient/handler.go:90-130 | what the program's endpoint makes of a posted utterance is a valid request for its cleaned words |
| Conversation.FastAnswerIsTheOwnCommand | internal/devclient/handler.go:110-146 | end to end: a turn whose call returned in time is answered with the parsed answer of its own command, run on the cleaned words of that turn, or with an error that tells an interruption from a failure |
| Conversation.FastResultIsSpoken | internal/devclient/handler.go:130-146 | for any backend: a fast result is replied with its own status and output, or its own error, and spoken as that |
| Conversation.FastAndStoredErrorsAgree | internal/devclient/handler.go:287-300 | an error that is not of a context is replied with the code and message that would be stored for it, under a status of its own; an unknown one as an internal error |
| Conversation.LostCallIsSpoken | internal/devclient/handler.go:287-300 | a canceled call and one whose task could not be recorded are replied with an internal error |
| Conversation.AcceptedCallIsFollowed | homeassistant/custom_components/hermes_voice/conversation.py:188-197 | an accepted call makes its task the last one, pending, with a new coroutine and the text of the turn |
| Conversation.FinishedTaskIsNotified | homeassistant/custom_components/hermes_voice/conversation.py:277-331 | in every run a sleeping coroutine may poll, and then notifies the stored outcome exactly if the record is finished |
| Conversation.StatusQuestionIsAnswered | homeassistant/custom_components/hermes_voice/conversation.py:224-257 | in every run the status question may be asked about the last task, and is answered by its stored outcome if the record is finished, and by saying that it still runs otherwise |

## Left out

- HTTP servers, JSON, URL escaping and dot segments: requests and replies are values and task paths plain strings, so an ID with `?`, `#` or `%` is taken as it stands.
- `internal/forwarder`, command-line flags, listen-address checks and start-up: network and configuration plumbing.
- YAML decoding and the check for inline secrets: registries are assumed to have passed validation, as `Load` makes sure.
- Running the subprocess: the outcome of the command is a parameter of the adapter, with `interrupted` for a context that ended it; the defaults of the adapter's configuration.
- Real time: the quick timer is a step that may happen at any moment, the clock a parameter, polling intervals a phase.
- Fairness: that timers fire, backends return and coroutines are scheduled is not assumed, so beyond the absence of deadlock and livelock in the dispatcher nothing is claimed to happen eventually.
- The dispatcher's `TaskRunner`: a hook that the program never configures.
- Running without the dispatcher, as start-up allows with a quick timeout that is not positive: every call then waits for its backend and no task arises.
- Goroutines and channels on the heap: the concurrent part is a state machine on values whose steps are atomic; the store-facing steps are also proved on the heap. The store's mutex becomes the atomicity of its methods.
- UTF-8: text is a sequence of code points, so invalid byte sequences do not occur; on valid text matching bytes and matching code points agree (section 3 of RFC 3629).
- `%q` in messages only adds quotes, without escaping; error texts apart from those that reach a user or the sorting of issues; descriptions of cleanup rules; of the reply to an utterance everything but status, output, task ID and error message.
- The regular-expression engine: the two patterns of validation are predicates.
- The algorithm of `sort.Slice`: an insertion sort stands in for it, and the result does not depend on that.
- Defaulting and cleaning of the backup directory: it is given as a cleaned prefix. Permissions, concurrent writers and failing removals.
- Home Assistant: configuration flow, entity removal and cancellation, wording, recognising a status question, time stamps of tasks.
- HermesAdapter.Invoke: leaves out the operation, backend ID and code of the error value, which nothing in the program reads.
- Delivery.ReportsTellTheStoredOutcome: assumes that a task store is configured, as start-up makes sure (`cmd/hermes-voice/main.go:139`), and that a backend other than the CLI adapter does not answer `accepted` itself; for the CLI adapter this is proved.
