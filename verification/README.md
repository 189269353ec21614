# Verified model of the delegation control plane

The control plane records, judges and finishes coding work that was delegated to executors. This project models
its decision logic in Dafny and proves what that logic guarantees over every input, every log and every run.

| files | what they model |
|---|---|
| `EventStore.dfy`, `StateMachine.dfy`, `ReplayInvariants.dfy`, `ReplayTheorems.dfy`, `ReplayWindows.dfy`, `ReplayExact.dfy`, `ReplayStories.dfy` | the append-only pilot log, its projection to active events, the replay of one block through its states, when exactly it takes an event, and histories it takes to their end |
| `AuditOrder.dfy`, `Reducer.dfy`, `ReducerProofs.dfy`, `ReducerExact.dfy` | reading a raw log for one block, and the observation reported for it |
| `CanonicalJson.dfy`, `CanonicalJsonProofs.dfy`, `CanonicalJsonExact.dfy` | canonical JSON text, unit by unit, and a decoder for it |
| `AuditTrail.dfy`, `AuditTrailProofs.dfy`, `AuditTrailExact.dfy`, `AuditWriter.dfy` | the hash-chained audit file: format, parser, and appends through a device that may fail |
| `DispatchModel.dfy`, `DispatchProofs.dfy`, `DispatchCircuit.dfy`, `DispatchPlan.dfy`, `Dispatcher.dfy`, `DispatchExact.dfy` | the lease-based dispatcher: its steps, what every run of steps keeps, when its circuit closes by itself, the steps the answers of the outside call for, the cycle that takes them, and its conditions written out |
| `TreeBuilder.dfy`, `TreeNodes.dfy`, `FinalizeModel.dfy`, `FinalizeOutcomes.dfy`, `Finalizer.dfy` | the accepted tree, the nodes it is built from in place, and finalization by compare-and-update under crashes and foreign ref writers |
| `BindingHealth.dfy` | quarantine and recovery of a model binding |
| `UsageCost.dfy`, `UsageAggregate.dfy`, `UsageExact.dfy` | pricing and aggregating usage records |
| `EvaluationHistory.dfy`, `Bootstrap.dfy` | the evaluation history, bootstrap sampling and percentile intervals |
| `DogfoodSchedule.dfy`, `DogfoodRunSet.dfy` | the interleaved schedule and the run-set verifier |
| `Prelude.dfy`, `Sorting.dfy`, `PilotEvents.dfy` | shared values, stable sorting, and the pilot's events |

Loops and objects that change are methods and classes proved against specification functions; protocols are
labelled steps, and a class method's writes are shown to be a legal run of them, so that whatever is proved of
runs holds of the code wherever it stops. A crash or a throw is the end of a run. Answers of clocks, processes,
Git, the file system and other services are parameters.

Text is a sequence of 16-bit code units in the canonical JSON and audit modules and a string elsewhere; hashes are
function parameters, and collision freedom is a stated hypothesis of the lemmas that need it. Timestamps are
integers, or absent where the source finds no calendar instant. JavaScript numbers that the source keeps to safe
integers are integers with the bound written out.

Some natural statements are false of the code. Each has its exact condition and a lemma that reaches the failing case:

- A dispatcher state is readable exactly when no lease was lost between a claim and its start
  (`DispatchProofs.ReadableIff`, `DispatchProofs.EarlyLossIsReachable`).
- An open circuit can close without a reset: given candidates enough, some run from the initial state does it exactly
  when the policy tolerates a failure and allows three active tasks. It takes a completion and a failure after it
  (`DispatchCircuit.ClosesByItselfIff`, `DispatchProofs.OpenCircuitStep`, `DispatchProofs.CompletionLetsFailureClose`).
- Every run records at most one commit exactly when there is but one to record, or nobody else writes the base or a
  commit that is attempted (`FinalizeOutcomes.OneCommitIff`; `FinalizeModel.RestoredBaseForks` and
  `FinalizeOutcomes.PlantedCommitForks` are the two ways to a second one).
- A log that appending accepted can be unreadable for a block, exactly when a correction cites an event of another
  block (`AuditOrder.AuditReadableIff`, `AuditOrder.EveryBlockReadableIff`, `AuditOrder.CrossBlockCorrectionAccepted`).
- After a rejection the same history can still be extended to a promotion, exactly when the rejected stage is below
  three (`EvaluationHistory.RejectionPromotableIff`, `EvaluationHistory.RejectionReopened`).
- The consecutive-failure figure of an unhealthy binding also counts failures that do not follow one another: it is the
  number of failures the observations end with exactly when nothing but failures followed the quarantine, or the
  quarantine did not begin with a failure and no later failure was followed by anything else
  (`BindingHealth.ReportedFailuresIff`, `BindingHealth.FailuresNotConsecutive`).
- The hash of an accepted entry is recorded under its path exactly when the path is not `__proto__`
  (`TreeNodes.WriteAcceptedTree`, `TreeBuilder.IgnoredKeyAccepted`).

## Model

| member | source | states |
|---|---|---|
| EventStore.AssertValidLog | src/pilot/event-store.ts:39-54 | the bookkeeping pass accepts a log exactly when every event is safe, has a new id, the next sequence number of its block, and references with matching hashes among the events before it |
| EventStore.AppendEvent | src/pilot/event-store.ts:74-89 | refines the append function: an identical event is a no-op, the same id with other content is refused, and a new event must follow the log |
| EventStore.AppendAccepts | src/pilot/event-store.ts:74-89 | a log that grew is valid exactly when the log was valid and the event followed it; refusals change nothing |
| EventStore.ValidIffGrown | src/pilot/event-store.ts:74-89 | a log is valid exactly when it was built by appends from nothing |
| EventStore.ReferencesReachBack | src/pilot/event-store.ts:56-72 | in a valid log an invalidation or supersession stands after its target |
| EventStore.ActiveEvents | src/pilot/event-store.ts:91-107 | the backward pass and the forward pass compute the well-founded meaning: an invalidation is effective iff no later effective one targets it; an event is active iff it is no invalidation, nothing effective targets it, and no event free of effective invalidation supersedes it |
| EventStore.CollectInvalidated | src/pilot/event-store.ts:95-102 | the backward pass collects exactly the invalidations and the events struck by an effective one |
| EventStore.CollectSuperseded | src/pilot/event-store.ts:103-106 | the forward pass adds exactly the events replaced by a surviving correction |
| EventStore.InvalidationUndoes | src/pilot/event-store.ts:91-107 | appending an invalidation of the last effective invalidation brings back the active events of before |
| EventStore.CorrectionReplaces | src/pilot/event-store.ts:91-107 | appending a correction removes its target from the active events and adds the correction, nothing else |
| EventStore.InvalidationRestores | src/pilot/event-store.ts:91-107 | invalidating a superseding event makes its target active again unless something else deactivates it |
| StateMachine.SameStringsIsPermutation | src/pilot/state-machine.ts:336-338 | equal sorted lists are equal as multisets, in both directions |
| StateMachine.FindWorkspaceReuse | src/pilot/state-machine.ts:349-355 | the owner map finds a workspace instance attested for two blocks iff there is one |
| StateMachine.ReplayBlock | src/pilot/state-machine.ts:340-613 | the replay loop, with its early exits, equals the fold of the step function over the block's active events in sequence order |
| ReplayInvariants.StartKeeps | src/pilot/state-machine.ts:406-422 | an accepted execution start keeps the invariant: next attempt number and kind, input revision from the previous output, fresh session, capability of the arm (written out in `ReplayExact.CapabilitiesOfArms`), escalated binding for an adaptive third attempt |
| ReplayInvariants.CompletionKeeps | src/pilot/state-machine.ts:423-443 | an accepted completion is the current attempt's own and keeps the invariant |
| ReplayInvariants.ValidationKeeps | src/pilot/state-machine.ts:444-452 | accepted validation evidence keeps the invariant and is added to its attempt's evidence |
| ReplayInvariants.ReviewStartKeeps | src/pilot/state-machine.ts:453-470 | an accepted review start keeps the invariant: round and attempt match, reviewer session is fresh and is no executor's |
| ReplayInvariants.ReviewKeeps | src/pilot/state-machine.ts:471-517 | an accepted verdict keeps the invariant: its revisions, boundary, evidence and unresolved findings are those of the history, and it accepts only with none open |
| ReplayInvariants.EscalationKeeps | src/pilot/state-machine.ts:573-576 | an accepted escalation keeps the invariant: adaptive arm, citing the second-round rejection, naming a registered strong binding |
| ReplayInvariants.UnlistedKeeps | src/pilot/state-machine.ts:381-405 | the other accepted events keep the invariant |
| ReplayInvariants.StepKeeps | src/pilot/state-machine.ts:381-598 | every accepted step keeps the inductive invariant that ties the replay's variables to the ledger of the history and the ledger to the pilot's rules |
| ReplayTheorems.ReplayKeeps | src/pilot/state-machine.ts:340-613 | the invariant holds after every event of every replay that goes on |
| ReplayTheorems.ValidReplayObeysRules | src/pilot/state-machine.ts:340-613 | every log that replays as valid has one unbroken revision chain of at most three attempts, capabilities fixed by the arm (written out in `ReplayExact.CapabilitiesOfArms`), reviews in matching order with chained boundaries, pairwise distinct sessions, and escalation only by the adaptive arm after the second rejection |
| ReplayTheorems.AcceptanceIsEarned | src/pilot/state-machine.ts:577-612 | an accepted block returns exactly the revision and tree of its last completed attempt, which the last verdict accepted, with no open finding; any other outcome returns none |
| ReplayTheorems.StepRises | src/pilot/state-machine.ts:177-225 | a step leaves the state alone or strictly raises its rank |
| ReplayTheorems.BoundedProgress | src/pilot/state-machine.ts:301-312 | however long the history, a block changes state at most eighteen times |
| ReplayTheorems.TerminalIsFinal | src/pilot/state-machine.ts:213-214 | a failed or blocked block takes no further event; an accepted one takes only defect reports and stays accepted |
| ReplayWindows.AttemptWindow | src/pilot/state-machine.ts:444-446 | validation evidence is accepted exactly between the completion of the last attempt and the start of its review |
| ReplayWindows.ReviewWindow | src/pilot/state-machine.ts:391-399 | a review's window is open exactly while nothing that closes windows has followed its completion |
| ReplayWindows.OperationWindow | src/pilot/state-machine.ts:518-546 | an orchestrator operation is open exactly while nothing but its own usage has followed it |
| ReplayWindows.UsageInsideWindows | src/pilot/state-machine.ts:525-566 | every recorded usage lies inside the window of each owner it names |
| ReplayExact.CapabilitiesOfArms | src/pilot/state-machine.ts:83-95 | in every log that replays as valid each attempt runs on a binding registered with its capability, which is strong under arm A and for direct work, cheap under arm B, and under arm C strong for the third attempt and cheap for the others |
| ReplayExact.StepGoesIff | src/pilot/state-machine.ts:381-598 | a replay goes on over an event exactly when its number is the next, its time is given and no earlier than the last, it is the block's own under the block's arm, and it is recorded and allowed |
| ReplayExact.IdentifiedIff | src/pilot/state-machine.ts:50-81 | an event belongs to the pilot, its manifest, its block and the arm that the block is assigned, field by field; without an assignment the block must be for direct strong work |
| ReplayExact.StartIff | src/pilot/state-machine.ts:406-422 | the exact condition under which the next attempt starts, on the ledger of the history: number, kind, capability of the arm on a registered binding, new identifier and session, input from the previous output, escalated binding |
| ReplayExact.CompletionIff | src/pilot/state-machine.ts:423-443 | the exact condition under which an attempt completes: its own particulars, its duration, its tree reproduced under the manifest's algorithm |
| ReplayExact.ValidationIff | src/pilot/state-machine.ts:444-452 | the exact condition under which evidence is taken: for the last attempt between completion and review, on the block's surfaces, passed exactly when no test fails |
| ReplayExact.ReviewStartIff | src/pilot/state-machine.ts:453-470 | the exact condition under which a review starts: the round, the manifest's reviewer, the attempt just completed and its session, new identifier and session |
| ReplayExact.VerdictIff | src/pilot/state-machine.ts:471-517 | the exact condition under which a verdict is taken: the review under way, revisions and boundaries chained, evidence of the attempt, findings flagged and resolved only when open, all left open named, no acceptance over them, no rejection without a word |
| ReplayExact.VerdictLeads | src/pilot/state-machine.ts:185-210 | where a verdict leads, by round, decision and arm |
| ReplayExact.OpenAfterIff | src/pilot/state-machine.ts:497-502 | a finding is open after a list of findings exactly when the list last opened it, or does not name it and it was open before |
| ReplayExact.EscalationIff | src/pilot/state-machine.ts:289-298 | the exact condition under which the adaptive arm escalates: after its second rejection, citing it, to a binding registered as strong, under the manifest's policy |
| ReplayExact.AcceptanceIff | src/pilot/state-machine.ts:577-585 | the exact condition under which a block is accepted: after an accepting verdict, with revision and tree of the last attempt |
| ReplayExact.DefectIff | src/pilot/state-machine.ts:586-593 | a defect is taken exactly against an accepted block, naming the accepting review and its revision |
| ReplayExact.EndIff | src/pilot/state-machine.ts:212-213 | a block fails exactly after a third rejection, and is blocked from any state but the last three |
| ReplayExact.OperationIff | src/pilot/state-machine.ts:518-524 | an orchestrator operation is taken before the end under a new identifier on a registered binding |
| ReplayExact.UsageIff | src/pilot/state-machine.ts:525-566 | the exact condition under which usage is taken: registered binding, the manifest's prices, and for each owner named its open window, role, binding and number |
| ReplayExact.ReworkIff | src/pilot/state-machine.ts:567-572 | rework is taken exactly while the window of a completed review is open, for the attempt it examined |
| ReplayStories.TaleIsReported | src/pilot/state-machine.ts:340-613 | completeness: a block described field by field, planned, assigned under any arm or left to direct work, attested, and taken through one to three attempts with their reviews, the adaptive arm escalating before its third, replays as valid and accepted with the last attempt's revision, tree and review, or as failed after a third rejection |
| AuditOrder.AuditForgetsOrder | src/pilot/reducer.ts:50-59 | with distinct event ids the audit order of a raw log does not depend on the order it came in |
| AuditOrder.AuditKeepsBlocks | src/pilot/reducer.ts:50-59 | reading a valid log in audit order keeps each block's own order |
| AuditOrder.AuditReadableIff | src/pilot/reducer.ts:126-135 | a valid log is still valid in the audit order for a block exactly when no correction cites an event of another block that this order puts after it |
| AuditOrder.EveryBlockReadableIff | src/pilot/reducer.ts:126-135 | every block with events can be observed from a valid log exactly when no correction crosses blocks, although appending allows it |
| AuditOrder.CrossBlockCorrectionAccepted | src/pilot/event-store.ts:74-89 | appending builds a log in which an event corrects the first event of another block, and the corrector's own block cannot be read from it |
| Reducer.SafeSum | src/pilot/reducer.ts:21-29 | the exact total, or nothing exactly when a value is negative or the total is no safe integer |
| Reducer.ObservationFor | src/pilot/reducer.ts:102-421 | the assignments of the observation, with each later check overriding the error, equal the observation of the block's reading |
| Reducer.ReduceEvents | src/pilot/reducer.ts:423-433 | one observation per block by id, or nothing exactly when some event is not the manifest's |
| Reducer.ReadForgetsOrder | src/pilot/reducer.ts:126-135 | two arrangements of one raw log read the same for every block, even when event ids repeat |
| Reducer.ReduceForgetsOrder | src/pilot/reducer.ts:423-433 | reordering a raw log changes neither the observations nor whether there are any |
| ReducerProofs.HistoryIsActive | src/pilot/reducer.ts:126-135 | in a valid log a block's active events already are the sequence-ordered history the replay reads |
| ReducerProofs.ObservedAcceptance | src/pilot/reducer.ts:186-190 | a block observed as accepted had one to three attempts, all completed and reviewed; first-pass means one attempt, after-one-repair at most two, escalated a third attempt of the adaptive arm, and repairs one iff there was a second attempt |
| ReducerProofs.ReasonsExplain | src/pilot/reducer.ts:329-354 | reasons are given exactly for an invalid observation, and phase, outcome and acceptance flags only for a valid one |
| ReducerExact.ObservedValidity | src/pilot/reducer.ts:136-340 | an observation is valid exactly when the log was read, its replay is valid, usage aggregates, validations pass exactly without failing tests, and findings stay within the safe integers; accepted, failed and blocked outcomes are those of the replay's last state |
| ReducerExact.ObservedReasons | src/pilot/reducer.ts:161-343 | which error an invalid observation gives, later checks overriding earlier ones |
| ReducerExact.ObservedFigures | src/pilot/reducer.ts:253-367 | attempts, repairs, escalation and findings are counts over the active events |
| ReducerExact.ObservedFlags | src/pilot/reducer.ts:186-190 | first-pass and after-one-repair acceptance by the verdicts of the rounds |
| CanonicalJson.StringRoundTrip | src/pilot/canonical-json.ts:5 | the string form of section 7 of RFC 8259 decodes to the string, lone surrogates included |
| CanonicalJsonProofs.RoundTrip | src/pilot/canonical-json.ts:3-23 | decoding a serialization, with anything after it, gives back the value with sorted members, and the rest |
| CanonicalJsonProofs.CanonKeepsMeaning | src/pilot/canonical-json.ts:16-22 | sorting the members at every level keeps the value's meaning |
| CanonicalJsonProofs.DecodesCanonically | src/pilot/canonical-json.ts:3-23 | serialize then decode gives the canonical form of the value |
| CanonicalJsonProofs.SameMeaningSameText | src/pilot/canonical-json.ts:3-23 | values equal up to member order serialize to the same text, with keys in the order of section 3.2.3 of RFC 8785 |
| CanonicalJsonProofs.TextIffMeaning | src/pilot/canonical-json.ts:3-27 | two plain values serialize to the same text exactly when they mean the same |
| CanonicalJsonProofs.DecodingRecoversMeaning | src/pilot/canonical-json.ts:3-23 | decoding a serialization recovers the meaning of the value |
| CanonicalJsonProofs.SerializesOnOneLine | src/pilot/canonical-json.ts:3-23 | a serialization contains no line feed |
| CanonicalJsonExact.KeyLeIff | src/pilot/canonical-json.ts:16-22 | keys are ordered by their first different unit, a prefix before what it begins |
| CanonicalJsonExact.WordsAre | src/pilot/canonical-json.ts:3-10 | the words null, true and false, letter by letter |
| CanonicalJsonExact.UnitEscapes | src/pilot/canonical-json.ts:5 | how each single unit is written inside quotes: short escapes, four lower-case hexadecimal digits for other controls and lone surrogates, itself otherwise (section 7 of RFC 8259) |
| CanonicalJsonExact.EscapeJoins | src/pilot/canonical-json.ts:5 | strings are escaped piece by piece where no surrogate pair is cut |
| CanonicalJsonExact.ObjectIs | src/pilot/canonical-json.ts:16-22 | an object is its members in key order, each with its quoted key, a colon and its value's text, with commas between |
| CanonicalJsonExact.ArrayIs | src/pilot/canonical-json.ts:11 | an array is its items' texts in order, with commas between |
| AuditTrail.ParseRecords | src/runtime/audit-trail.ts:294-318 | the parser's loop equals the line-by-line fold: sequence, previous hash, own hash and event id of every line are checked |
| AuditTrail.LineParses | src/runtime/audit-trail.ts:280-292 | a well-formed record's line parses to the record |
| AuditTrailExact.LineIs | src/runtime/audit-trail.ts:276-278 | the text of a record's line, member by member in canonical order, and the text without its own hash that its hash is taken of |
| AuditTrailExact.ChainIff | src/runtime/audit-trail.ts:294-318 | an unbroken chain by positions: numbers from one, the hash of the record before, the record's own hash, loadable entries, one text per event id |
| AuditTrailProofs.ParseIff | src/runtime/audit-trail.ts:294-318 | the parser accepts exactly the files an unbroken chain is written as, and returns that chain |
| AuditTrailProofs.PrefixParses | src/runtime/audit-trail.ts:294-318 | a prefix of a trail's file is accepted exactly at a record boundary, and then parses to the records before it |
| AuditTrailProofs.HashFixesRecord | src/runtime/audit-trail.ts:290 | under an injective hash equal record hashes mean equal records |
| AuditTrailProofs.SortedLoaderLawful | src/runtime/audit-trail.ts:280-292 | the laws asked of the entry loader can be kept, even by one that accepts every plain entry |
| AuditTrailProofs.SameLastHashSameFile | src/runtime/audit-trail.ts:390-405 | under an injective hash two files that verify with the same last hash are the same, unit for unit |
| AuditWriter.Trail.constructor | src/runtime/audit-trail.ts:332-345 | opening a parsed file establishes that memory and file agree |
| AuditWriter.Trail.WriteLine | src/runtime/audit-trail.ts:320-330 | short writes are continued; what reached the file is a prefix of the line; it succeeds exactly when some first counts of the device are positive and add up to the line and the sync succeeds |
| AuditWriter.Trail.Append | src/runtime/audit-trail.ts:350-375 | succeeds exactly when the trail is open and has not failed and the entry can be appended; then a new entry adds one record chained to the last and the file parses to the records; an identical replay changes nothing; any failure changes no record and refuses every later append |
| AuditWriter.AppendableIff | src/runtime/audit-trail.ts:350-375 | an entry can be appended exactly when it loads and either its id is stored with the same canonical text, or its id is new and the device takes the whole line of its record and syncs |
| AuditWriter.ReopenAfterFailure | src/runtime/audit-trail.ts:320-345 | after any failed append, reopening rejects the file or finds the records, or those and the one whose write completed |
| AuditWriter.Open | src/runtime/audit-trail.ts:332-345 | a file is opened exactly when it parses, with the parsed records |
| DispatchProofs.RunSound | src/runtime/autonomous-dispatcher.ts:682-686 | over any run of steps claimed and running tasks never exceed the bound, and task identities are unique |
| DispatchProofs.RunKeepsTasks | src/runtime/autonomous-dispatcher.ts:470-752 | completed, reopened and failed tasks never change again, and no task is forgotten |
| DispatchProofs.NeverReclaimed | src/runtime/autonomous-dispatcher.ts:698-703 | a stored candidate and revision is never claimed again |
| DispatchProofs.CompletionIsEarned | src/runtime/autonomous-dispatcher.ts:610-640 | no task is completed without a step that saw its run merged and verified with PASS on the same merge commit |
| DispatchProofs.TasksAccounted | src/runtime/autonomous-dispatcher.ts:478-741 | every stored task is what the run made of it: claimed with the request, hash and lease it records, started for that very request, its lease expiry the last one set, one failure exactly when failed or reopened, evidence exactly when finished |
| DispatchProofs.ReadableIff | src/runtime/autonomous-dispatcher.ts:312-316 | a written state can be read back exactly when no lease was lost between a claim and its start |
| DispatchProofs.EarlyLossIsReachable | src/runtime/autonomous-dispatcher.ts:498-525 | a run that writes a state the reader refuses: claim, crash before the start, lease lost at recovery |
| DispatchProofs.CounterCounts | src/runtime/autonomous-dispatcher.ts:505-522 | the failure counter equals the failures and reopenings since the last completion or reset, and reaching the limit opens the circuit |
| DispatchProofs.OpenCircuitStep | src/runtime/autonomous-dispatcher.ts:682-687 | an open circuit admits no claim; one step leaves it open unless it is a reset or a failure that leaves the count below the limit |
| DispatchProofs.CircuitHolds | src/runtime/autonomous-dispatcher.ts:682-687 | at the limit the circuit stays open and admits no claim along any run without completion or reset |
| DispatchProofs.CompletionLetsFailureClose | src/runtime/autonomous-dispatcher.ts:636-639 | why completions are excluded: after one, a failure closes the open circuit without a reset |
| DispatchCircuit.ClosesByItselfIff | src/runtime/autonomous-dispatcher.ts:636-639 | given candidates enough, some run of steps from the initial state finds the circuit open and later closed without a reset, exactly when the policy tolerates a failure and allows three active tasks |
| DispatchCircuit.HeldAlong | src/runtime/autonomous-dispatcher.ts:682-687 | under any stricter policy a circuit once open is open at the end of every run without a reset |
| Dispatcher.AutonomousDispatcher.ReadState | src/runtime/autonomous-dispatcher.ts:322-337 | reading succeeds exactly when the stored state obeys the lifecycle rules, and returns the durable state |
| Dispatcher.AutonomousDispatcher.Write | src/runtime/autonomous-dispatcher.ts:350-370 | the file is replaced as a whole by the state after one more step, or not at all, exactly as the write succeeds or throws |
| Dispatcher.AutonomousDispatcher.SetMode | src/runtime/autonomous-dispatcher.ts:458-469 | the durable state changes by the mode alone, never while a cycle runs; succeeds exactly when not busy, readable, and the mode is already set or the write goes through |
| Dispatcher.AutonomousDispatcher.Reset | src/runtime/autonomous-dispatcher.ts:437-457 | the durable state changes by the circuit and counter alone, never while a cycle runs; succeeds exactly when not busy, readable, and there is nothing to reset or it is paused and the write goes through |
| Dispatcher.AutonomousDispatcher.RecoverClaimed | src/runtime/autonomous-dispatcher.ts:478-536 | every claimed task is restarted with a request of the recorded hash or failed for a lost lease, step by legal step, exactly as the answers prescribe, and running tasks are untouched |
| Dispatcher.AutonomousDispatcher.RecoverOne | src/runtime/autonomous-dispatcher.ts:478-536 | the case table of recovering: nothing exactly for an unavailable, invalid or changed candidate, a throw or a foreign run; a lost lease fails the task, a renewed one starts the recorded request with the new expiry |
| DispatchPlan.RecoveredAs | src/runtime/autonomous-dispatcher.ts:478-536 | the task a recovered one has become, by the answers, field by field |
| Dispatcher.AutonomousDispatcher.ResumeOne | src/runtime/autonomous-dispatcher.ts:537-681 | the case table of resuming: nothing exactly for a missing run id, a throw, a foreign run or request, missing failure evidence, an unmerged result or a missing acknowledgement; a lost lease fails the task, and under a renewed one the run's state and the verdict on the merged commit choose failure, extension, completion or reopening, with the new expiry |
| Dispatcher.AutonomousDispatcher.ResumeRunning | src/runtime/autonomous-dispatcher.ts:537-681 | every task that was running when the cycle began takes the step the answers prescribe for it, in order; it goes through exactly when every answer allows it |
| DispatchPlan.ResumedAs | src/runtime/autonomous-dispatcher.ts:537-681 | the task a resumed one has become, by the answers, field by field |
| Dispatcher.AutonomousDispatcher.ClaimNew | src/runtime/autonomous-dispatcher.ts:682-746 | the steps of admission are those the answers prescribe: no more than the capacity is claimed, every listed candidate is stored or was declined, and the cursor advances |
| Dispatcher.AutonomousDispatcher.ClaimOne | src/runtime/autonomous-dispatcher.ts:697-741 | one listed candidate: passed over if stored, declined by the source, or claimed with its request, hash, lease and expiry and then launched |
| DispatchPlan.CapacityIs | src/runtime/autonomous-dispatcher.ts:682-687 | how many candidates a cycle may admit: none unless running with the circuit closed, otherwise as many as both bounds leave |
| DispatchExact.ActiveAre | src/runtime/autonomous-dispatcher.ts:682 | the tasks holding a slot are the claimed and the running ones |
| DispatchExact.CandidateIff | src/runtime/autonomous-dispatcher.ts:218-233 | which candidates are worked on: permitted source and repository, distinct labels with all required ones among them, a request for the same repository |
| DispatchExact.StepAllowedIff | src/runtime/autonomous-dispatcher.ts:437-525 | when a mode change, reset, loss, claim or cursor advance may be written, by the stored tasks |
| DispatchExact.StartAllowedIff | src/runtime/autonomous-dispatcher.ts:478-536 | when a claimed task may start: its candidate is the one it was claimed for, under the recorded hash, and the run answers its request |
| DispatchExact.EndAllowedIff | src/runtime/autonomous-dispatcher.ts:575-680 | when a running task may fail, go on, be completed or be reopened, by its run's state and the verdict on the merged commit |
| DispatchExact.TallyCounts | src/runtime/autonomous-dispatcher.ts:475 | what the report counts, as numbers of steps |
| Dispatcher.AutonomousDispatcher.RunCycle | src/runtime/autonomous-dispatcher.ts:470-752 | wherever the cycle ends, its writes are the first of those the answers prescribe; it succeeds exactly when not busy, readable, and paused or every answer lets it run to its end; then all those writes are made, every task active at the start has become what the answers make of it, and the report counts exactly the steps; nothing happens when busy, paused or unreadable |
| TreeBuilder.InsertLookup | src/runtime/git-object-writer.ts:133-148 | an insertion adds the file at its path and changes no other path |
| TreeBuilder.InsertBlocked | src/runtime/git-object-writer.ts:133-148 | an insertion is refused exactly when a stored path equals, contains or lies below the new one |
| TreeBuilder.BuildExact | src/runtime/git-object-writer.ts:199-216 | the build succeeds exactly when no path is a segment-wise prefix of another, and then holds exactly the entries |
| TreeBuilder.SameContentsSameId | src/runtime/git-object-writer.ts:187-196 | trees with the same contents have the same id |
| TreeBuilder.SameIdSameContents | src/runtime/git-object-writer.ts:187-196 | conversely, if object ids do not collide, trees with the same id have the same contents |
| TreeBuilder.MakeTreeIs | src/runtime/git-object-writer.ts:187-196 | the id is that of one record per entry in name order, a directory's with its subtree's id, a file's with its mode and blob |
| TreeBuilder.OrderIndependent | src/runtime/git-object-writer.ts:199-219 | the order of the entries decides neither whether the tree is built nor its id |
| TreeBuilder.SplitInjective | src/runtime/git-object-writer.ts:134 | different path strings are different places in the tree |
| TreeBuilder.SplitIs | src/runtime/git-object-writer.ts:134 | the segments hold no slash and join to the path |
| TreeBuilder.AcceptableIff | src/runtime/git-object-writer.ts:199-216 | which entries are accepted, written out: paths relative with allowed names, the two file modes, no two paths that fold together, none above another |
| TreeBuilder.HoldsIs | src/runtime/git-object-writer.ts:199-216 | what holding exactly the entries means, path by path |
| TreeNodes.TreeNode.constructor | src/runtime/git-object-writer.ts:129-131 | a new node stands for the empty tree and owns itself alone |
| TreeNodes.TreeNode.Insert | src/runtime/git-object-writer.ts:133-148 | the nested nodes are changed in place exactly as the insertion on trees prescribes, creating directories on the way; a refused insertion leaves the whole tree as it was |
| TreeNodes.TreeNode.MakeTree | src/runtime/git-object-writer.ts:187-197 | the id made from the nodes bottom-up is the id of the tree they stand for |
| TreeNodes.WriteAcceptedTree | src/runtime/git-object-writer.ts:199-219 | accepts exactly safe paths and modes with no two paths folding together and none above another; returns the id of a tree holding exactly the entries, and the hash of every entry under its path, except under `__proto__`, where the source's plain object ignores it |
| TreeBuilder.IgnoredKeyAccepted | src/runtime/git-object-writer.ts:204-217 | an entry with the path `__proto__` is accepted, and its hash is missing from the record |
| FinalizeModel.RefMovesOnlyByCas | src/runtime/finalize.ts:172-180 | only the compare-and-update changes the ref, from the attempt's base to its commit |
| FinalizeModel.MovesBounded | src/runtime/finalize.ts:172-180 | over any run of attempts, crashes and foreign writes the ref is moved at most once more than others put the base back |
| FinalizeModel.OneCommit | src/runtime/finalize.ts:133-210 | if others keep off the base and the intended commits, the ref is moved at most once and every COMMIT_CREATED names the same commit |
| FinalizeModel.AppendWasReadBack | src/runtime/finalize.ts:181-183 | COMMIT_CREATED is appended only after the ref was read back as its commit, with nothing but foreign writes in between |
| FinalizeModel.RetryOutcome | src/runtime/finalize.ts:133-210 | an undisturbed retry from any state succeeds exactly when the ref is at its commit, or at its base with a faithful tree; otherwise it appends nothing |
| FinalizeModel.RetryCompletes | src/runtime/finalize.ts:133-210 | however often attempts at one event crash, the journal holds only that event and the next undisturbed attempt completes |
| FinalizeModel.RestoredBaseForks | src/runtime/finalize.ts:172-180 | the keep-off hypothesis is needed: a restored base lets a second commit be recorded |
| FinalizeOutcomes.OneCommitIff | src/runtime/finalize.ts:133-210 | every run of attempts at a contract's events, crashes and the given foreign writes records at most one commit, exactly when the events share one commit or nobody else writes the base or a commit of theirs |
| FinalizeOutcomes.PlantedCommitForks | src/runtime/finalize.ts:172-183 | a second commit is recorded, without a second move and without the base restored, when somebody writes a commit that is attempted later |
| FinalizeOutcomes.FailedAfterMoveIff | src/runtime/git-object-writer.ts:251-265 | an attempt disturbed by any foreign writes ends failed after having moved the ref exactly when one of its later checks found another ref or a commit without the accepted tree |
| FinalizeOutcomes.FailedCheckExplained | src/runtime/git-object-writer.ts:251-265 | such a check fails only because of a foreign write since the move, or because the commit does not hold the accepted tree |
| Finalizer.EvidenceBinds | src/runtime/finalize.ts:78-154 | the hashes of a COMMIT_CREATED pin contract, validation results and review, and the review accepted the tree and diff every validation passed on |
| Finalizer.AcceptedIff | src/runtime/finalize.ts:78-150 | the evidence is accepted exactly under the comparisons of the contract, validation manifest, its results and the attestation, written out field by field |
| Finalizer.ReadyIff | src/runtime/finalize.ts:133-163 | when an attempt reaches the protocol: accepted evidence, the reviewed diff observed before and after the snapshot, a buildable snapshot that shows it |
| Finalizer.EventIs | src/runtime/finalize.ts:163-196 | the event of an attempt: run, base, tree, commit and the hashes of its evidence |
| Finalizer.VerifySnapshot | src/runtime/finalize.ts:113-131 | accepts exactly snapshots without folding collisions, with deleted paths gone and every other change showing its reviewed bytes at its exact path |
| Finalizer.TaskRef.FinalizeRun | src/runtime/finalize.ts:133-210 | does nothing unless all evidence holds; otherwise takes only the protocol's steps, and succeeds undisturbed exactly under the condition of a retry |
| Finalizer.TaskRef.Update | src/runtime/git-object-writer.ts:251-265 | the update and its two checks: on success the attempt has moved the ref and seen commit and tree |
| BindingHealth.Evaluate | src/runtime/binding-health.ts:128-218 | the loop's verdict and reported figures are those of the monitor over the observations in time order, and it refuses exactly invalid policies, repeated ids and foreign or future observations |
| BindingHealth.HealthyJustified | src/runtime/binding-health.ts:153-194 | HEALTHY exactly when some start or recovery is followed by nothing that called for quarantine |
| BindingHealth.CleanMeans | src/runtime/binding-health.ts:160-172 | such a stretch is exactly one without a critical failure, without the maximum run of failures, and without a full-enough window with failures over the permitted share, counted in positions of the observations and up to half a basis point |
| BindingHealth.RateIs | src/runtime/binding-health.ts:164 | the failure rate is the share of failed positions in basis points, rounded half up, and zero over nothing |
| BindingHealth.WindowIs | src/runtime/binding-health.ts:160-163 | the window is the last observations other than accepted canaries, as many as the policy says |
| BindingHealth.TripsIff | src/runtime/binding-health.ts:165-172 | an observation calls for quarantine exactly when it is critical, ends the maximum run of failures, or leaves a full-enough window over the permitted share |
| BindingHealth.TrailingMeaning | src/runtime/binding-health.ts:162 | the consecutive counter reaches n exactly when the last n observations failed |
| BindingHealth.RecoveryEarned | src/runtime/binding-health.ts:183-193 | every recovery is backed by the required canaries, each no earlier than the cooldown after the last failure, with no failure in between |
| BindingHealth.SickJustified | src/runtime/binding-health.ts:176-194 | otherwise a quarantine is still open; its clock, canary count, window and failure count are exactly described |
| BindingHealth.ReportedFailuresIff | src/runtime/binding-health.ts:158-194 | exactly when the reported figure of an unhealthy binding is the number of failures its observations since the last recovery end with |
| BindingHealth.FailuresNotConsecutive | src/runtime/binding-health.ts:158-194 | under the default policy two failures, a success and a failure are reported as three consecutive failures |
| BindingHealth.ActionJustified | src/runtime/binding-health.ts:198-201 | USE exactly when a clean stretch justifies it; otherwise RUN_CANARY exactly when the cooldown has passed since the open quarantine began or last failed |
| BindingHealth.HealthyReport | src/runtime/binding-health.ts:195-197 | a healthy report's window and failure count are those since the last recovery |
| BindingHealth.ReportedRate | src/runtime/binding-health.ts:195-197 | the reported rate is the rounded share of failures in the window since the last recovery, or up to the observation that began the open quarantine |
| BindingHealth.RoutingAllowed | src/runtime/binding-health.ts:220-242 | refuses exactly ambiguous or unbounded snapshot sets and snapshots whose hash, time or scope is wrong; otherwise allows routing exactly when no snapshot of the binding for one of the traits forbids it |
| BindingHealth.OrderForgotten | src/runtime/binding-health.ts:139-143 | the order in which observations are handed in does not matter |
| UsageCost.DimensionalCost | src/pilot/usage-cost.ts:108-123 | input, output, cached and reasoning tokens each times its rate, added over the priced dimensions; incomplete exactly when a priced dimension has no count, refused exactly when that sum is no safe integer |
| UsageCost.PriceUsage | src/pilot/usage-cost.ts:141-219 | the branches compute the reported costs, their provenance and the reasons as the cost rules define them, or refuse |
| UsageCost.ObservedCostIs | src/pilot/usage-cost.ts:150-186 | the observed cost: the billed one, or the sum of tokens times rates when usage is shown, counted, and agrees with a recorded cost, or none |
| UsageCost.EstimatedCostIs | src/pilot/usage-cost.ts:188-205 | the estimated cost: the sum of tokens times rates when the estimator is known and a recorded cost agrees, or none |
| UsageCost.UnpricedOtherwise | src/pilot/usage-cost.ts:125-150 | without a tariff that fits there is no cost and some reason |
| UsageCost.RefusedIff | src/pilot/usage-cost.ts:141-219 | pricing is refused exactly when a sum that is called for is no safe integer |
| UsageCost.InputsSafeIff | src/pilot/usage-cost.ts:86-102 | which inputs are safe, written out |
| UsageCost.SnapshotReasonsAre | src/pilot/usage-cost.ts:125-139 | the reasons for leaving a record unpriced, each exactly when its condition holds |
| UsageCost.ObservedReasonsAre | src/pilot/usage-cost.ts:152-186 | the reasons about the observed cost, each exactly when its condition holds |
| UsageCost.EstimatedReasonsAre | src/pilot/usage-cost.ts:188-205 | the reasons about the estimated cost, each exactly when its condition holds |
| UsageCost.CostsSafe | src/pilot/usage-cost.ts:141-219 | every reported cost is a non-negative safe integer |
| UsageCost.NoReasonsMeansPriced | src/pilot/usage-cost.ts:141-219 | a record priced without any reason has exactly the costs it shows evidence for |
| UsageAggregate.AggregateMeasure | src/pilot/usage-cost.ts:221-237 | the sum of a complete column, none for an incomplete one, refused for an unsafe value or total |
| UsageExact.MeasureIs | src/pilot/usage-cost.ts:221-237 | a measure counts the values present and has a value exactly when all are; refused exactly for a value that is unsafe or a complete sum above the safe integers |
| UsageAggregate.Dedupe | src/pilot/usage-cost.ts:268-278 | fails exactly when two records with one id differ; otherwise keeps first occurrences and counts the rest |
| UsageAggregate.RecordsFacts | src/pilot/usage-cost.ts:268-278 | the kept records are the members of the log, one per usage id |
| UsageAggregate.AggregateUsage | src/pilot/usage-cost.ts:263-342 | the loops compute the aggregate of the distinct records in id order, with the sorted lists of unknown bindings and incomplete records, or fail |
| UsageAggregate.OrderIndependent | src/pilot/usage-cost.ts:263-342 | the order of the events decides nothing |
| UsageAggregate.ReplayIgnored | src/pilot/usage-cost.ts:270-276 | a byte-identical replay adds one to the replays and changes nothing else |
| UsageAggregate.ConflictFails | src/pilot/usage-cost.ts:274 | two different records under one id make aggregation fail, wherever they stand |
| UsageAggregate.TotalsExact | src/pilot/usage-cost.ts:323-335 | replays are events minus distinct ids; a total is present exactly when every record has the cost, and is the exact sum over the distinct records |
| UsageAggregate.ListsExact | src/pilot/usage-cost.ts:292-322 | the lists name exactly the usage ids whose binding is not registered, and exactly the records not fully priced, with their reasons |
| UsageExact.LineIs | src/pilot/usage-cost.ts:286-319 | a record keeps its prices unless its binding or some tariff's is unregistered; each reason on its line exactly when its condition holds |
| UsageExact.GivenIff | src/pilot/usage-cost.ts:263-342 | aggregation succeeds exactly without conflicting records, repeated bindings, refused prices and refused measures |
| UsageAggregate.StrongTotalsAdd | src/pilot/usage-cost.ts:239-261 | a strong total is the sum of the four reported dimension totals, and is there only when every strong record counts all four |
| UsageExact.StrongAre | src/pilot/usage-cost.ts:323 | the strong records are those whose binding is registered as strong, in order |
| UsageExact.StrongTokensAre | src/pilot/usage-cost.ts:239-261 | what is counted for each dimension, estimated tokens only under a named and versioned estimator |
| UsageExact.TotalsAre | src/pilot/usage-cost.ts:245-259 | a record adds to the strong total exactly when it shows all four dimensions, with their sum, and when the totals are refused |
| EvaluationHistory.AppendEvaluation | src/pilot/evaluate.ts:702-730 | an identical report is a no-op, another claim to a taken place is refused, and a new report is accepted exactly when it extends the last |
| EvaluationHistory.ExtendsIff | src/pilot/evaluate.ts:673-700 | when a report extends a history, written out: identifiers, stage and decision, predecessor, stage order and evidence |
| EvaluationHistory.HistoryOrdered | src/pilot/evaluate.ts:673-730 | histories built by appending have versions one to n, distinct ids, one pilot, manifest and gate policy, and strictly increasing stage and evidence |
| EvaluationHistory.TerminalStays | src/pilot/evaluate.ts:685-686 | a stage is left only from a report that neither rejects nor promotes |
| EvaluationHistory.StageThreeFinal | src/pilot/evaluate.ts:694-699 | once a stage-three report does not promote, no later report does |
| EvaluationHistory.RejectionHolds | src/pilot/evaluate.ts:694-699 | the report right after a rejection stays in its stage and does not promote |
| EvaluationHistory.RejectionPromotableIff | src/pilot/evaluate.ts:673-700 | a history that ends in a rejection can be extended by appends to one that ends in a promotion exactly when the rejected stage is below three |
| EvaluationHistory.RejectionReopened | src/pilot/contracts.ts:1106-1113 | a history may begin with such a rejection: a first report that rejects, with two further contents the report contract admits, can be extended to a promotion |
| Bootstrap.Unbiased | src/pilot/evaluate.ts:70-96 | for every population size each index has exactly the same number of accepted 64-bit values, and fewer values than the size are rejected |
| Bootstrap.DeterministicBootstrapIndices | src/pilot/evaluate.ts:63-101 | every replicate has one in-range index per member, each the first accepted digest value reduced |
| Bootstrap.DrawIs | src/pilot/evaluate.ts:70-96 | a draw is the first 64-bit digest value below the largest multiple of the size, reduced modulo the size |
| Bootstrap.ReplicateDetermined | src/pilot/evaluate.ts:70-96 | the digest values fix every replicate |
| Bootstrap.IndicesInBounds | src/pilot/evaluate.ts:106-110 | both percentile indices are in bounds, the lower one first |
| Bootstrap.PercentileInterval | src/pilot/evaluate.ts:103-111 | an interval of two of the statistics in order, exactly when all statistics are present |
| Bootstrap.IntervalIs | src/pilot/evaluate.ts:103-111 | the ends stand in the sorted statistics at half the tail share rounded down and at its complement rounded up |
| Bootstrap.IntervalWidens | src/pilot/evaluate.ts:103-111 | a higher confidence gives a containing interval |
| DogfoodSchedule.CheckSchedule | src/pilot/dogfood-manifest.ts:441-468 | the set and counter checks accept exactly schedules with the recorded hash, each case and strategy once, contiguous ordinals, known cases, and no longer run of one strategy than allowed |
| DogfoodSchedule.PassesIff | src/pilot/dogfood-manifest.ts:441-468 | the schedule conditions by positions: ordinals, known cases, every pair once, and a change of strategy within every stretch longer than allowed |
| DogfoodSchedule.CheckInterleaved | src/pilot/dogfood-manifest.ts:456-466 | the consecutive counter accepts exactly schedules without a longer run |
| DogfoodSchedule.ScheduleFor | src/pilot/dogfood-manifest.ts:401-435 | ranked cases with both strategies side by side; for distinct cases the result passes every check with a bound of two, whatever the ranking |
| DogfoodRunSet.VerifyRunSet | src/pilot/dogfood-manifest.ts:920-998 | accepts exactly ordinals one to k of a passing schedule, each verified, run once, without overlap, with no hard stop due before k, where k is the whole schedule or the run a matching stop event names; reports a stop exactly with a stop event or a hard stop some run calls for |
| DogfoodRunSet.RecordOkIff | src/pilot/dogfood-manifest.ts:858-918 | when a record verifies: its case and its schedule entry, and its times in order, exact, and after the observation window |
| DogfoodRunSet.DerivedStopIs | src/pilot/dogfood-manifest.ts:745-754 | which hard stop a run calls for, by precedence |
| DogfoodRunSet.StopEventOkIff | src/pilot/dogfood-manifest.ts:807-856 | when a stop event verifies: bound to the experiment, in range, without a run before any and with the last run's evidence, time and condition otherwise |
| DogfoodRunSet.LastOrdinalIs | src/pilot/dogfood-manifest.ts:920-954 | the prefix expected is the whole schedule or that of the stop event |
| DogfoodRunSet.CoveredIff | src/pilot/dogfood-manifest.ts:946-954 | distinct ordinals within one to k that cover it are, in order, one to k |
| DogfoodRunSet.NeighboursApart | src/pilot/dogfood-manifest.ts:974-983 | runs whose neighbours do not overlap do not overlap pairwise |
| DogfoodRunSet.PairsFollow | src/pilot/dogfood-manifest.ts:984-988 | the case-and-route checks follow from the ordinals and the passing schedule |
| DogfoodRunSet.TriggerIsLast | src/pilot/dogfood-manifest.ts:989-995 | a verified stop event names exactly the last run of the prefix |
| DogfoodRunSet.HardStopsExact | src/pilot/dogfood-manifest.ts:956-973 | in an accepted set no run before the last calls for a hard stop, without a stop event none does, and a hard stop event names the condition the last run derives |

## Left out

- Schema shapes, regular expressions and secret redaction: events, records and reports are values of the fields the logic reads; the rest of a contract is one predicate parameter.
- EventStore.ActiveEvents: object freezing and snapshot cloning are not modelled; events are values, and the sensitive-content guard is a predicate.
- StateMachine.ReplayBlock: error messages are codes, and the codes of one transition guard are collapsed into one.
- Reducer.ObservationFor: usage figures, the post-acceptance quality window, line counts and timing are not in the observation; whether usage aggregates is a predicate of the usage events, and every failure to read the log has one code.
- Reducer.ReduceEvents: manifest verification comes before it and is not modelled.
- CanonicalJsonProofs.TextIffMeaning: number rendering is a parameter assumed injective (integers are shown to satisfy it), and UTF-8 encoding of the text is left out.
- AuditTrail.ParseRecords: the file is code units, not UTF-8 bytes, and the reordering of integer-like keys by the runtime serializer is not modelled.
- AuditWriter.Trail.Append: appends are already serialised, and an entry arrives redacted and with its timestamp; the promise queue, redaction, the default timestamp and file locking are not modelled.
- Dispatcher.AutonomousDispatcher.Write: atomicity of the rename is assumed; temporary files, directory modes and symbolic links are left out.
- TreeNodes.WriteAcceptedTree: the nodes' maps are sequences in insertion order, a new directory is attached after it is filled rather than before, and failures of the Git processes and their own re-sorting of tree records are left out.
- Finalizer.TaskRef.FinalizeRun: the run and repository locks are taken as held, so attempts follow one another; commit metadata and ref-name checks are left out.
- BindingHealth.Evaluate: hashes of observations and policy are left out, and identifiers are compared by any linear order in place of the runtime's collation.
- UsageCost.PriceUsage: reasons are a set of values rather than a sorted list of strings.
- Bootstrap.DeterministicBootstrapIndices: that every draw finds an accepted digest is a hypothesis; the source loops until one does.
- Bootstrap.PercentileInterval: statistics and percentile positions are real numbers, without rounding.
- DogfoodRunSet.VerifyRunSet: binding, baseline, cost and semantic checks of one record, and the error texts, are one flag per record.
- Metrics, gate evaluation, broker, sandboxes, Docker, processes, command line, servers, adapters and configuration.
