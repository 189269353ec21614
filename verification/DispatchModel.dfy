/**
 The autonomous dispatcher's durable state (src/runtime/autonomous-dispatcher.ts) as a transition
 system: one labelled step for every write the dispatcher makes, with the condition it is made under.
 */
module DispatchModel {
  import opened Prelude

  datatype Mode = Active | Draining | Paused
  datatype Status = Claimed | Running | Completed | Reopened | Failed

  datatype Request = Request(requestId: string, repositoryId: string, body: string)

  datatype Candidate = Candidate(
    source: string, candidateId: string, revision: string, repositoryId: string, labels: seq<string>, request: Request)

  datatype Policy = Policy(
    sources: seq<string>, repositories: seq<string>, requiredLabels: seq<string>,
    maxActive: nat, maxClaims: nat, leaseSeconds: nat, maxFailures: nat)

  datatype Identity = Identity(candidateId: string, revision: string)

  datatype Task = Task(
    id: Identity, repositoryId: string, requestId: string, requestHash: string, runId: Option<string>,
    status: Status, failures: nat, leaseId: string, leaseExpiresAt: int, lastEvidence: Option<string>)

  datatype State = State(mode: Mode, cursor: Option<string>, circuitOpen: bool, failures: nat, tasks: seq<Task>)

  const Initial := State(Paused, None, false, 0, [])

  /** The outside results the dispatcher bases its writes on. */
  datatype RunState = Finalized | RunFailed | RunAborted | Underway
  datatype RunResult = RunResult(
    runId: string, requestId: string, state: RunState, merged: bool, mergeCommit: Option<string>,
    failureEvidence: Option<seq<string>>, manifestHash: string)

  datatype Verdict = Pass(evidence: string) | Regression(findingId: string, evidence: string)

  /** A post-merge verification, with the commit it was asked about. */
  datatype Verified = Verified(commit: string, verdict: Verdict)

  datatype Step =
    | SetMode(mode: Mode)
    | ResetCircuit
    | LoseBeforeStart(id: Identity, evidence: string)
    | Restart(candidate: Candidate, result: RunResult, expires: int)
    | LoseRunning(id: Identity, evidence: string)
    | FailRun(id: Identity, result: RunResult, expires: int)
    | Complete(id: Identity, result: RunResult, verified: Verified, expires: int)
    | Reopen(id: Identity, result: RunResult, verified: Verified, expires: int)
    | Renew(id: Identity, result: RunResult, expires: int)
    | Claim(candidate: Candidate, leaseId: string, expires: int)
    | Launch(candidate: Candidate, result: RunResult)
    | Advance(cursor: Option<string>)

  type RequestHash = Request -> string

  // ---- Tasks -----------------------------------------------------------------------

  function IdOf(c: Candidate): Identity { Identity(c.candidateId, c.revision) }

  function Find(tasks: seq<Task>, id: Identity): (r: Option<Task>)
    ensures r.Some? ==> r.value in tasks && r.value.id == id
  {
    if tasks == [] then None else if tasks[0].id == id then Some(tasks[0]) else Find(tasks[1..], id)
  }

  /** `replaceTask`. */
  function Replace(tasks: seq<Task>, t: Task): (r: seq<Task>)
    ensures |r| == |tasks|
    ensures forall i | 0 <= i < |tasks| :: r[i] == if tasks[i].id == t.id then t else tasks[i]
  {
    if tasks == [] then [] else [if tasks[0].id == t.id then t else tasks[0]] + Replace(tasks[1..], t)
  }

  predicate IsActive(t: Task) { t.status.Claimed? || t.status.Running? }

  function ActiveCount(tasks: seq<Task>): nat {
    if tasks == [] then 0 else (if IsActive(tasks[0]) then 1 else 0) + ActiveCount(tasks[1..])
  }

  ghost predicate DistinctTasks(tasks: seq<Task>) {
    forall i, j | 0 <= i < j < |tasks| :: tasks[i].id != tasks[j].id
  }

  /** `validateCandidate`, apart from the shape of identifiers. */
  predicate ValidCandidate(p: Policy, c: Candidate) {
    && c.source in p.sources && c.repositoryId in p.repositories
    && (forall i, j | 0 <= i < j < |c.labels| :: c.labels[i] != c.labels[j])
    && (forall i | 0 <= i < |p.requiredLabels| :: p.requiredLabels[i] in c.labels)
    && c.request.repositoryId == c.repositoryId
  }

  /** The candidate is the one the task was claimed for, with a request of the recorded hash. */
  predicate SameWork(h: RequestHash, c: Candidate, t: Task) {
    && IdOf(c) == t.id && c.repositoryId == t.repositoryId
    && c.request.requestId == t.requestId && h(c.request) == t.requestHash
  }

  // ---- Steps -----------------------------------------------------------------------

  /** The task a step is about, if it has the status the step needs. */
  predicate Has(s: State, id: Identity, status: Status) {
    var t := Find(s.tasks, id);
    t.Some? && t.value.status == status
  }

  predicate OwnRun(s: State, id: Identity, result: RunResult) {
    Has(s, id, Running) &&
    var t := Find(s.tasks, id).value;
    t.runId == Some(result.runId) && t.requestId == result.requestId
  }

  /** Finalized, merged, and verified after the merge on exactly the merged commit. */
  predicate MergedAndVerified(result: RunResult, v: Verified) {
    result.state.Finalized? && result.merged && result.mergeCommit == Some(v.commit)
  }

  predicate Guard(p: Policy, h: RequestHash, s: State, step: Step) {
    match step
    case SetMode(mode) => mode != s.mode
    case ResetCircuit => s.mode.Paused? && (s.circuitOpen || s.failures != 0)
    case LoseBeforeStart(id, _) => !s.mode.Paused? && Has(s, id, Claimed)
    case Restart(c, result, _) =>
      && !s.mode.Paused? && ValidCandidate(p, c) && Has(s, IdOf(c), Claimed)
      && SameWork(h, c, Find(s.tasks, IdOf(c)).value) && result.requestId == c.request.requestId
    case LoseRunning(id, _) => !s.mode.Paused? && Has(s, id, Running)
    case FailRun(id, result, _) =>
      !s.mode.Paused? && OwnRun(s, id, result) && (result.state.RunFailed? || result.state.RunAborted?) && result.failureEvidence.Some?
    case Complete(id, result, v, _) => !s.mode.Paused? && OwnRun(s, id, result) && MergedAndVerified(result, v) && v.verdict.Pass?
    case Reopen(id, result, v, _) => !s.mode.Paused? && OwnRun(s, id, result) && MergedAndVerified(result, v) && v.verdict.Regression?
    case Renew(id, result, _) => !s.mode.Paused? && OwnRun(s, id, result) && result.state.Underway?
    case Claim(c, _, _) =>
      && s.mode.Active? && !s.circuitOpen && ValidCandidate(p, c)
      && Find(s.tasks, IdOf(c)).None? && ActiveCount(s.tasks) < p.maxActive
    case Launch(c, result) =>
      && s.mode.Active? && !s.circuitOpen && Has(s, IdOf(c), Claimed)
      && SameWork(h, c, Find(s.tasks, IdOf(c)).value) && result.requestId == c.request.requestId
    case Advance(cursor) => s.mode.Active? && !s.circuitOpen && cursor != s.cursor
  }

  function FirstEvidence(result: RunResult): string {
    if result.failureEvidence.Some? && result.failureEvidence.value != [] then result.failureEvidence.value[0] else result.manifestHash
  }

  /** The stored task a step rewrites, if it rewrites one. */
  function Subject(step: Step): Option<Identity> {
    match step
    case LoseBeforeStart(id, _) => Some(id)
    case Restart(c, _, _) => Some(IdOf(c))
    case LoseRunning(id, _) => Some(id)
    case FailRun(id, _, _) => Some(id)
    case Complete(id, _, _, _) => Some(id)
    case Reopen(id, _, _, _) => Some(id)
    case Renew(id, _, _) => Some(id)
    case Launch(c, _) => Some(IdOf(c))
    case _ => None
  }

  /** Lost leases, failed or aborted runs and post-merge regressions. */
  predicate IsFailure(step: Step) { step.LoseBeforeStart? || step.LoseRunning? || step.FailRun? || step.Reopen? }

  /** What a step makes of the task it rewrites. */
  function Rewritten(t: Task, step: Step): Task
    requires Subject(step).Some?
  {
    match step
    case LoseBeforeStart(_, evidence) => t.(status := Failed, failures := t.failures + 1, lastEvidence := Some(evidence))
    case Restart(_, result, expires) => t.(runId := Some(result.runId), status := Running, leaseExpiresAt := expires)
    case LoseRunning(_, evidence) => t.(status := Failed, failures := t.failures + 1, lastEvidence := Some(evidence))
    case FailRun(_, result, expires) =>
      t.(status := Failed, failures := t.failures + 1, leaseExpiresAt := expires, lastEvidence := Some(FirstEvidence(result)))
    case Complete(_, _, v, expires) =>
      t.(status := Completed, failures := 0, leaseExpiresAt := expires, lastEvidence := Some(v.verdict.evidence))
    case Reopen(_, _, v, expires) =>
      t.(status := Reopened, failures := t.failures + 1, leaseExpiresAt := expires, lastEvidence := Some(v.verdict.evidence))
    case Renew(_, _, expires) => t.(leaseExpiresAt := expires)
    case Launch(_, result) => t.(runId := Some(result.runId), status := Running)
  }

  function ClaimedTask(h: RequestHash, c: Candidate, leaseId: string, expires: int): Task {
    Task(IdOf(c), c.repositoryId, c.request.requestId, h(c.request), None, Claimed, 0, leaseId, expires, None)
  }

  function NextTasks(h: RequestHash, s: State, step: Step): seq<Task> {
    if Subject(step).Some? then
      match Find(s.tasks, Subject(step).value)
      case Some(t) => Replace(s.tasks, Rewritten(t, step))
      case None => s.tasks
    else if step.Claim? then s.tasks + [ClaimedTask(h, step.candidate, step.leaseId, step.expires)]
    else s.tasks
  }

  /** The state each step writes. */
  function Apply(p: Policy, h: RequestHash, s: State, step: Step): State {
    var next := s.(tasks := NextTasks(h, s, step));
    if IsFailure(step) then next.(failures := s.failures + 1, circuitOpen := s.failures + 1 >= p.maxFailures)
    else if step.Complete? then next.(failures := 0)
    else if step.ResetCircuit? then next.(circuitOpen := false, failures := 0)
    else if step.SetMode? then next.(mode := step.mode)
    else if step.Advance? then next.(cursor := step.cursor)
    else next
  }

  // ---- Runs ------------------------------------------------------------------------

  /** Every step is made under its condition, starting from the initial state. */
  ghost predicate Legal(p: Policy, h: RequestHash, run: seq<Step>)
    decreases |run|, 0
  {
    run == [] ||
    (Legal(p, h, run[..|run| - 1]) && Guard(p, h, After(p, h, run[..|run| - 1]), run[|run| - 1]))
  }

  /** The durable state after a run. */
  ghost function After(p: Policy, h: RequestHash, run: seq<Step>): State
    requires Legal(p, h, run)
    decreases |run|, 1
  {
    if run == [] then Initial else Apply(p, h, After(p, h, run[..|run| - 1]), run[|run| - 1])
  }

  lemma LegalExtend(p: Policy, h: RequestHash, run: seq<Step>, step: Step)
    requires Legal(p, h, run) && Guard(p, h, After(p, h, run), step)
    ensures Legal(p, h, run + [step]) && After(p, h, run + [step]) == Apply(p, h, After(p, h, run), step)
  {
    hide Guard, Apply;
    assert (run + [step])[..|run|] == run;
  }

  /** A stored state: what `parseState` checks beyond field shapes. */
  datatype Envelope = Envelope(state: State, hash: string)

  predicate LifecycleOk(t: Task) { t.status.Claimed? <==> t.runId.None? }

  predicate Readable(digest: State -> string, e: Envelope) {
    && e.hash == digest(e.state)
    && (forall i | 0 <= i < |e.state.tasks| :: LifecycleOk(e.state.tasks[i]))
    && (forall i, j | 0 <= i < j < |e.state.tasks| :: e.state.tasks[i].id != e.state.tasks[j].id)
  }
}
