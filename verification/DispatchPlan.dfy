/**
 What one dispatcher cycle writes (src/runtime/autonomous-dispatcher.ts), as a function of the answers it gets: the
 steps of its three phases, and the tasks they leave.
 */
module DispatchPlan {
  import opened Prelude
  import opened DispatchModel
  import opened DispatchProofs

  /** The fate of a state write: replaced, not replaced, or replaced with the directory sync failing afterwards. */
  datatype WriteOutcome = Written | NotWritten | WrittenThenThrew

  datatype Listing = Listing(candidates: seq<Candidate>, nextCursor: Option<string>)

  /** The answers of one cycle's external calls, by position in the cycle; `None` is a throw. */
  datatype World = World(
    load: nat -> Option<Option<Candidate>>,
    now: nat -> int,
    renewed: nat -> Option<bool>,
    start: nat -> Option<RunResult>,
    resume: nat -> Option<RunResult>,
    verify: (nat, string) -> Option<Verdict>,
    acknowledged: nat -> bool,
    list: nat -> Option<Listing>,
    leaseId: nat -> string,
    claim: nat -> Option<bool>,
    write: nat -> WriteOutcome)

  /** What a dispatcher is set up with: its policy, and the hashes of requests and of lost leases. */
  datatype Desk = Desk(policy: Policy, hash: RequestHash, lossHash: Task -> string)

  // ---- The step each answer calls for ----------------------------------------------------

  /** The step for a claimed task at recovery; none when an answer throws or does not fit the claim. */
  function Recovered(d: Desk, w: World, at: nat, task: Task): Option<Step> {
    var supplied := w.load(at);
    if supplied.None? || supplied.value.None? then None
    else
      var c := supplied.value.value;
      if !ValidCandidate(d.policy, c) || !SameWork(d.hash, c, task) || w.renewed(at).None? then None
      else if !w.renewed(at).value then Some(LoseBeforeStart(task.id, d.lossHash(task)))
      else if w.start(at).None? || w.start(at).value.requestId != task.requestId then None
      else Some(Restart(c, w.start(at).value, w.now(at) + d.policy.leaseSeconds))
  }

  /** The step for a running task; none when an answer throws or is out of contract. */
  function Resumed(d: Desk, w: World, at: nat, task: Task): Option<Step> {
    var expires := w.now(at) + d.policy.leaseSeconds;
    if task.runId.None? || w.renewed(at).None? then None
    else if !w.renewed(at).value then Some(LoseRunning(task.id, d.lossHash(task)))
    else if w.resume(at).None? then None
    else
      var result := w.resume(at).value;
      if result.runId != task.runId.value || result.requestId != task.requestId then None
      else if result.state.Underway? then Some(Renew(task.id, result, expires))
      else if !result.state.Finalized? then
        if result.failureEvidence.Some? && w.acknowledged(at) then Some(FailRun(task.id, result, expires)) else None
      else if !result.merged || result.mergeCommit.None? then None
      else
        var verdict := w.verify(at, result.mergeCommit.value);
        if verdict.None? || !w.acknowledged(at) then None
        else
          var v := Verified(result.mergeCommit.value, verdict.value);
          Some(if verdict.value.Pass? then Complete(task.id, result, v, expires) else Step.Reopen(task.id, result, v, expires))
  }

  /** The steps of recovery for the first `n` tasks. */
  function RecoverSteps(d: Desk, w: World, tasks: seq<Task>, n: nat): seq<Step>
    requires n <= |tasks|
  {
    if n == 0 then []
    else RecoverSteps(d, w, tasks, n - 1) +
         if tasks[n - 1].status.Claimed? && Recovered(d, w, n - 1, tasks[n - 1]).Some?
         then [Recovered(d, w, n - 1, tasks[n - 1]).value] else []
  }

  /** The steps of resuming the first `n` tasks; their answers come after those of recovery. */
  function ResumeSteps(d: Desk, w: World, tasks: seq<Task>, n: nat): seq<Step>
    requires n <= |tasks|
  {
    if n == 0 then []
    else ResumeSteps(d, w, tasks, n - 1) +
         if tasks[n - 1].status.Running? && Resumed(d, w, |tasks| + n - 1, tasks[n - 1]).Some?
         then [Resumed(d, w, |tasks| + n - 1, tasks[n - 1]).value] else []
  }

  /** A task after recovery has passed `r` tasks and resuming `q`. */
  function SettledTask(d: Desk, w: World, tasks: seq<Task>, r: nat, q: nat, j: nat): Task
    requires j < |tasks|
  {
    var t := tasks[j];
    if j < r && t.status.Claimed? && Recovered(d, w, j, t).Some? then Rewritten(t, Recovered(d, w, j, t).value)
    else if j < q && t.status.Running? && Resumed(d, w, |tasks| + j, t).Some?
    then Rewritten(t, Resumed(d, w, |tasks| + j, t).value)
    else t
  }

  /** The tasks a cycle began with are stored as settled so far. */
  ghost predicate AllSettled(d: Desk, w: World, tasks: seq<Task>, r: nat, q: nat, s: State) {
    forall j | 0 <= j < |tasks| :: Find(s.tasks, tasks[j].id) == Some(SettledTask(d, w, tasks, r, q, j))
  }

  /** The answers of recovery and of resuming let every active task among the first `n` be acted on and written. */
  ghost predicate RecoverOk(d: Desk, w: World, tasks: seq<Task>, n: nat) {
    forall j | 0 <= j < n && j < |tasks| && tasks[j].status.Claimed? ::
      Recovered(d, w, j, tasks[j]).Some? && w.write(j).Written?
  }

  ghost predicate ResumeOk(d: Desk, w: World, tasks: seq<Task>, n: nat) {
    forall j | 0 <= j < n && j < |tasks| && tasks[j].status.Running? ::
      Resumed(d, w, |tasks| + j, tasks[j]).Some? && w.write(|tasks| + j).Written?
  }

  // ---- Admission -----------------------------------------------------------------------

  /** The state after a list of steps. */
  function Fold(p: Policy, h: RequestHash, s: State, steps: seq<Step>): State {
    if steps == [] then s else Apply(p, h, Fold(p, h, s, steps[..|steps| - 1]), steps[|steps| - 1])
  }

  /** The steps for one listed candidate, from state `s`. */
  function AdmitOne(d: Desk, w: World, at: nat, s: State, c: Candidate): seq<Step> {
    if Find(s.tasks, IdOf(c)).Some? || w.claim(at) != Some(true) then []
    else Admitting(d, w, at, c)
  }

  /** Claiming a candidate and launching its run. */
  function Admitting(d: Desk, w: World, at: nat, c: Candidate): seq<Step> {
    [Claim(c, w.leaseId(at), w.now(at) + d.policy.leaseSeconds)] + if w.start(at).Some? then [Launch(c, w.start(at).value)] else []
  }

  /** The answers let the candidate be passed over, or be claimed and launched. */
  predicate AdmitsOne(d: Desk, w: World, at: nat, s: State, c: Candidate) {
    ValidCandidate(d.policy, c) &&
    (|| Find(s.tasks, IdOf(c)).Some?
     || w.claim(at) == Some(false)
     || (&& w.claim(at) == Some(true) && w.write(at).Written?
         && w.start(at).Some? && w.start(at).value.requestId == c.request.requestId && w.write(at + 1).Written?))
  }

  /** The steps for the first `n` listed candidates, from state `s`. */
  function AdmitSteps(d: Desk, w: World, base: nat, s: State, cs: seq<Candidate>, n: nat): seq<Step>
    requires n <= |cs|
  {
    if n == 0 then []
    else
      var before := AdmitSteps(d, w, base, s, cs, n - 1);
      before + AdmitOne(d, w, base + 2 * (n - 1), Fold(d.policy, d.hash, s, before), cs[n - 1])
  }

  ghost predicate AdmitsAll(d: Desk, w: World, base: nat, s: State, cs: seq<Candidate>, n: nat)
    requires n <= |cs|
  {
    forall i | 0 <= i < n ::
      AdmitsOne(d, w, base + 2 * i, Fold(d.policy, d.hash, s, AdmitSteps(d, w, base, s, cs, i)), cs[i])
  }

  lemma FoldMore(p: Policy, h: RequestHash, s: State, steps: seq<Step>, step: Step)
    ensures Fold(p, h, s, steps + [step]) == Apply(p, h, Fold(p, h, s, steps), step)
  {
    hide Apply;
    assert (steps + [step])[..|steps|] == steps;
  }

  lemma {:induction false} FoldJoins(p: Policy, h: RequestHash, s: State, a: seq<Step>, b: seq<Step>)
    ensures Fold(p, h, s, a + b) == Fold(p, h, Fold(p, h, s, a), b)
  {
    hide Apply;
    if b == [] {
      assert a + b == a;
    } else {
      FoldJoins(p, h, s, a, b[..|b| - 1]);
      assert (a + b)[..|a + b| - 1] == a + b[..|b| - 1];
    }
  }

  /** A run's durable state is the fold of its steps. */
  lemma {:induction false} AfterFolds(p: Policy, h: RequestHash, run: seq<Step>, steps: seq<Step>)
    requires Legal(p, h, run) && Legal(p, h, run + steps)
    ensures After(p, h, run + steps) == Fold(p, h, After(p, h, run), steps)
    decreases |steps|
  {
    hide Apply, Guard;
    if steps == [] {
      assert run + steps == run;
    } else {
      assert (run + steps)[..|run + steps| - 1] == run + steps[..|steps| - 1];
      AfterFolds(p, h, run, steps[..|steps| - 1]);
    }
  }

  // ---- The whole cycle -------------------------------------------------------------------

  /** How many candidates a cycle may still admit. */
  function Capacity(p: Policy, s: State): int {
    if !s.mode.Active? || s.circuitOpen then 0
    else if p.maxClaims <= p.maxActive - ActiveCount(s.tasks) then p.maxClaims
    else p.maxActive - ActiveCount(s.tasks)
  }

  /** None unless running with the circuit closed; otherwise as many as both bounds leave. */
  lemma CapacityIs(p: Policy, s: State)
    ensures var c := Capacity(p, s);
            if s.mode != Active || s.circuitOpen then c == 0
            else c <= p.maxClaims && c + ActiveCount(s.tasks) <= p.maxActive
                 && (c == p.maxClaims || c + ActiveCount(s.tasks) == p.maxActive)
  {
  }

  /** The steps of admission from state `s`. */
  function AdmissionPlan(d: Desk, w: World, base: nat, s: State): seq<Step> {
    var capacity := Capacity(d.policy, s);
    if capacity <= 0 || w.list(capacity).None? || |w.list(capacity).value.candidates| > capacity then []
    else
      var listed := w.list(capacity).value;
      var steps := AdmitSteps(d, w, base, s, listed.candidates, |listed.candidates|);
      steps + if Fold(d.policy, d.hash, s, steps).cursor == listed.nextCursor then [] else [Advance(listed.nextCursor)]
  }

  /** The answers let admission run to its end. */
  ghost predicate AdmissionOk(d: Desk, w: World, base: nat, s: State) {
    var capacity := Capacity(d.policy, s);
    capacity == 0 ||
    (&& capacity > 0 && w.list(capacity).Some? && |w.list(capacity).value.candidates| <= capacity &&
     var listed := w.list(capacity).value;
     && AdmitsAll(d, w, base, s, listed.candidates, |listed.candidates|)
     && (|| Fold(d.policy, d.hash, s, AdmitSteps(d, w, base, s, listed.candidates, |listed.candidates|)).cursor == listed.nextCursor
         || w.write(base + 2 * |listed.candidates|).Written?))
  }

  /** The steps of recovery and resuming. */
  function TaskSteps(d: Desk, w: World, tasks: seq<Task>): seq<Step> {
    RecoverSteps(d, w, tasks, |tasks|) + ResumeSteps(d, w, tasks, |tasks|)
  }

  /** Everything a cycle that starts in `s` writes if it is let run to its end. */
  function CyclePlan(d: Desk, w: World, s: State): seq<Step> {
    var first := TaskSteps(d, w, s.tasks);
    first + AdmissionPlan(d, w, 2 * |s.tasks|, Fold(d.policy, d.hash, s, first))
  }

  /** The answers let a cycle that starts in `s` run to its end. */
  ghost predicate CycleOk(d: Desk, w: World, s: State) {
    && RecoverOk(d, w, s.tasks, |s.tasks|) && ResumeOk(d, w, s.tasks, |s.tasks|)
    && AdmissionOk(d, w, 2 * |s.tasks|, Fold(d.policy, d.hash, s, TaskSteps(d, w, s.tasks)))
  }

  lemma {:induction false} RecoverStepsGrow(d: Desk, w: World, tasks: seq<Task>, i: nat, n: nat)
    requires i <= n <= |tasks|
    ensures RecoverSteps(d, w, tasks, i) <= RecoverSteps(d, w, tasks, n)
    decreases n
  {
    hide Recovered;
    if i < n { RecoverStepsGrow(d, w, tasks, i, n - 1); }
  }

  lemma {:induction false} ResumeStepsGrow(d: Desk, w: World, tasks: seq<Task>, i: nat, n: nat)
    requires i <= n <= |tasks|
    ensures ResumeSteps(d, w, tasks, i) <= ResumeSteps(d, w, tasks, n)
    decreases n
  {
    hide Resumed;
    if i < n { ResumeStepsGrow(d, w, tasks, i, n - 1); }
  }

  lemma NoneAdmitted(d: Desk, w: World, base: nat, s: State, cs: seq<Candidate>)
    ensures AdmitSteps(d, w, base, s, cs, 0) == [] && AdmitsAll(d, w, base, s, cs, 0)
  {
  }

  lemma AdmitStepsNext(d: Desk, w: World, base: nat, s: State, cs: seq<Candidate>, i: nat)
    requires i < |cs|
    ensures var steps := AdmitSteps(d, w, base, s, cs, i);
            AdmitSteps(d, w, base, s, cs, i + 1) == steps + AdmitOne(d, w, base + 2 * i, Fold(d.policy, d.hash, s, steps), cs[i])
    ensures AdmitSteps(d, w, base, s, cs, i + 1) <= AdmitSteps(d, w, base, s, cs, |cs|)
  {
    hide AdmitOne, Fold;
    AdmitStepsGrow(d, w, base, s, cs, i + 1, |cs|);
  }

  lemma AdmitsNext(d: Desk, w: World, base: nat, s: State, cs: seq<Candidate>, i: nat)
    requires i < |cs| && AdmitsAll(d, w, base, s, cs, i)
    ensures var one := AdmitsOne(d, w, base + 2 * i, Fold(d.policy, d.hash, s, AdmitSteps(d, w, base, s, cs, i)), cs[i]);
            && (AdmitsAll(d, w, base, s, cs, i + 1) <==> one)
            && (AdmitsAll(d, w, base, s, cs, |cs|) ==> one)
  {
    hide AdmitsOne, AdmitSteps, Fold;
  }

  /** The next task's step comes next, and belongs to the whole. */
  lemma RecoverStepsNext(d: Desk, w: World, tasks: seq<Task>, i: nat)
    requires i < |tasks|
    ensures var step := Recovered(d, w, i, tasks[i]);
            RecoverSteps(d, w, tasks, i + 1) ==
            RecoverSteps(d, w, tasks, i) + if tasks[i].status.Claimed? && step.Some? then [step.value] else []
    ensures RecoverSteps(d, w, tasks, i) <= RecoverSteps(d, w, tasks, i + 1) <= RecoverSteps(d, w, tasks, |tasks|)
  {
    hide Recovered;
    RecoverStepsGrow(d, w, tasks, i + 1, |tasks|);
  }

  lemma ResumeStepsNext(d: Desk, w: World, tasks: seq<Task>, i: nat)
    requires i < |tasks|
    ensures var step := Resumed(d, w, |tasks| + i, tasks[i]);
            ResumeSteps(d, w, tasks, i + 1) ==
            ResumeSteps(d, w, tasks, i) + if tasks[i].status.Running? && step.Some? then [step.value] else []
    ensures ResumeSteps(d, w, tasks, i) <= ResumeSteps(d, w, tasks, i + 1) <= ResumeSteps(d, w, tasks, |tasks|)
  {
    hide Resumed;
    ResumeStepsGrow(d, w, tasks, i + 1, |tasks|);
  }

  lemma NoStepsYet(d: Desk, w: World, tasks: seq<Task>)
    ensures RecoverSteps(d, w, tasks, 0) == [] && ResumeSteps(d, w, tasks, 0) == []
  {
  }

  lemma {:induction false} AdmitStepsGrow(d: Desk, w: World, base: nat, s: State, cs: seq<Candidate>, i: nat, n: nat)
    requires i <= n <= |cs|
    ensures AdmitSteps(d, w, base, s, cs, i) <= AdmitSteps(d, w, base, s, cs, n)
    decreases n
  {
    hide AdmitOne, Fold;
    if i < n { AdmitStepsGrow(d, w, base, s, cs, i, n - 1); }
  }

  // ---- Settling one task -----------------------------------------------------------------

  lemma StepFindOther(p: Policy, h: RequestHash, s: State, step: Step, id: Identity)
    requires Guard(p, h, s, step) && Subject(step) != Some(id) && Find(s.tasks, id).Some?
    ensures Find(Apply(p, h, s, step).tasks, id) == Find(s.tasks, id)
  {
    if Subject(step).Some? {
      SubjectActive(p, h, s, step);
      FindOther(s.tasks, Rewritten(Find(s.tasks, Subject(step).value).value, step), id);
    } else if step.Claim? {
      FindAppended(s.tasks, ClaimedTask(h, step.candidate, step.leaseId, step.expires), id);
    }
  }

  lemma {:induction false} FindReplaced(tasks: seq<Task>, t: Task)
    requires Find(tasks, t.id).Some?
    ensures Find(Replace(tasks, t), t.id) == Some(t)
  {
    if tasks[0].id != t.id {
      FindReplaced(tasks[1..], t);
      assert Replace(tasks, t)[1..] == Replace(tasks[1..], t);
    }
  }

  lemma StepFindSubject(p: Policy, h: RequestHash, s: State, step: Step, t: Task)
    requires Guard(p, h, s, step) && Subject(step) == Some(t.id) && Find(s.tasks, t.id) == Some(t)
    ensures Find(Apply(p, h, s, step).tasks, t.id) == Some(Rewritten(t, step))
  {
    SubjectActive(p, h, s, step);
    FindReplaced(s.tasks, Rewritten(t, step));
    hide Guard, Rewritten, Find, Replace;
  }

  lemma StartSettled(d: Desk, w: World, s: State)
    requires DistinctTasks(s.tasks)
    ensures AllSettled(d, w, s.tasks, 0, 0, s)
  {
    forall j | 0 <= j < |s.tasks| ensures Find(s.tasks, s.tasks[j].id) == Some(s.tasks[j]) { FindIn(s.tasks, j); }
  }

  lemma RecoverSettles(d: Desk, w: World, tasks: seq<Task>, i: nat, s: State, step: Step)
    requires i < |tasks| && DistinctTasks(tasks) && AllSettled(d, w, tasks, i, 0, s)
    requires tasks[i].status.Claimed? && Recovered(d, w, i, tasks[i]) == Some(step)
    requires Guard(d.policy, d.hash, s, step) && Subject(step) == Some(tasks[i].id)
    ensures AllSettled(d, w, tasks, i + 1, 0, Apply(d.policy, d.hash, s, step))
  {
    hide Guard, Apply, Recovered, Resumed, Rewritten, Find, Subject;
    forall j | 0 <= j < |tasks|
      ensures Find(Apply(d.policy, d.hash, s, step).tasks, tasks[j].id) == Some(SettledTask(d, w, tasks, i + 1, 0, j))
    {
      if j == i {
        StepFindSubject(d.policy, d.hash, s, step, tasks[i]);
      } else {
        assert tasks[j].id != tasks[i].id;
        StepFindOther(d.policy, d.hash, s, step, tasks[j].id);
      }
    }
  }

  lemma ResumeSettles(d: Desk, w: World, tasks: seq<Task>, i: nat, s: State, step: Step)
    requires i < |tasks| && DistinctTasks(tasks) && AllSettled(d, w, tasks, |tasks|, i, s)
    requires tasks[i].status.Running? && Resumed(d, w, |tasks| + i, tasks[i]) == Some(step)
    requires Guard(d.policy, d.hash, s, step) && Subject(step) == Some(tasks[i].id)
    ensures AllSettled(d, w, tasks, |tasks|, i + 1, Apply(d.policy, d.hash, s, step))
  {
    hide Guard, Apply, Recovered, Resumed, Rewritten, Find, Subject;
    forall j | 0 <= j < |tasks|
      ensures Find(Apply(d.policy, d.hash, s, step).tasks, tasks[j].id) == Some(SettledTask(d, w, tasks, |tasks|, i + 1, j))
    {
      if j == i {
        StepFindSubject(d.policy, d.hash, s, step, tasks[i]);
      } else {
        assert tasks[j].id != tasks[i].id;
        StepFindOther(d.policy, d.hash, s, step, tasks[j].id);
      }
    }
  }

  /** Tasks of another status are passed over. */
  lemma PassedOver(d: Desk, w: World, tasks: seq<Task>, i: nat, s: State)
    requires i < |tasks|
    ensures AllSettled(d, w, tasks, i, 0, s) && !tasks[i].status.Claimed? ==> AllSettled(d, w, tasks, i + 1, 0, s)
    ensures AllSettled(d, w, tasks, |tasks|, i, s) && !tasks[i].status.Running? ==> AllSettled(d, w, tasks, |tasks|, i + 1, s)
  {
    hide Recovered, Resumed, Rewritten, Find;
  }

  // ---- What the answers mean for a task ------------------------------------------------

  /**
   A task claimed when the cycle began: a lost lease fails it; a renewed one starts it, on the run and with the expiry
   the answers give.
   */
  lemma RecoveredAs(d: Desk, w: World, tasks: seq<Task>, q: nat, j: nat)
    requires j < |tasks| && tasks[j].status.Claimed? && Recovered(d, w, j, tasks[j]).Some?
    ensures var t, after := tasks[j], SettledTask(d, w, tasks, |tasks|, q, j);
            && w.renewed(j).Some?
            && (!w.renewed(j).value ==>
                  after == t.(status := Failed, failures := t.failures + 1, lastEvidence := Some(d.lossHash(t))))
            && (w.renewed(j).value ==>
                  && w.start(j).Some? && w.start(j).value.requestId == t.requestId
                  && after == t.(status := Running, runId := Some(w.start(j).value.runId),
                                 leaseExpiresAt := w.now(j) + d.policy.leaseSeconds))
  {
  }

  /**
   A task running when the cycle began: a lost lease fails it; else its run decides. One under way has its lease extended,
   a failed or aborted one fails, and a merged one is completed or reopened by the verdict on the merged commit.
   */
  lemma ResumedAs(d: Desk, w: World, tasks: seq<Task>, j: nat)
    requires j < |tasks| && tasks[j].status.Running? && Resumed(d, w, |tasks| + j, tasks[j]).Some?
    ensures var t, at, after := tasks[j], |tasks| + j, SettledTask(d, w, tasks, |tasks|, |tasks|, j);
            && w.renewed(at).Some?
            && (!w.renewed(at).value ==>
                  after == t.(status := Failed, failures := t.failures + 1, lastEvidence := Some(d.lossHash(t))))
            && (w.renewed(at).value ==>
                  && w.resume(at).Some? &&
                  var result, renewed := w.resume(at).value, t.(leaseExpiresAt := w.now(at) + d.policy.leaseSeconds);
                  && t.runId == Some(result.runId) && result.requestId == t.requestId
                  && (result.state.Underway? ==> after == renewed)
                  && (result.state.RunFailed? || result.state.RunAborted? ==>
                        && result.failureEvidence.Some?
                        && after == renewed.(status := Failed, failures := t.failures + 1, lastEvidence := after.lastEvidence)
                        && after.lastEvidence == Some(if result.failureEvidence.value == [] then result.manifestHash
                                                      else result.failureEvidence.value[0]))
                  && (result.state.Finalized? ==>
                        && result.merged && result.mergeCommit.Some? && w.verify(at, result.mergeCommit.value).Some? &&
                        match w.verify(at, result.mergeCommit.value).value
                        case Pass(evidence) => after == renewed.(status := Completed, failures := 0, lastEvidence := Some(evidence))
                        case Regression(_, evidence) =>
                          after == renewed.(status := Reopened, failures := t.failures + 1, lastEvidence := Some(evidence))))
  {
  }
}
