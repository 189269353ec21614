/** What every run of the dispatcher keeps, whatever the outside world answers and wherever it crashes. */
module DispatchProofs {
  import opened Prelude
  import opened DispatchModel

  // ---- Task lists ------------------------------------------------------------------

  predicate Terminal(t: Task) { t.status.Completed? || t.status.Reopened? || t.status.Failed? }

  lemma {:induction false} FindIn(tasks: seq<Task>, i: nat)
    requires DistinctTasks(tasks) && i < |tasks|
    ensures Find(tasks, tasks[i].id) == Some(tasks[i])
  {
    if i > 0 {
      assert tasks[0].id != tasks[i].id;
      FindIn(tasks[1..], i - 1);
    }
  }

  lemma {:induction false} FindNone(tasks: seq<Task>, id: Identity)
    ensures Find(tasks, id).None? <==> forall i | 0 <= i < |tasks| :: tasks[i].id != id
  {
    if tasks != [] {
      FindNone(tasks[1..], id);
      assert forall i | 0 < i < |tasks| :: tasks[i] == tasks[1..][i - 1];
    }
  }

  lemma {:induction false} ReplaceCount(tasks: seq<Task>, old_: Task, new_: Task)
    requires DistinctTasks(tasks) && Find(tasks, old_.id) == Some(old_) && new_.id == old_.id
    ensures ActiveCount(Replace(tasks, new_)) ==
            ActiveCount(tasks) - (if IsActive(old_) then 1 else 0) + (if IsActive(new_) then 1 else 0)
  {
    if tasks[0].id == old_.id {
      ReplaceMissing(tasks[1..], new_);
    } else {
      ReplaceCount(tasks[1..], old_, new_);
    }
  }

  lemma {:induction false} ReplaceMissing(tasks: seq<Task>, t: Task)
    requires forall i | 0 <= i < |tasks| :: tasks[i].id != t.id
    ensures Replace(tasks, t) == tasks
  {
    if tasks != [] {
      ReplaceMissing(tasks[1..], t);
    }
  }

  lemma {:induction false} CountAppend(tasks: seq<Task>, t: Task)
    ensures ActiveCount(tasks + [t]) == ActiveCount(tasks) + if IsActive(t) then 1 else 0
  {
    if tasks == [] {
      assert tasks + [t] == [t];
    } else {
      CountAppend(tasks[1..], t);
      assert (tasks + [t])[1..] == tasks[1..] + [t];
    }
  }

  lemma {:induction false} FindAppended(tasks: seq<Task>, t: Task, id: Identity)
    ensures Find(tasks + [t], id) == if Find(tasks, id).Some? then Find(tasks, id) else if t.id == id then Some(t) else None
  {
    if tasks == [] {
      assert tasks + [t] == [t];
    } else {
      FindAppended(tasks[1..], t, id);
      assert (tasks + [t])[1..] == tasks[1..] + [t];
    }
  }

  // ---- One step --------------------------------------------------------------------

  /** The task a step rewrites is stored, active, and keeps its identity; it stays active exactly unless the step ends it. */
  lemma SubjectActive(p: Policy, h: RequestHash, s: State, step: Step)
    requires Guard(p, h, s, step) && Subject(step).Some?
    ensures Find(s.tasks, Subject(step).value).Some?
    ensures var t := Find(s.tasks, Subject(step).value).value;
            && IsActive(t) && t.id == Subject(step).value && Rewritten(t, step).id == t.id
            && (IsActive(Rewritten(t, step)) <==> !IsFailure(step) && !step.Complete?)
            && (LifecycleOk(t) ==> (LifecycleOk(Rewritten(t, step)) <==> !step.LoseBeforeStart?))
  {
    hide ValidCandidate, SameWork, MergedAndVerified;
  }

  ghost predicate Sound(p: Policy, s: State) {
    DistinctTasks(s.tasks) && ActiveCount(s.tasks) <= p.maxActive
  }

  lemma ReplaceSound(p: Policy, tasks: seq<Task>, t: Task, after: Task)
    requires DistinctTasks(tasks) && ActiveCount(tasks) <= p.maxActive && Find(tasks, after.id) == Some(t) && IsActive(t)
    ensures DistinctTasks(Replace(tasks, after)) && ActiveCount(Replace(tasks, after)) <= p.maxActive
  {
    hide IsActive, ActiveCount;
    ReplaceCount(tasks, t, after);
  }

  lemma AppendSound(p: Policy, tasks: seq<Task>, t: Task)
    requires DistinctTasks(tasks) && ActiveCount(tasks) < p.maxActive && Find(tasks, t.id).None?
    ensures DistinctTasks(tasks + [t]) && ActiveCount(tasks + [t]) <= p.maxActive
  {
    FindNone(tasks, t.id);
    CountAppend(tasks, t);
  }

  lemma StepSound(p: Policy, h: RequestHash, s: State, step: Step)
    requires Sound(p, s) && Guard(p, h, s, step)
    ensures Sound(p, Apply(p, h, s, step))
  {
    hide ActiveCount, Find, DistinctTasks, Rewritten, IsActive;
    if Subject(step).Some? {
      SubjectActive(p, h, s, step);
      var t := Find(s.tasks, Subject(step).value).value;
      ReplaceSound(p, s.tasks, t, Rewritten(t, step));
    } else if step.Claim? {
      AppendSound(p, s.tasks, ClaimedTask(h, step.candidate, step.leaseId, step.expires));
    }
  }

  /** Claimed and running tasks never exceed the policy's bound, and task identities stay unique. */
  lemma {:induction false} RunSound(p: Policy, h: RequestHash, run: seq<Step>)
    requires Legal(p, h, run)
    ensures Sound(p, After(p, h, run))
  {
    hide Guard, Apply;
    if run != [] {
      RunSound(p, h, run[..|run| - 1]);
      StepSound(p, h, After(p, h, run[..|run| - 1]), run[|run| - 1]);
    }
  }

  /** Stored tasks stay stored under their identity; a terminal task stays exactly as it is. */
  lemma StepKeepsTasks(p: Policy, h: RequestHash, s: State, step: Step, i: nat)
    requires DistinctTasks(s.tasks) && Guard(p, h, s, step) && i < |s.tasks|
    ensures |s.tasks| <= |Apply(p, h, s, step).tasks|
    ensures Apply(p, h, s, step).tasks[i].id == s.tasks[i].id
    ensures Terminal(s.tasks[i]) ==> Apply(p, h, s, step).tasks[i] == s.tasks[i]
  {
    hide Guard, Rewritten;
    if Subject(step).Some? {
      SubjectActive(p, h, s, step);
      FindIn(s.tasks, i);
    }
  }

  /** COMPLETED, REOPENED and FAILED are absorbing, and no identity is ever forgotten. */
  lemma {:induction false} RunKeepsTasks(p: Policy, h: RequestHash, run: seq<Step>, longer: seq<Step>, i: nat)
    requires Legal(p, h, longer) && run <= longer && Legal(p, h, run) && i < |After(p, h, run).tasks|
    ensures |After(p, h, run).tasks| <= |After(p, h, longer).tasks|
    ensures After(p, h, longer).tasks[i].id == After(p, h, run).tasks[i].id
    ensures Terminal(After(p, h, run).tasks[i]) ==> After(p, h, longer).tasks[i] == After(p, h, run).tasks[i]
    decreases |longer|
  {
    hide Guard, Apply;
    if run != longer {
      var before := longer[..|longer| - 1];
      assert run <= before;
      RunKeepsTasks(p, h, run, before, i);
      RunSound(p, h, before);
      StepKeepsTasks(p, h, After(p, h, before), longer[|longer| - 1], i);
    }
  }

  /** An identity that is stored at some point of a run is not claimed at any later point. */
  lemma NeverReclaimed(p: Policy, h: RequestHash, run: seq<Step>, i: nat, j: nat)
    requires Legal(p, h, run) && i < j < |run| && run[i].Claim? && run[j].Claim?
    ensures IdOf(run[i].candidate) != IdOf(run[j].candidate)
  {
    hide Apply, Guard, Legal, After;
    StepOf(p, h, run, i);
    StepOf(p, h, run, j);
    var at := |After(p, h, run[..i]).tasks|;
    ClaimStores(p, h, After(p, h, run[..i]), run[i]);
    RunKeepsTasks(p, h, run[..i + 1], run[..j], at);
    ClaimIsNew(p, h, After(p, h, run[..j]), run[j]);
  }

  /** The step taken at position `i` of a run, between the states before and after it. */
  lemma StepOf(p: Policy, h: RequestHash, run: seq<Step>, i: nat)
    requires Legal(p, h, run) && i < |run|
    ensures Legal(p, h, run[..i]) && Legal(p, h, run[..i + 1]) && Guard(p, h, After(p, h, run[..i]), run[i])
    ensures After(p, h, run[..i + 1]) == Apply(p, h, After(p, h, run[..i]), run[i])
  {
    hide Apply, Guard;
    LegalPrefix(p, h, run, i);
    LegalPrefix(p, h, run, i + 1);
    assert run[..i + 1][..i] == run[..i];
  }

  lemma ClaimIsNew(p: Policy, h: RequestHash, s: State, step: Step)
    requires Guard(p, h, s, step) && step.Claim?
    ensures forall k | 0 <= k < |s.tasks| :: s.tasks[k].id != IdOf(step.candidate)
  {
    FindNone(s.tasks, IdOf(step.candidate));
  }

  lemma ClaimStores(p: Policy, h: RequestHash, s: State, step: Step)
    requires step.Claim?
    ensures |Apply(p, h, s, step).tasks| == |s.tasks| + 1
    ensures Apply(p, h, s, step).tasks[|s.tasks|].id == IdOf(step.candidate)
  {
  }

  lemma {:induction false} LegalPrefix(p: Policy, h: RequestHash, run: seq<Step>, n: nat)
    requires Legal(p, h, run) && n <= |run|
    ensures Legal(p, h, run[..n])
    decreases |run|
  {
    hide Guard, Apply;
    if n < |run| {
      LegalPrefix(p, h, run[..|run| - 1], n);
      assert run[..|run| - 1][..n] == run[..n];
    } else {
      assert run[..n] == run;
    }
  }

  // ---- Completion is earned --------------------------------------------------------

  /** Step `i` of the run completed task `t`: its own merged run, verified after the merge on the merged commit. */
  ghost predicate CompletedBy(run: seq<Step>, i: nat, t: Task)
    requires i < |run|
  {
    && run[i].Complete? && run[i].id == t.id
    && run[i].result.state.Finalized? && run[i].result.merged
    && run[i].result.mergeCommit == Some(run[i].verified.commit)
    && run[i].verified.verdict.Pass? && t.lastEvidence == Some(run[i].verified.verdict.evidence)
    && t.runId == Some(run[i].result.runId)
  }

  lemma CompletionStep(p: Policy, h: RequestHash, run: seq<Step>, s: State, step: Step, i: nat)
    requires run != [] && run[|run| - 1] == step
    requires DistinctTasks(s.tasks) && Guard(p, h, s, step) && i < |Apply(p, h, s, step).tasks|
    requires Apply(p, h, s, step).tasks[i].status.Completed?
    ensures (i < |s.tasks| && s.tasks[i] == Apply(p, h, s, step).tasks[i])
            || CompletedBy(run, |run| - 1, Apply(p, h, s, step).tasks[i])
  {
    if Subject(step).Some? {
      SubjectActive(p, h, s, step);
      FindIn(s.tasks, i);
    }
  }

  /** No task is COMPLETED without a step that saw its run merged and verified on the same merge commit. */
  lemma {:induction false} CompletionIsEarned(p: Policy, h: RequestHash, run: seq<Step>, t: Task)
    requires Legal(p, h, run) && t in After(p, h, run).tasks && t.status.Completed?
    ensures exists i | 0 <= i < |run| :: CompletedBy(run, i, t)
  {
    hide Guard, Apply;
    var before := run[..|run| - 1];
    var s, step := After(p, h, before), run[|run| - 1];
    var i :| 0 <= i < |After(p, h, run).tasks| && After(p, h, run).tasks[i] == t;
    RunSound(p, h, before);
    CompletionStep(p, h, run, s, step, i);
    if !CompletedBy(run, |run| - 1, t) {
      CompletionIsEarned(p, h, before, t);
      var j :| 0 <= j < |before| && CompletedBy(before, j, t);
      assert CompletedBy(run, j, t);
    }
  }

  // ---- What a stored task remembers --------------------------------------------------

  /** The lease expiry a step sets for a task, if it sets one. */
  function Expiry(step: Step, id: Identity): Option<int> {
    match step
    case Claim(c, _, expires) => if IdOf(c) == id then Some(expires) else None
    case Restart(c, _, expires) => if IdOf(c) == id then Some(expires) else None
    case FailRun(i, _, expires) => if i == id then Some(expires) else None
    case Complete(i, _, _, expires) => if i == id then Some(expires) else None
    case Reopen(i, _, _, expires) => if i == id then Some(expires) else None
    case Renew(i, _, expires) => if i == id then Some(expires) else None
    case _ => None
  }

  function LastExpiry(run: seq<Step>, id: Identity): Option<int> {
    if run == [] then None
    else if Expiry(run[|run| - 1], id).Some? then Expiry(run[|run| - 1], id)
    else LastExpiry(run[..|run| - 1], id)
  }

  /** Step `i` claimed the task, with this request and lease. */
  ghost predicate ClaimedBy(h: RequestHash, run: seq<Step>, i: nat, t: Task)
    requires i < |run|
  {
    && run[i].Claim? && IdOf(run[i].candidate) == t.id && run[i].leaseId == t.leaseId
    && run[i].candidate.repositoryId == t.repositoryId && run[i].candidate.request.requestId == t.requestId
    && h(run[i].candidate.request) == t.requestHash
  }

  /** Step `i` started the task's run, for its own request, with a request of the recorded hash. */
  ghost predicate StartedBy(h: RequestHash, run: seq<Step>, i: nat, t: Task)
    requires i < |run|
  {
    && (run[i].Restart? || run[i].Launch?) && IdOf(run[i].candidate) == t.id
    && Some(run[i].result.runId) == t.runId && run[i].result.requestId == t.requestId
    && h(run[i].candidate.request) == t.requestHash
  }

  ghost predicate Accounted(h: RequestHash, run: seq<Step>, t: Task) {
    && (exists i | 0 <= i < |run| :: ClaimedBy(h, run, i, t))
    && (t.runId.Some? ==> exists i | 0 <= i < |run| :: StartedBy(h, run, i, t))
    && Some(t.leaseExpiresAt) == LastExpiry(run, t.id)
    && t.failures == (if t.status.Failed? || t.status.Reopened? then 1 else 0)
    && (t.lastEvidence.Some? <==> Terminal(t))
  }

  lemma AccountedStays(h: RequestHash, run: seq<Step>, step: Step, t: Task)
    requires Accounted(h, run, t) && Expiry(step, t.id).None?
    ensures Accounted(h, run + [step], t)
  {
    AccountedTwin(h, run, step, t, t);
    assert (run + [step])[..|run|] == run;
  }

  lemma AccountedTwin(h: RequestHash, run: seq<Step>, step: Step, t: Task, u: Task)
    requires Accounted(h, run, t)
    requires t.id == u.id && t.leaseId == u.leaseId && t.repositoryId == u.repositoryId && t.requestId == u.requestId
    requires t.requestHash == u.requestHash
    ensures exists i | 0 <= i < |run + [step]| :: ClaimedBy(h, run + [step], i, u)
    ensures t.runId.Some? && u.runId == t.runId ==> exists i | 0 <= i < |run + [step]| :: StartedBy(h, run + [step], i, u)
  {
    var longer := run + [step];
    var i :| 0 <= i < |run| && ClaimedBy(h, run, i, t);
    assert longer[i] == run[i];
    assert ClaimedBy(h, longer, i, u);
    if t.runId.Some? && u.runId == t.runId {
      var j :| 0 <= j < |run| && StartedBy(h, run, j, t);
      assert longer[j] == run[j];
      assert StartedBy(h, longer, j, u);
    }
  }

  lemma RewrittenAccounted(p: Policy, h: RequestHash, run: seq<Step>, s: State, step: Step, t: Task)
    requires Accounted(h, run, t) && Guard(p, h, s, step) && Subject(step) == Some(t.id) && Find(s.tasks, t.id) == Some(t)
    ensures Accounted(h, run + [step], Rewritten(t, step))
  {
    var u := Rewritten(t, step);
    AccountedTwin(h, run, step, t, u);
    assert (run + [step])[..|run|] == run;
    if step.Restart? || step.Launch? {
      assert StartedBy(h, run + [step], |run|, u);
    }
  }

  lemma ClaimAccounted(p: Policy, h: RequestHash, run: seq<Step>, step: Step)
    requires step.Claim?
    ensures Accounted(h, run + [step], ClaimedTask(h, step.candidate, step.leaseId, step.expires))
  {
    assert (run + [step])[|run|] == step;
    assert ClaimedBy(h, run + [step], |run|, ClaimedTask(h, step.candidate, step.leaseId, step.expires));
  }

  ghost predicate AllAccounted(h: RequestHash, run: seq<Step>, tasks: seq<Task>) {
    forall i | 0 <= i < |tasks| :: Accounted(h, run, tasks[i])
  }

  lemma AccountedStep(p: Policy, h: RequestHash, run: seq<Step>, s: State, step: Step)
    requires DistinctTasks(s.tasks) && Guard(p, h, s, step) && AllAccounted(h, run, s.tasks)
    ensures AllAccounted(h, run + [step], Apply(p, h, s, step).tasks)
  {
    var next := Apply(p, h, s, step).tasks;
    hide Accounted;
    forall i | 0 <= i < |next| ensures Accounted(h, run + [step], next[i]) {
      if Subject(step).Some? {
        SubjectActive(p, h, s, step);
        FindIn(s.tasks, i);
        if s.tasks[i].id == Subject(step).value {
          RewrittenAccounted(p, h, run, s, step, s.tasks[i]);
        } else {
          AccountedStays(h, run, step, s.tasks[i]);
        }
      } else if step.Claim? && i == |s.tasks| {
        ClaimAccounted(p, h, run, step);
      } else {
        ExpiryElsewhere(p, h, s, step, i);
        AccountedStays(h, run, step, s.tasks[i]);
      }
    }
  }

  lemma ExpiryElsewhere(p: Policy, h: RequestHash, s: State, step: Step, i: nat)
    requires Guard(p, h, s, step) && Subject(step).None? && i < |s.tasks|
    ensures Expiry(step, s.tasks[i].id).None?
  {
    if step.Claim? {
      FindNone(s.tasks, IdOf(step.candidate));
    }
  }

  /**
   Every stored task is what the run made of it: claimed once with the request, hash and lease it records;
   its run started for that very request; its lease expiry the last one set for it; one failure exactly when
   it failed or was reopened; evidence exactly when it is finished.
   */
  lemma {:induction false} TasksAccounted(p: Policy, h: RequestHash, run: seq<Step>)
    requires Legal(p, h, run)
    ensures AllAccounted(h, run, After(p, h, run).tasks)
  {
    hide Guard, Apply, Accounted;
    if run != [] {
      var before, step := run[..|run| - 1], run[|run| - 1];
      TasksAccounted(p, h, before);
      RunSound(p, h, before);
      AccountedStep(p, h, before, After(p, h, before), step);
      assert run == before + [step];
    }
  }

  // ---- Readability -----------------------------------------------------------------

  ghost predicate NoEarlyLoss(run: seq<Step>) { forall i | 0 <= i < |run| :: !run[i].LoseBeforeStart? }

  ghost predicate AllLifecycles(tasks: seq<Task>) { forall i | 0 <= i < |tasks| :: LifecycleOk(tasks[i]) }

  lemma LifecycleStep(p: Policy, h: RequestHash, s: State, step: Step)
    requires DistinctTasks(s.tasks) && Guard(p, h, s, step) && AllLifecycles(s.tasks)
    ensures AllLifecycles(Apply(p, h, s, step).tasks) <==> !step.LoseBeforeStart?
  {
    var next := Apply(p, h, s, step).tasks;
    if Subject(step).Some? {
      SubjectActive(p, h, s, step);
      var t := Find(s.tasks, Subject(step).value).value;
      var i :| 0 <= i < |s.tasks| && s.tasks[i] == t;
      assert next[i] == Rewritten(t, step);
      hide Guard, Rewritten, LifecycleOk;
    }
  }

  lemma BrokenStaysBroken(p: Policy, h: RequestHash, s: State, step: Step, i: nat)
    requires DistinctTasks(s.tasks) && Guard(p, h, s, step) && i < |s.tasks| && Terminal(s.tasks[i]) && s.tasks[i].runId.None?
    ensures i < |Apply(p, h, s, step).tasks|
    ensures Terminal(Apply(p, h, s, step).tasks[i]) && Apply(p, h, s, step).tasks[i].runId.None?
  {
    StepKeepsTasks(p, h, s, step, i);
  }

  /** A task that was failed before it started. */
  ghost predicate Broken(tasks: seq<Task>) { exists i | 0 <= i < |tasks| :: Terminal(tasks[i]) && tasks[i].runId.None? }

  lemma LossBreaks(p: Policy, h: RequestHash, s: State, step: Step)
    requires DistinctTasks(s.tasks) && Guard(p, h, s, step) && AllLifecycles(s.tasks) && step.LoseBeforeStart?
    ensures Broken(Apply(p, h, s, step).tasks)
  {
    var t := Find(s.tasks, step.id).value;
    var i :| 0 <= i < |s.tasks| && s.tasks[i] == t;
    assert Apply(p, h, s, step).tasks[i] == Rewritten(t, step);
    assert LifecycleOk(s.tasks[i]);
  }

  lemma {:induction false} LifecyclesOfRun(p: Policy, h: RequestHash, run: seq<Step>)
    requires Legal(p, h, run)
    ensures NoEarlyLoss(run) ==> AllLifecycles(After(p, h, run).tasks)
    ensures !NoEarlyLoss(run) ==> Broken(After(p, h, run).tasks)
  {
    hide Guard, Apply, LifecycleOk;
    if run != [] {
      var before, step := run[..|run| - 1], run[|run| - 1];
      var s := After(p, h, before);
      LifecyclesOfRun(p, h, before);
      RunSound(p, h, before);
      assert NoEarlyLoss(run) <==> NoEarlyLoss(before) && !step.LoseBeforeStart?;
      if NoEarlyLoss(before) {
        LifecycleStep(p, h, s, step);
        if step.LoseBeforeStart? {
          LossBreaks(p, h, s, step);
        }
      } else {
        var i :| 0 <= i < |s.tasks| && Terminal(s.tasks[i]) && s.tasks[i].runId.None?;
        BrokenStaysBroken(p, h, s, step, i);
      }
    }
  }

  /** A written state can be read back exactly when no lease was ever lost between a claim and its start. */
  lemma ReadableIff(p: Policy, h: RequestHash, digest: State -> string, run: seq<Step>)
    requires Legal(p, h, run)
    ensures Readable(digest, Envelope(After(p, h, run), digest(After(p, h, run)))) <==> NoEarlyLoss(run)
  {
    hide Legal, After;
    LifecyclesOfRun(p, h, run);
    RunSound(p, h, run);
  }

  /** The failing branch is reachable: a claim, a crash before its start, and a lease lost at recovery. */
  lemma EarlyLossIsReachable(p: Policy, h: RequestHash, c: Candidate, leaseId: string, expires: int, evidence: string)
    requires ValidCandidate(p, c) && p.maxActive >= 1
    ensures var run := [SetMode(Active), Claim(c, leaseId, expires), LoseBeforeStart(IdOf(c), evidence)];
            Legal(p, h, run) && !NoEarlyLoss(run)
  {
    var a, b, c3 := SetMode(Active), Claim(c, leaseId, expires), LoseBeforeStart(IdOf(c), evidence);
    EarlyLossSteps(p, h, c, leaseId, expires, evidence);
    hide Guard, Apply;
    var r1, r2, r3 := [] + [a], [] + [a] + [b], [] + [a] + [b] + [c3];
    LegalExtend(p, h, [], a);
    LegalExtend(p, h, r1, b);
    LegalExtend(p, h, r2, c3);
    assert [a, b, c3] == r3;
    assert r3[2].LoseBeforeStart?;
  }

  lemma EarlyLossSteps(p: Policy, h: RequestHash, c: Candidate, leaseId: string, expires: int, evidence: string)
    requires ValidCandidate(p, c) && p.maxActive >= 1
    ensures var s1 := Apply(p, h, Initial, SetMode(Active));
            var s2 := Apply(p, h, s1, Claim(c, leaseId, expires));
            && Guard(p, h, Initial, SetMode(Active)) && Guard(p, h, s1, Claim(c, leaseId, expires))
            && Guard(p, h, s2, LoseBeforeStart(IdOf(c), evidence))
  {
    hide ValidCandidate;
  }

  // ---- The failure counter and the circuit -----------------------------------------

  /** Failures since the last completion or reset. */
  function FailuresSince(run: seq<Step>): nat {
    if run == [] then 0
    else
      var last := run[|run| - 1];
      if IsFailure(last) then FailuresSince(run[..|run| - 1]) + 1
      else if last.Complete? || last.ResetCircuit? then 0
      else FailuresSince(run[..|run| - 1])
  }

  /** The counter counts what it says, and reaching the limit opens the circuit. */
  lemma {:induction false} CounterCounts(p: Policy, h: RequestHash, run: seq<Step>)
    requires Legal(p, h, run) && p.maxFailures >= 1
    ensures After(p, h, run).failures == FailuresSince(run)
    ensures After(p, h, run).failures >= p.maxFailures ==> After(p, h, run).circuitOpen
  {
    hide Guard, NextTasks;
    if run != [] {
      CounterCounts(p, h, run[..|run| - 1]);
    }
  }

  /** When an open circuit stays open: always, except at a reset or at a failure that leaves the count below the limit. */
  lemma OpenCircuitStep(p: Policy, h: RequestHash, s: State, step: Step)
    requires s.circuitOpen && Guard(p, h, s, step)
    ensures !step.Claim?
    ensures Apply(p, h, s, step).circuitOpen <==> !step.ResetCircuit? && (IsFailure(step) ==> s.failures + 1 >= p.maxFailures)
  {
    hide NextTasks;
  }

  /** Once the limit is reached, the circuit stays open and admits no claim along any run without a completion or a reset. */
  lemma {:induction false} CircuitHolds(p: Policy, h: RequestHash, run: seq<Step>, longer: seq<Step>)
    requires Legal(p, h, longer) && run <= longer && Legal(p, h, run) && After(p, h, run).failures >= p.maxFailures
    requires p.maxFailures >= 1
    requires forall i | |run| <= i < |longer| :: !longer[i].Complete? && !longer[i].ResetCircuit?
    ensures After(p, h, longer).circuitOpen && After(p, h, longer).failures >= p.maxFailures
    ensures forall i | |run| <= i < |longer| :: !longer[i].Claim?
    decreases |longer|
  {
    hide Guard, Apply;
    if run == longer {
      CounterCounts(p, h, run);
    } else {
      var before, step := longer[..|longer| - 1], longer[|longer| - 1];
      assert run <= before;
      CircuitHolds(p, h, run, before);
      OpenCircuitStep(p, h, After(p, h, before), step);
      CountAfter(p, h, After(p, h, before), step);
    }
  }

  lemma CountAfter(p: Policy, h: RequestHash, s: State, step: Step)
    requires !step.Complete? && !step.ResetCircuit?
    ensures Apply(p, h, s, step).failures >= s.failures
  {
    hide NextTasks;
  }

  /** Why completions must be excluded: after one, a further failure closes the open circuit without any reset. */
  lemma CompletionLetsFailureClose(
    p: Policy, h: RequestHash, s: State, t: Task, u: Task, result: RunResult, v: Verified, expires: int, evidence: string)
    requires s.circuitOpen && p.maxFailures >= 2 && DistinctTasks(s.tasks) && t.id != u.id
    requires Find(s.tasks, t.id) == Some(t) && Find(s.tasks, u.id) == Some(u) && u.status.Running?
    requires Guard(p, h, s, Complete(t.id, result, v, expires))
    ensures var completed := Apply(p, h, s, Complete(t.id, result, v, expires));
            && Guard(p, h, completed, LoseRunning(u.id, evidence)) && completed.circuitOpen
            && !Apply(p, h, completed, LoseRunning(u.id, evidence)).circuitOpen
  {
    var after := Rewritten(t, Complete(t.id, result, v, expires));
    FindOther(s.tasks, after, u.id);
  }

  lemma {:induction false} FindOther(tasks: seq<Task>, t: Task, id: Identity)
    requires t.id != id
    ensures Find(Replace(tasks, t), id) == Find(tasks, id)
  {
    if tasks != [] {
      FindOther(tasks[1..], t, id);
      assert Replace(tasks, t)[1..] == Replace(tasks[1..], t);
    }
  }
}
