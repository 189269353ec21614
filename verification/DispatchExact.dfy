/**
 The dispatcher's conditions and counters written out: who may be claimed, when each write may be made, and what the
 report of a cycle counts, by the stored tasks and the steps taken alone.
 */
module DispatchExact {
  import opened Prelude
  import opened DispatchModel
  import opened DispatchProofs
  import opened Dispatcher

  /** The task stored under an identity, looked for by position. */
  ghost predicate Stored(s: State, id: Identity, t: Task) { exists i :: 0 <= i < |s.tasks| && s.tasks[i] == t && t.id == id }

  lemma FoundIffStored(s: State, id: Identity, t: Task)
    requires DistinctTasks(s.tasks)
    ensures Find(s.tasks, id) == Some(t) <==> Stored(s, id, t)
  {
    if Stored(s, id, t) {
      var i :| 0 <= i < |s.tasks| && s.tasks[i] == t && t.id == id;
      FindIn(s.tasks, i);
    }
  }

  lemma MissingIff(s: State, id: Identity)
    ensures Find(s.tasks, id).None? <==> forall i | 0 <= i < |s.tasks| :: s.tasks[i].id != id
  {
    if Find(s.tasks, id).None? {
      FindNone(s.tasks, id);
    }
  }

  /** The tasks holding a slot, by position. */
  lemma {:induction false} ActiveAre(tasks: seq<Task>)
    ensures ActiveCount(tasks) == |set i: nat | i < |tasks| && (tasks[i].status == Claimed || tasks[i].status == Running)|
  {
    var held := set i: nat | i < |tasks| && (tasks[i].status == Claimed || tasks[i].status == Running);
    if tasks == [] {
      assert held == {};
    } else {
      var rest := tasks[1..];
      ActiveAre(rest);
      var later := set i: nat | i < |rest| && (rest[i].status == Claimed || rest[i].status == Running);
      var moved := HeldAfter(tasks, held, later);
      assert held == (if IsActive(tasks[0]) then {0} else {}) + moved;
    }
  }

  lemma HeldAfter(tasks: seq<Task>, held: set<nat>, later: set<nat>) returns (moved: set<nat>)
    requires tasks != [] && held == set i: nat | i < |tasks| && (tasks[i].status == Claimed || tasks[i].status == Running)
    requires var rest := tasks[1..]; later == set i: nat | i < |rest| && (rest[i].status == Claimed || rest[i].status == Running)
    ensures |moved| == |later| && 0 !in moved
    ensures forall i: nat :: i in held <==> i in moved || (i == 0 && IsActive(tasks[0]))
  {
    moved := set i | i in later :: i + 1;
    Shifted(later, moved);
    forall i: nat ensures i in held <==> i in moved || (i == 0 && IsActive(tasks[0])) {
      if 0 < i < |tasks| { assert tasks[1..][i - 1] == tasks[i]; assert i in moved <==> i - 1 in later; }
    }
  }

  lemma {:induction false} Shifted(a: set<nat>, b: set<nat>)
    requires b == set i | i in a :: i + 1
    ensures |b| == |a|
  {
    if a == {} {
    } else {
      var x :| x in a;
      var rest := set i | i in a - {x} :: i + 1;
      Shifted(a - {x}, rest);
      forall n | n in b ensures n in rest + {x + 1} {
        var i :| i in a && i + 1 == n;
        if i != x { assert i in a - {x}; }
      }
      assert b == rest + {x + 1};
    }
  }

  /** A candidate may be worked on: permitted source and repository, labels free of duplicates and with all required ones. */
  lemma CandidateIff(p: Policy, c: Candidate)
    ensures ValidCandidate(p, c) <==>
              && (exists i :: 0 <= i < |p.sources| && p.sources[i] == c.source)
              && (exists i :: 0 <= i < |p.repositories| && p.repositories[i] == c.repositoryId)
              && |c.labels| == |set x | x in c.labels|
              && (set x | x in p.requiredLabels) <= (set x | x in c.labels)
              && c.request.repositoryId == c.repositoryId
  {
    SetOfDistinct(c.labels);
    var required, labels := set x | x in p.requiredLabels, set x | x in c.labels;
    if required <= labels {
      forall i | 0 <= i < |p.requiredLabels| ensures p.requiredLabels[i] in c.labels {
        assert p.requiredLabels[i] in required;
      }
    } else {
      var x :| x in required && x !in labels;
      var i :| 0 <= i < |p.requiredLabels| && p.requiredLabels[i] == x;
    }
  }

  lemma {:induction false} SetOfDistinct(s: seq<string>)
    ensures |set x | x in s| <= |s|
    ensures |set x | x in s| == |s| <==> forall i, j | 0 <= i < j < |s| :: s[i] != s[j]
  {
    if s == [] {
      assert (set x | x in s) == {};
    } else {
      var rest := s[1..];
      SetOfDistinct(rest);
      assert (set x | x in s) == (set x | x in rest) + {s[0]};
      if s[0] !in rest {
        assert forall j | 0 < j < |s| :: s[j] == rest[j - 1];
      } else {
        var k :| 0 <= k < |rest| && rest[k] == s[0];
        assert s[k + 1] == s[0];
        assert (set x | x in s) == (set x | x in rest);
      }
    }
  }

  /** When each write may be made, by the stored tasks alone. */
  lemma StepAllowedIff(p: Policy, h: RequestHash, s: State, step: Step)
    requires DistinctTasks(s.tasks)
    ensures step.SetMode? ==> (Guard(p, h, s, step) <==> step.mode != s.mode)
    ensures step.ResetCircuit? ==> (Guard(p, h, s, step) <==> s.mode == Paused && !(s.failures == 0 && !s.circuitOpen))
    ensures step.LoseBeforeStart? ==>
              (Guard(p, h, s, step) <==> s.mode != Paused && exists t :: Stored(s, step.id, t) && t.status == Claimed)
    ensures step.LoseRunning? ==>
              (Guard(p, h, s, step) <==> s.mode != Paused && exists t :: Stored(s, step.id, t) && t.status == Running)
    ensures step.Advance? ==> (Guard(p, h, s, step) <==> s.mode == Active && !s.circuitOpen && step.cursor != s.cursor)
    ensures step.Claim? ==>
              (Guard(p, h, s, step) <==>
                 && s.mode == Active && !s.circuitOpen && ValidCandidate(p, step.candidate)
                 && (forall i | 0 <= i < |s.tasks| ::
                       !(s.tasks[i].id.candidateId == step.candidate.candidateId && s.tasks[i].id.revision == step.candidate.revision))
                 && |set i: nat | i < |s.tasks| && (s.tasks[i].status == Claimed || s.tasks[i].status == Running)| < p.maxActive)
  {
    hide ValidCandidate, ActiveCount;
    if step.Claim? {
      ActiveAre(s.tasks);
      MissingIff(s, IdOf(step.candidate));
    }
    if step.LoseBeforeStart? || step.LoseRunning? {
      HasIff(s, step.id, if step.LoseRunning? then Running else Claimed);
    }
    hide Has, Stored, Find;
  }

  lemma HasIff(s: State, id: Identity, status: Status)
    requires DistinctTasks(s.tasks)
    ensures Has(s, id, status) <==> exists t :: Stored(s, id, t) && t.status == status
  {
    if Has(s, id, status) {
      FoundIffStored(s, id, Find(s.tasks, id).value);
    }
    if t :| Stored(s, id, t) && t.status == status {
      FoundIffStored(s, id, t);
    }
  }

  /** The stored task is the one claimed for the candidate, under the hash recorded for its request. */
  ghost predicate ClaimedFor(h: RequestHash, s: State, c: Candidate, t: Task) {
    && Stored(s, Identity(c.candidateId, c.revision), t) && t.status == Claimed && t.repositoryId == c.repositoryId
    && t.requestId == c.request.requestId && t.requestHash == h(c.request)
  }

  lemma ClaimedForIff(h: RequestHash, s: State, c: Candidate)
    requires DistinctTasks(s.tasks)
    ensures (Has(s, IdOf(c), Claimed) && SameWork(h, c, Find(s.tasks, IdOf(c)).value)) <==> exists t :: ClaimedFor(h, s, c, t)
  {
    var id := Identity(c.candidateId, c.revision);
    if Has(s, IdOf(c), Claimed) && SameWork(h, c, Find(s.tasks, IdOf(c)).value) {
      FoundIffStored(s, id, Find(s.tasks, id).value);
      assert ClaimedFor(h, s, c, Find(s.tasks, id).value);
    }
    if t :| ClaimedFor(h, s, c, t) {
      FoundIffStored(s, id, t);
    }
  }

  /** When a claimed task may start: its candidate is still the one it was claimed for and the run answers its request. */
  lemma StartAllowedIff(p: Policy, h: RequestHash, s: State, step: Step)
    requires DistinctTasks(s.tasks)
    ensures step.Restart? ==>
              (Guard(p, h, s, step) <==>
                 && s.mode != Paused && ValidCandidate(p, step.candidate)
                 && step.result.requestId == step.candidate.request.requestId
                 && exists t :: ClaimedFor(h, s, step.candidate, t))
    ensures step.Launch? ==>
              (Guard(p, h, s, step) <==>
                 && s.mode == Active && !s.circuitOpen && step.result.requestId == step.candidate.request.requestId
                 && exists t :: ClaimedFor(h, s, step.candidate, t))
  {
    if step.Restart? || step.Launch? {
      ClaimedForIff(h, s, step.candidate);
    }
    hide ValidCandidate, Has, SameWork, ClaimedFor, Find;
  }

  /** The stored task is running under exactly the run and the request the result names. */
  ghost predicate RunsAs(s: State, id: Identity, result: RunResult, t: Task) {
    Stored(s, id, t) && t.status == Running && t.runId == Some(result.runId) && t.requestId == result.requestId
  }

  lemma RunsAsIff(s: State, id: Identity, result: RunResult)
    requires DistinctTasks(s.tasks)
    ensures OwnRun(s, id, result) <==> exists t :: RunsAs(s, id, result, t)
  {
    if OwnRun(s, id, result) {
      FoundIffStored(s, id, Find(s.tasks, id).value);
      assert RunsAs(s, id, result, Find(s.tasks, id).value);
    }
    if t :| RunsAs(s, id, result, t) {
      FoundIffStored(s, id, t);
    }
  }

  /** When a running task may end or go on, by the state its run reports and the verdict on the merged commit. */
  lemma EndAllowedIff(p: Policy, h: RequestHash, s: State, step: Step)
    requires DistinctTasks(s.tasks)
    ensures step.FailRun? ==>
              (Guard(p, h, s, step) <==>
                 && s.mode != Paused && step.result.state in {RunFailed, RunAborted} && step.result.failureEvidence != None
                 && exists t :: RunsAs(s, step.id, step.result, t))
    ensures step.Renew? ==>
              (Guard(p, h, s, step) <==>
                 s.mode != Paused && step.result.state == Underway && exists t :: RunsAs(s, step.id, step.result, t))
    ensures step.Complete? ==>
              (Guard(p, h, s, step) <==>
                 && s.mode != Paused && step.result.state == Finalized && step.result.merged
                 && step.result.mergeCommit == Some(step.verified.commit)
                 && !step.verified.verdict.Regression?
                 && exists t :: RunsAs(s, step.id, step.result, t))
    ensures step.Reopen? ==>
              (Guard(p, h, s, step) <==>
                 && s.mode != Paused && step.result.state == Finalized && step.result.merged
                 && step.result.mergeCommit == Some(step.verified.commit)
                 && !step.verified.verdict.Pass?
                 && exists t :: RunsAs(s, step.id, step.result, t))
  {
    if step.FailRun? || step.Renew? || step.Complete? || step.Reopen? {
      RunsAsIff(s, step.id, step.result);
    }
    hide OwnRun, RunsAs;
  }

  // ---- Reports -----------------------------------------------------------------------

  ghost function Many(run: seq<Step>, kind: Step -> bool): nat { |set i: nat | i < |run| && kind(run[i])| }

  lemma ManyLast(run: seq<Step>, kind: Step -> bool)
    requires run != []
    ensures var last := |run| - 1; Many(run, kind) == Many(run[..last], kind) + if kind(run[last]) then 1 else 0
  {
    var last := |run| - 1;
    var before := set i: nat | i < |run[..last]| && kind(run[..last][i]);
    assert (set i: nat | i < |run| && kind(run[i])) == before + if kind(run[last]) then {last} else {};
  }

  /** What the report counts. */
  lemma {:induction false} TallyCounts(run: seq<Step>)
    ensures TallyOf(run).claimed == Many(run, (x: Step) => x.Claim?)
    ensures TallyOf(run).started == Many(run, (x: Step) => x.Restart? || x.Launch?)
    ensures TallyOf(run).resumed == Many(run, (x: Step) => x.FailRun? || x.Complete? || x.Reopen? || x.Renew?)
    ensures TallyOf(run).completed == Many(run, (x: Step) => x.Complete?)
    ensures TallyOf(run).reopened == Many(run, (x: Step) => x.Reopen?)
    ensures TallyOf(run).failed == Many(run, (x: Step) => x.LoseBeforeStart? || x.LoseRunning? || x.FailRun?)
  {
    if run != [] {
      TallyCounts(run[..|run| - 1]);
      ManyLast(run, (x: Step) => x.Claim?);
      ManyLast(run, (x: Step) => x.Restart? || x.Launch?);
      ManyLast(run, (x: Step) => x.FailRun? || x.Complete? || x.Reopen? || x.Renew?);
      ManyLast(run, (x: Step) => x.Complete?);
      ManyLast(run, (x: Step) => x.Reopen?);
      ManyLast(run, (x: Step) => x.LoseBeforeStart? || x.LoseRunning? || x.FailRun?);
    }
  }
}
