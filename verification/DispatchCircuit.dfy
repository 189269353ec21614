/**
 When the dispatcher's open circuit can close without a reset: exactly under which policies, with a run
 from the initial state that does it.
 */
module DispatchCircuit {
  import opened Prelude
  import opened DispatchModel
  import opened DispatchProofs

  ghost predicate NoReset(run: seq<Step>) { forall i | 0 <= i < |run| :: !run[i].ResetCircuit? }

  /** Some run without a reset finds the circuit open and later closed. */
  ghost predicate ClosesByItself(p: Policy, h: RequestHash) {
    exists run: seq<Step>, n: nat :: ClosesAt(p, h, run, n)
  }

  ghost predicate ClosesAt(p: Policy, h: RequestHash, run: seq<Step>, n: nat) {
    && n <= |run| && Legal(p, h, run) && Legal(p, h, run[..n]) && NoReset(run)
    && After(p, h, run[..n]).circuitOpen && !After(p, h, run).circuitOpen
  }

  // ---- Never, under a strict policy ----------------------------------------------------

  /** Along runs without a reset, an open circuit leaves too few active tasks, or too low a limit, for it to close. */
  ghost predicate HeldOpen(p: Policy, s: State) {
    s.circuitOpen ==>
      || p.maxFailures <= 1
      || ActiveCount(s.tasks) == 0
      || (ActiveCount(s.tasks) <= 1 && s.failures >= p.maxFailures)
  }

  /** How a step changes the number of active tasks. */
  lemma ActiveAfter(p: Policy, h: RequestHash, s: State, step: Step)
    requires DistinctTasks(s.tasks) && Guard(p, h, s, step)
    ensures ActiveCount(Apply(p, h, s, step).tasks) ==
            ActiveCount(s.tasks) + (if step.Claim? then 1 else 0) - (if IsFailure(step) || step.Complete? then 1 else 0)
  {
    hide Guard, ActiveCount, Rewritten, IsActive;
    if Subject(step).Some? {
      SubjectActive(p, h, s, step);
      var t := Find(s.tasks, Subject(step).value).value;
      ReplaceCount(s.tasks, t, Rewritten(t, step));
    } else if step.Claim? {
      var t := ClaimedTask(h, step.candidate, step.leaseId, step.expires);
      CountAppend(s.tasks, t);
      ClaimedActive(t);
    }
  }

  lemma ClaimedActive(t: Task)
    ensures t.status.Claimed? ==> IsActive(t)
  {
  }

  lemma HeldStep(p: Policy, h: RequestHash, s: State, step: Step)
    requires p.maxFailures <= 1 || p.maxActive <= 2
    requires Sound(p, s) && HeldOpen(p, s) && Guard(p, h, s, step) && !step.ResetCircuit?
    ensures HeldOpen(p, Apply(p, h, s, step))
    ensures s.circuitOpen ==> Apply(p, h, s, step).circuitOpen
  {
    ActiveAfter(p, h, s, step);
    if s.circuitOpen { OpenCircuitStep(p, h, s, step); }
    hide ActiveCount, NextTasks, Guard, DistinctTasks;
  }

  lemma {:induction false} HeldAlong(p: Policy, h: RequestHash, run: seq<Step>, n: nat)
    requires p.maxFailures <= 1 || p.maxActive <= 2
    requires Legal(p, h, run) && NoReset(run) && n <= |run| && Legal(p, h, run[..n])
    ensures HeldOpen(p, After(p, h, run))
    ensures After(p, h, run[..n]).circuitOpen ==> After(p, h, run).circuitOpen
    decreases |run|
  {
    hide Guard, Apply, HeldOpen, ActiveCount;
    if run == [] {
      StartHeld(p);
      assert run[..n] == run;
    } else {
      var before := run[..|run| - 1];
      var m := if n < |run| then n else n - 1;
      assert before[..m] == run[..m];
      LegalPrefix(p, h, run, m);
      HeldAlong(p, h, before, m);
      RunSound(p, h, before);
      HeldStep(p, h, After(p, h, before), run[|run| - 1]);
      if n == |run| { assert run[..n] == run; }
    }
  }

  lemma StartHeld(p: Policy)
    ensures HeldOpen(p, Initial)
  {
  }

  // ---- Under any other policy ------------------------------------------------------------

  function Started(c: Candidate): RunResult { RunResult("r", c.request.requestId, Underway, false, None, None, "m") }

  function RunningTask(h: RequestHash, c: Candidate): Task {
    Task(IdOf(c), c.repositoryId, c.request.requestId, h(c.request), Some("r"), Running, 0, "l", 0, None)
  }

  function LostTask(h: RequestHash, c: Candidate): Task {
    RunningTask(h, c).(status := Failed, failures := 1, lastEvidence := Some("e"))
  }

  /** Replacing the task that was appended last. */
  lemma {:induction false} ReplaceAppended(tasks: seq<Task>, old_: Task, new_: Task)
    requires old_.id == new_.id && Find(tasks, old_.id).None?
    ensures Replace(tasks + [old_], new_) == tasks + [new_]
  {
    if tasks == [] {
      assert tasks + [old_] == [old_];
    } else {
      ReplaceAppended(tasks[1..], old_, new_);
      assert (tasks + [old_])[1..] == tasks[1..] + [old_];
    }
  }

  /** Claiming a candidate and launching its run. */
  lemma ClaimAndLaunch(p: Policy, h: RequestHash, run: seq<Step>, c: Candidate) returns (longer: seq<Step>)
    requires Legal(p, h, run) && NoReset(run)
    requires var s := After(p, h, run);
             && s.mode.Active? && !s.circuitOpen && ValidCandidate(p, c)
             && Find(s.tasks, IdOf(c)).None? && ActiveCount(s.tasks) < p.maxActive
    ensures Legal(p, h, longer) && NoReset(longer)
    ensures After(p, h, longer) == After(p, h, run).(tasks := After(p, h, run).tasks + [RunningTask(h, c)])
  {
    var s := After(p, h, run);
    var claim, launch := Claim(c, "l", 0), Launch(c, Started(c));
    ClaimThenLaunch(p, h, s, c);
    hide Legal, After, Guard, Apply;
    LegalExtend(p, h, run, claim);
    LegalExtend(p, h, run + [claim], launch);
    longer := run + [claim] + [launch];
  }

  /** A step on the task stored last finds it and rewrites it. */
  lemma RewriteLast(h: RequestHash, s: State, tasks: seq<Task>, t: Task, step: Step)
    requires s.tasks == tasks + [t] && Find(tasks, t.id).None?
    requires Subject(step) == Some(t.id) && Rewritten(t, step).id == t.id
    ensures Find(s.tasks, t.id) == Some(t) && NextTasks(h, s, step) == tasks + [Rewritten(t, step)]
  {
    hide Find, Replace, Rewritten, Subject;
    FindAppended(tasks, t, t.id);
    ReplaceAppended(tasks, t, Rewritten(t, step));
  }

  lemma ClaimAppends(p: Policy, h: RequestHash, s: State, c: Candidate)
    requires s.mode.Active? && !s.circuitOpen && ValidCandidate(p, c)
    requires Find(s.tasks, IdOf(c)).None? && ActiveCount(s.tasks) < p.maxActive
    ensures Guard(p, h, s, Claim(c, "l", 0))
    ensures Apply(p, h, s, Claim(c, "l", 0)) == s.(tasks := s.tasks + [ClaimedTask(h, c, "l", 0)])
  {
    hide ValidCandidate, ActiveCount, Find, ClaimedTask;
  }

  lemma LaunchLast(p: Policy, h: RequestHash, s: State, tasks: seq<Task>, c: Candidate)
    requires s.mode.Active? && !s.circuitOpen && s.tasks == tasks + [ClaimedTask(h, c, "l", 0)] && Find(tasks, IdOf(c)).None?
    ensures Guard(p, h, s, Launch(c, Started(c)))
    ensures Apply(p, h, s, Launch(c, Started(c))) == s.(tasks := tasks + [RunningTask(h, c)])
  {
    hide Find, NextTasks;
    RewriteLast(h, s, tasks, ClaimedTask(h, c, "l", 0), Launch(c, Started(c)));
  }

  lemma ClaimThenLaunch(p: Policy, h: RequestHash, s: State, c: Candidate)
    requires s.mode.Active? && !s.circuitOpen && ValidCandidate(p, c)
    requires Find(s.tasks, IdOf(c)).None? && ActiveCount(s.tasks) < p.maxActive
    ensures var claim, launch := Claim(c, "l", 0), Launch(c, Started(c));
            && Guard(p, h, s, claim) && Guard(p, h, Apply(p, h, s, claim), launch)
            && Apply(p, h, Apply(p, h, s, claim), launch) == s.(tasks := s.tasks + [RunningTask(h, c)])
  {
    hide *;
    ClaimAppends(p, h, s, c);
    LaunchLast(p, h, s.(tasks := s.tasks + [ClaimedTask(h, c, "l", 0)]), s.tasks, c);
  }

  lemma LoseSteps(p: Policy, h: RequestHash, s: State, tasks: seq<Task>, c: Candidate)
    requires !s.mode.Paused? && s.tasks == tasks + [RunningTask(h, c)] && Find(tasks, IdOf(c)).None?
    ensures Guard(p, h, s, LoseRunning(IdOf(c), "e"))
    ensures Apply(p, h, s, LoseRunning(IdOf(c), "e")) ==
            State(s.mode, s.cursor, s.failures + 1 >= p.maxFailures, s.failures + 1, tasks + [LostTask(h, c)])
  {
    hide Find, NextTasks;
    RewriteLast(h, s, tasks, RunningTask(h, c), LoseRunning(IdOf(c), "e"));
  }

  /** Losing the lease of the run launched last. */
  lemma LoseLast(p: Policy, h: RequestHash, run: seq<Step>, c: Candidate, tasks: seq<Task>) returns (longer: seq<Step>)
    requires Legal(p, h, run) && NoReset(run) && !After(p, h, run).mode.Paused?
    requires After(p, h, run).tasks == tasks + [RunningTask(h, c)] && Find(tasks, IdOf(c)).None?
    ensures Legal(p, h, longer) && NoReset(longer)
    ensures var s := After(p, h, run);
            After(p, h, longer) ==
            State(s.mode, s.cursor, s.failures + 1 >= p.maxFailures, s.failures + 1, tasks + [LostTask(h, c)])
  {
    hide Legal, After, Guard, Apply, Find, RunningTask, LostTask;
    var lose := LoseRunning(IdOf(c), "e");
    LoseSteps(p, h, After(p, h, run), tasks, c);
    LegalExtend(p, h, run, lose);
    longer := run + [lose];
  }

  /** Two runs still going, and the first `k` of the others lost. */
  function TasksAt(h: RequestHash, cs: seq<Candidate>, k: nat): seq<Task>
    requires k + 2 <= |cs|
  {
    if k == 0 then [RunningTask(h, cs[0]), RunningTask(h, cs[1])] else TasksAt(h, cs, k - 1) + [LostTask(h, cs[k + 1])]
  }

  ghost predicate Supply(p: Policy, cs: seq<Candidate>) {
    && |cs| == p.maxFailures + 2
    && (forall i | 0 <= i < |cs| :: ValidCandidate(p, cs[i]))
    && (forall i, j | 0 <= i < j < |cs| :: IdOf(cs[i]) != IdOf(cs[j]))
  }

  lemma {:induction false} TasksAtFacts(h: RequestHash, cs: seq<Candidate>, k: nat)
    requires k + 2 <= |cs| && forall i, j | 0 <= i < j < |cs| :: IdOf(cs[i]) != IdOf(cs[j])
    ensures ActiveCount(TasksAt(h, cs, k)) == 2
    ensures Find(TasksAt(h, cs, k), IdOf(cs[0])) == Some(RunningTask(h, cs[0]))
    ensures Find(TasksAt(h, cs, k), IdOf(cs[1])) == Some(RunningTask(h, cs[1]))
    ensures forall j | k + 2 <= j < |cs| :: Find(TasksAt(h, cs, k), IdOf(cs[j])).None?
  {
    hide IdOf;
    if k == 0 {
      TwoTasks(RunningTask(h, cs[0]), RunningTask(h, cs[1]));
      forall j | 2 <= j < |cs| ensures Find(TasksAt(h, cs, 0), IdOf(cs[j])).None? {
        FindNone(TasksAt(h, cs, 0), IdOf(cs[j]));
      }
    } else {
      TasksAtFacts(h, cs, k - 1);
      var t := LostTask(h, cs[k + 1]);
      CountAppend(TasksAt(h, cs, k - 1), t);
      forall id { FindAppended(TasksAt(h, cs, k - 1), t, id); }
      hide Find, ActiveCount;
    }
  }

  lemma TwoTasks(a: Task, b: Task)
    requires a.id != b.id && IsActive(a) && IsActive(b)
    ensures ActiveCount([a, b]) == 2 && Find([a, b], a.id) == Some(a) && Find([a, b], b.id) == Some(b)
  {
    assert [a, b][1..] == [b] && [b][1..] == [];
    assert ActiveCount([]) == 0 && ActiveCount([b]) == 1;
    assert Find([b], b.id) == Some(b);
  }

  ghost predicate Reached(p: Policy, h: RequestHash, cs: seq<Candidate>, run: seq<Step>, k: nat)
    requires k + 2 <= |cs|
  {
    && Legal(p, h, run) && NoReset(run)
    && After(p, h, run) == State(Active, None, k > 0 && k >= p.maxFailures, k, TasksAt(h, cs, k))
  }

  /** From the start to any number of failures up to the limit, with two runs still going. */
  lemma {:induction false} ReachFailures(p: Policy, h: RequestHash, cs: seq<Candidate>, k: nat) returns (run: seq<Step>)
    requires p.maxFailures >= 2 && p.maxActive >= 3 && Supply(p, cs) && k <= p.maxFailures
    ensures Reached(p, h, cs, run, k)
  {
    hide Legal, After, ValidCandidate, ActiveCount, Find, LostTask, RunningTask;
    if k == 0 {
      run := ReachTwoRuns(p, h, cs);
    } else {
      var before := ReachFailures(p, h, cs, k - 1);
      TasksAtFacts(h, cs, k - 1);
      var launched := ClaimAndLaunch(p, h, before, cs[k + 1]);
      run := LoseLast(p, h, launched, cs[k + 1], TasksAt(h, cs, k - 1));
    }
  }

  lemma ReachTwoRuns(p: Policy, h: RequestHash, cs: seq<Candidate>) returns (run: seq<Step>)
    requires p.maxActive >= 3 && Supply(p, cs)
    ensures Reached(p, h, cs, run, 0)
  {
    assert Legal(p, h, []) && After(p, h, []) == Initial;
    LegalExtend(p, h, [], SetMode(Active));
    var active := [] + [SetMode(Active)];
    hide Legal, After, ValidCandidate;
    assert NoReset(active);
    var one := ClaimAndLaunch(p, h, active, cs[0]);
    var first := RunningTask(h, cs[0]);
    assert After(p, h, one).tasks == [first];
    CountAppend([], first);
    FindAppended([], first, IdOf(cs[1]));
    assert [] + [first] == [first];
    run := ClaimAndLaunch(p, h, one, cs[1]);
    assert [first] + [RunningTask(h, cs[1])] == TasksAt(h, cs, 0);
  }

  /** The merged and verified result that completes a run. */
  function Merged(c: Candidate): RunResult { RunResult("r", c.request.requestId, Finalized, true, Some("c"), None, "m") }

  /** With the circuit open and two runs going, one completes and the other loses its lease: the circuit is closed. */
  lemma CompleteThenLose(p: Policy, h: RequestHash, cs: seq<Candidate>, run: seq<Step>)
    requires p.maxFailures >= 2 && Supply(p, cs) && Reached(p, h, cs, run, p.maxFailures)
    ensures ClosesByItself(p, h)
  {
    var s := After(p, h, run);
    var complete, lose := Complete(IdOf(cs[0]), Merged(cs[0]), Verified("c", Pass("e")), 0), LoseRunning(IdOf(cs[1]), "e");
    ReachedFacts(p, h, cs, run);
    hide *;
    CompleteThenLoseSteps(p, h, s, cs[0], cs[1]);
    LegalExtend(p, h, run, complete);
    LegalExtend(p, h, run + [complete], lose);
    ClosedNow(p, h, run, complete, lose);
  }

  /** What the run to the limit has reached. */
  lemma ReachedFacts(p: Policy, h: RequestHash, cs: seq<Candidate>, run: seq<Step>)
    requires p.maxFailures >= 2 && Supply(p, cs) && Reached(p, h, cs, run, p.maxFailures)
    ensures |cs| >= 2 && IdOf(cs[0]) != IdOf(cs[1]) && Legal(p, h, run) && NoReset(run)
    ensures var s := After(p, h, run);
            && s.circuitOpen && !s.mode.Paused? && DistinctTasks(s.tasks)
            && Find(s.tasks, IdOf(cs[0])) == Some(RunningTask(h, cs[0])) && Find(s.tasks, IdOf(cs[1])) == Some(RunningTask(h, cs[1]))
  {
    hide Legal, After, TasksAt, ActiveCount, ValidCandidate, Find, RunningTask;
    TasksAtFacts(h, cs, p.maxFailures);
    RunSound(p, h, run);
  }

  lemma ClosedNow(p: Policy, h: RequestHash, run: seq<Step>, complete: Step, lose: Step)
    requires Legal(p, h, run) && NoReset(run) && After(p, h, run).circuitOpen && !complete.ResetCircuit? && !lose.ResetCircuit?
    requires Legal(p, h, run + [complete] + [lose]) && !After(p, h, run + [complete] + [lose]).circuitOpen
    ensures ClosesByItself(p, h)
  {
    hide Legal, After;
    var longer := run + [complete] + [lose];
    assert longer[..|run|] == run;
    assert ClosesAt(p, h, longer, |run|);
  }

  lemma CompleteThenLoseSteps(p: Policy, h: RequestHash, s: State, a: Candidate, b: Candidate)
    requires s.circuitOpen && p.maxFailures >= 2 && DistinctTasks(s.tasks) && IdOf(a) != IdOf(b) && !s.mode.Paused?
    requires Find(s.tasks, IdOf(a)) == Some(RunningTask(h, a)) && Find(s.tasks, IdOf(b)) == Some(RunningTask(h, b))
    ensures var complete := Complete(IdOf(a), Merged(a), Verified("c", Pass("e")), 0);
            var completed := Apply(p, h, s, complete);
            && Guard(p, h, s, complete) && Guard(p, h, completed, LoseRunning(IdOf(b), "e"))
            && !Apply(p, h, completed, LoseRunning(IdOf(b), "e")).circuitOpen
  {
    CompletionLetsFailureClose(p, h, s, RunningTask(h, a), RunningTask(h, b), Merged(a), Verified("c", Pass("e")), 0, "e");
    hide Apply, DistinctTasks;
  }

  /**
   Given candidates enough, an open circuit can close without a reset exactly under policies that tolerate a failure
   and run three tasks at once.
   */
  lemma ClosesByItselfIff(p: Policy, h: RequestHash, cs: seq<Candidate>)
    requires p.maxFailures >= 2 && p.maxActive >= 3 ==> Supply(p, cs)
    ensures ClosesByItself(p, h) <==> p.maxFailures >= 2 && p.maxActive >= 3
  {
    hide Legal, After, Supply;
    if p.maxFailures >= 2 && p.maxActive >= 3 {
      SupplySize(p, cs);
      var run := ReachFailures(p, h, cs, p.maxFailures);
      CompleteThenLose(p, h, cs, run);
    } else {
      forall run: seq<Step>, n: nat ensures !ClosesAt(p, h, run, n) {
        if n <= |run| && Legal(p, h, run) && Legal(p, h, run[..n]) && NoReset(run) {
          HeldAlong(p, h, run, n);
        }
      }
    }
  }

  lemma SupplySize(p: Policy, cs: seq<Candidate>)
    requires Supply(p, cs)
    ensures |cs| == p.maxFailures + 2
  {
  }
}
