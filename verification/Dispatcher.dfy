/**
 The dispatcher object (src/runtime/autonomous-dispatcher.ts). Every call to the task source, the
 runtime, the verifier and the state file is answered by a `World`, which may also throw at any of
 them; a throw ends the cycle where it stands, exactly as a crash does.
 */
module Dispatcher {
  import opened Prelude
  import opened DispatchModel
  import opened DispatchProofs
  import opened DispatchPlan

  // ---- Counting steps --------------------------------------------------------------

  datatype Tally = Tally(claimed: nat, started: nat, resumed: nat, completed: nat, reopened: nat, failed: nat)

  const Zero := Tally(0, 0, 0, 0, 0, 0)

  function Bump(t: Tally, step: Step): Tally {
    match step
    case Claim(_, _, _) => t.(claimed := t.claimed + 1)
    case Restart(_, _, _) => t.(started := t.started + 1)
    case Launch(_, _) => t.(started := t.started + 1)
    case LoseBeforeStart(_, _) => t.(failed := t.failed + 1)
    case LoseRunning(_, _) => t.(failed := t.failed + 1)
    case FailRun(_, _, _) => t.(resumed := t.resumed + 1, failed := t.failed + 1)
    case Complete(_, _, _, _) => t.(resumed := t.resumed + 1, completed := t.completed + 1)
    case Reopen(_, _, _, _) => t.(resumed := t.resumed + 1, reopened := t.reopened + 1)
    case Renew(_, _, _) => t.(resumed := t.resumed + 1)
    case _ => t
  }

  /** How many steps of each reported kind a run took. */
  function TallyOf(run: seq<Step>): Tally {
    if run == [] then Zero else Bump(TallyOf(run[..|run| - 1]), run[|run| - 1])
  }

  function Plus(a: Tally, b: Tally): Tally {
    Tally(a.claimed + b.claimed, a.started + b.started, a.resumed + b.resumed,
          a.completed + b.completed, a.reopened + b.reopened, a.failed + b.failed)
  }

  lemma TallyExtend(run: seq<Step>, step: Step, a: Tally, b: Tally)
    requires TallyOf(run) == Plus(a, b)
    ensures TallyOf(run + [step]) == Plus(a, Bump(b, step))
  {
    assert (run + [step])[..|run|] == run;
  }

  class AutonomousDispatcher {
    const policy: Policy
    const requestHash: RequestHash
    const digest: State -> string
    const lossHash: Task -> string
    var stored: Option<Envelope>
    var running: bool
    /** The writes that reached the disk, as steps. */
    ghost var trace: seq<Step>

    function Desk(): DispatchPlan.Desk { DispatchPlan.Desk(policy, requestHash, lossHash) }

    ghost predicate Valid()
      reads this
    {
      && policy.maxFailures >= 1 && 1 <= policy.maxClaims <= policy.maxActive
      && Legal(policy, requestHash, trace)
      && (stored.None? ==> trace == [])
      && (stored.Some? ==> stored.value == Envelope(After(policy, requestHash, trace), digest(After(policy, requestHash, trace))))
    }

    /** The durable state the trace accounts for. */
    ghost function Durable(): State
      reads this
      requires Valid()
    {
      After(policy, requestHash, trace)
    }

    constructor (policy: Policy, requestHash: RequestHash, digest: State -> string, lossHash: Task -> string)
      requires policy.maxFailures >= 1 && 1 <= policy.maxClaims <= policy.maxActive
      ensures Valid() && trace == [] && stored.None? && !running
    {
      this.policy, this.requestHash, this.digest, this.lossHash := policy, requestHash, digest, lossHash;
      stored, running, trace := None, false, [];
    }

    /** `readState`. */
    method ReadState() returns (r: Result<State>)
      requires Valid()
      ensures r.Ok? <==> NoEarlyLoss(trace)
      ensures r.Ok? ==> r.value == Durable()
    {
      ReadableIff(policy, requestHash, digest, trace);
      if stored.None? {
        return Ok(Initial);
      }
      if !Readable(digest, stored.value) {
        return Err("BROKER_STATE_CORRUPT");
      }
      return Ok(stored.value.state);
    }

    /** `writeState`: the file is replaced as a whole or not at all. */
    method Write(s: State, step: Step, outcome: WriteOutcome) returns (ok: bool)
      requires Valid() && s == Durable() && Guard(policy, requestHash, s, step)
      modifies this`stored, this`trace
      ensures Valid()
      ensures trace == if outcome.NotWritten? then old(trace) else old(trace) + [step]
      ensures ok <==> outcome.Written?
      ensures ok ==> trace == old(trace) + [step] && Durable() == Apply(policy, requestHash, s, step)
    {
      hide Guard, Apply;
      if outcome.NotWritten? {
        return false;
      }
      LegalExtend(policy, requestHash, trace, step);
      var next := Apply(policy, requestHash, s, step);
      stored := Some(Envelope(next, digest(next)));
      trace := trace + [step];
      return outcome.Written?;
    }

    /** Since `run` the steps have been written and counted, and `s` is the durable state. */
    ghost predicate At(run: seq<Step>, steps: seq<Step>, tally: Tally, s: State)
      reads this
    {
      Valid() && trace == run + steps && s == Durable() && TallyOf(trace) == Plus(TallyOf(run), tally)
    }

    lemma AtStart()
      requires Valid()
      ensures At(trace, [], Zero, Durable())
    {
      hide Legal, After, TallyOf;
      assert trace + [] == trace;
    }

    lemma FoldedSince(run: seq<Step>, steps: seq<Step>, s: State)
      requires Valid() && trace == run + steps && Legal(policy, requestHash, run) && s == After(policy, requestHash, run)
      ensures Durable() == Fold(policy, requestHash, s, steps)
    {
      hide Legal, After, Fold;
      AfterFolds(policy, requestHash, run, steps);
    }

    lemma StartDistinct()
      requires Valid()
      ensures DistinctTasks(Durable().tasks) && Legal(policy, requestHash, trace) && Durable() == After(policy, requestHash, trace)
    {
      hide Legal, After;
      RunSound(policy, requestHash, trace);
    }

    lemma AtPrefix(run: seq<Step>, steps: seq<Step>, tally: Tally, s: State, whole: seq<Step>)
      requires At(run, steps, tally, s) && steps <= whole
      ensures Valid() && run <= trace <= run + whole && TallyOf(trace).claimed == TallyOf(run).claimed + tally.claimed
    {
      hide Legal, After, TallyOf;
      assert whole == steps + whole[|steps|..];
      assert run + whole == trace + whole[|steps|..];
    }

    lemma TornPrefix(run: seq<Step>, steps: seq<Step>, step: Step, whole: seq<Step>)
      requires trace in {run + steps, run + (steps + [step])} && steps + [step] <= whole
      ensures run <= trace <= run + whole
    {
      var part := if trace == run + steps then steps else steps + [step];
      assert part <= steps + [step] <= whole;
      assert whole == part + whole[|part|..];
      assert run + whole == trace + whole[|part|..];
    }

    lemma AtMeans(run: seq<Step>, steps: seq<Step>, tally: Tally, s: State)
      requires At(run, steps, tally, s)
      ensures Valid() && trace == run + steps && s == Durable() && TallyOf(trace) == Plus(TallyOf(run), tally)
    {
    }

    /** One write of a cycle, counted when it is done. */
    method Take(ghost run: seq<Step>, ghost steps: seq<Step>, s: State, tally: Tally, step: Step, outcome: WriteOutcome)
      returns (ok: bool, next: State, counted: Tally)
      requires At(run, steps, tally, s) && Guard(policy, requestHash, s, step)
      modifies this`stored, this`trace
      ensures Valid() && counted == Bump(tally, step) && next == Apply(policy, requestHash, s, step)
      ensures ok <==> outcome.Written?
      ensures ok ==> At(run, steps + [step], counted, next)
      ensures trace in {run + steps, run + (steps + [step])}
      ensures TallyOf(run).claimed + tally.claimed <= TallyOf(trace).claimed <= TallyOf(run).claimed + counted.claimed
    {
      hide Legal, After, TallyOf, Guard, Apply;
      TallyExtend(trace, step, TallyOf(run), tally);
      assert run + steps + [step] == run + (steps + [step]);
      ok := Write(s, step, outcome);
      next, counted := Apply(policy, requestHash, s, step), Bump(tally, step);
    }

    method SetMode(mode: Mode, outcome: WriteOutcome) returns (r: Result<State>)
      requires Valid()
      modifies this
      ensures Valid() && running == old(running)
      ensures trace == old(trace) || (!old(running) && trace == old(trace) + [Step.SetMode(mode)])
      ensures r.Ok? <==> !old(running) && NoEarlyLoss(old(trace)) && (mode == old(Durable()).mode || outcome.Written?)
      ensures r.Ok? ==> r.value == Durable() && r.value == old(Durable()).(mode := mode)
      ensures !NoEarlyLoss(old(trace)) ==> r.Err? && trace == old(trace) && stored == old(stored)
    {
      if running {
        return Err("DISPATCHER_BUSY");
      }
      var current := ReadState();
      if current.Err? {
        return current;
      }
      var s := current.value;
      if s.mode == mode {
        return Ok(s);
      }
      var ok := Write(s, Step.SetMode(mode), outcome);
      return if ok then Ok(s.(mode := mode)) else Err("write failed");
    }

    method Reset(outcome: WriteOutcome) returns (r: Result<State>)
      requires Valid()
      modifies this
      ensures Valid() && running == old(running)
      ensures trace == old(trace) || (!old(running) && trace == old(trace) + [ResetCircuit])
      ensures r.Ok? <==>
                && !old(running) && NoEarlyLoss(old(trace))
                && (|| (!old(Durable()).circuitOpen && old(Durable()).failures == 0)
                    || (old(Durable()).mode.Paused? && outcome.Written?))
      ensures r.Ok? ==> r.value == Durable() && r.value == old(Durable()).(circuitOpen := false, failures := 0)
      ensures !NoEarlyLoss(old(trace)) ==> r.Err? && trace == old(trace) && stored == old(stored)
    {
      if running {
        return Err("DISPATCHER_BUSY");
      }
      var current := ReadState();
      if current.Err? {
        return current;
      }
      var s := current.value;
      if !s.circuitOpen && s.failures == 0 {
        return Ok(s);
      }
      if !s.mode.Paused? {
        return Err("INVALID_STATE");
      }
      var ok := Write(s, ResetCircuit, outcome);
      return if ok then Ok(s.(circuitOpen := false, failures := 0)) else Err("write failed");
    }

    /** What recovering one claimed task leads to; none when an external call throws or answers out of contract. */
    method RecoverOne(w: World, at: nat, s: State, task: Task) returns (step: Option<Step>)
      requires Has(s, task.id, Claimed) && Find(s.tasks, task.id) == Some(task) && !s.mode.Paused?
      ensures step == Recovered(Desk(), w, at, task)
      ensures step.Some? ==> Guard(policy, requestHash, s, step.value) && Subject(step.value) == Some(task.id) && !step.value.Claim?
      ensures step.None? <==>
                || w.load(at).None? || w.load(at).value.None? || w.renewed(at).None?
                || (var c := w.load(at).value.value;
                    || !ValidCandidate(policy, c) || c.candidateId != task.id.candidateId || c.revision != task.id.revision
                    || c.repositoryId != task.repositoryId || c.request.requestId != task.requestId
                    || requestHash(c.request) != task.requestHash)
                || (w.renewed(at) == Some(true) && (w.start(at).None? || w.start(at).value.requestId != task.requestId))
      ensures step.Some? && w.renewed(at) == Some(false) ==> step.value == LoseBeforeStart(task.id, lossHash(task))
      ensures step.Some? && w.renewed(at) == Some(true) ==>
                step.value == Restart(w.load(at).value.value, w.start(at).value, w.now(at) + policy.leaseSeconds)
    {
      var supplied := w.load(at);
      if supplied.None? || supplied.value.None? {
        return None;
      }
      var candidate := supplied.value.value;
      if !ValidCandidate(policy, candidate) || !SameWork(requestHash, candidate, task) {
        return None;
      }
      var expires := w.now(at) + policy.leaseSeconds;
      var renewed := w.renewed(at);
      if renewed.None? {
        return None;
      }
      if !renewed.value {
        return Some(LoseBeforeStart(task.id, lossHash(task)));
      }
      var result := w.start(at);
      if result.None? || result.value.requestId != task.requestId {
        return None;
      }
      return Some(Restart(candidate, result.value, expires));
    }

    /** The first loop of a cycle: claimed tasks are reloaded, re-leased and started with the recorded request. */
    method RecoverClaimed(w: World, s0: State) returns (ok: bool, s: State, tally: Tally)
      requires Valid() && s0 == Durable() && !s0.mode.Paused?
      modifies this`stored, this`trace
      ensures Valid() && old(trace) <= trace <= old(trace) + RecoverSteps(Desk(), w, s0.tasks, |s0.tasks|) && tally.claimed == 0
      ensures TallyOf(trace).claimed == TallyOf(old(trace)).claimed
      ensures ok <==> RecoverOk(Desk(), w, s0.tasks, |s0.tasks|)
      ensures ok ==> trace == old(trace) + RecoverSteps(Desk(), w, s0.tasks, |s0.tasks|)
      ensures ok ==> s == Durable() && s.mode == s0.mode && TallyOf(trace) == Plus(TallyOf(old(trace)), tally)
      ensures ok ==> AllSettled(Desk(), w, s0.tasks, |s0.tasks|, 0, s)
      ensures ok ==> AllActedOn(trace, |old(trace)|, s0.tasks, |s0.tasks|, Claimed)
    {
      hide Legal, After, TallyOf, Guard, Apply, Recovered, Resumed, AllSettled, AllActedOn, Subject, At, Valid;
      hide RecoverSteps, Bump;
      s, tally := s0, Zero;
      var tasks := s0.tasks;
      ghost var run, whole := trace, RecoverSteps(Desk(), w, tasks, |tasks|);
      AtStart();
      StartDistinct();
      StartSettled(Desk(), w, s);
      NoStepsYet(Desk(), w, tasks);
      NothingActedOn(trace, tasks, Claimed);
      for i := 0 to |tasks|
        invariant At(run, RecoverSteps(Desk(), w, tasks, i), tally, s) && s.mode == s0.mode && tally.claimed == 0
        invariant RecoverOk(Desk(), w, tasks, i) && AllSettled(Desk(), w, tasks, i, 0, s)
        invariant AllActedOn(trace, |run|, tasks, i, Claimed)
      {
        var task := tasks[i];
        ghost var steps := RecoverSteps(Desk(), w, tasks, i);
        PassedOver(Desk(), w, tasks, i, s);
        RecoverStepsNext(Desk(), w, tasks, i);
        if task.status.Claimed? {
          StillAsClaimed(Desk(), w, tasks, i, s);
          AtPrefix(run, steps, tally, s, whole);
          AtMeans(run, steps, tally, s);
          var step := RecoverOne(w, i, s, task);
          if step.None? {
            return false, s, tally;
          }
          RecoverSettles(Desk(), w, tasks, i, s, step.value);
          KeepsMode(policy, requestHash, s, step.value, tally);
          ActOn(trace, |run|, tasks, i, Claimed, step.value);
          var written, next, counted := Take(run, steps, s, tally, step.value, w.write(i));
          TornPrefix(run, steps, step.value, whole);
          if !written {
            return false, s, counted;
          }
          assert run + (steps + [step.value]) == run + steps + [step.value];
          s, tally := next, counted;
          AtMeans(run, steps + [step.value], tally, s);
        } else {
          assert steps + [] == steps;
          NoneToActOn(trace, |run|, tasks, i, Claimed);
        }
      }
      AtPrefix(run, whole, tally, s, whole);
      AtMeans(run, whole, tally, s);
      return true, s, tally;
    }

    /** What resuming one running task leads to; none when an external call throws or answers out of contract. */
    method ResumeOne(w: World, at: nat, s: State, task: Task) returns (step: Option<Step>)
      requires Has(s, task.id, Running) && Find(s.tasks, task.id) == Some(task) && !s.mode.Paused?
      ensures step == Resumed(Desk(), w, at, task)
      ensures step.Some? ==> Guard(policy, requestHash, s, step.value) && Subject(step.value) == Some(task.id) && !step.value.Claim?
      ensures step.None? <==>
                || task.runId.None? || w.renewed(at).None?
                || (w.renewed(at) == Some(true) &&
                    (|| w.resume(at).None? || Some(w.resume(at).value.runId) != task.runId || w.resume(at).value.requestId != task.requestId
                     || (var result := w.resume(at).value;
                         || ((result.state.RunFailed? || result.state.RunAborted?) && (result.failureEvidence.None? || !w.acknowledged(at)))
                         || (result.state.Finalized? &&
                             (!result.merged || result.mergeCommit.None? || w.verify(at, result.mergeCommit.value).None? || !w.acknowledged(at))))))
      ensures step.Some? && w.renewed(at) == Some(false) ==> step.value == LoseRunning(task.id, lossHash(task))
      ensures step.Some? && w.renewed(at) == Some(true) ==>
                var result, expires := w.resume(at).value, w.now(at) + policy.leaseSeconds;
                match result.state
                case RunFailed => step.value == FailRun(task.id, result, expires)
                case RunAborted => step.value == FailRun(task.id, result, expires)
                case Underway => step.value == Renew(task.id, result, expires)
                case Finalized =>
                  var commit := result.mergeCommit.value;
                  var verdict := w.verify(at, commit).value;
                  match verdict
                  case Pass(_) => step.value == Complete(task.id, result, Verified(commit, verdict), expires)
                  case Regression(_, _) => step.value == Step.Reopen(task.id, result, Verified(commit, verdict), expires)
    {
      if task.runId.None? {
        return None;
      }
      var expires := w.now(at) + policy.leaseSeconds;
      var renewed := w.renewed(at);
      if renewed.None? {
        return None;
      }
      if !renewed.value {
        return Some(LoseRunning(task.id, lossHash(task)));
      }
      var resumed := w.resume(at);
      if resumed.None? || resumed.value.runId != task.runId.value || resumed.value.requestId != task.requestId {
        return None;
      }
      var result := resumed.value;
      match result.state {
        case RunFailed =>
          return if result.failureEvidence.Some? && w.acknowledged(at) then Some(FailRun(task.id, result, expires)) else None;
        case RunAborted =>
          return if result.failureEvidence.Some? && w.acknowledged(at) then Some(FailRun(task.id, result, expires)) else None;
        case Underway =>
          return Some(Renew(task.id, result, expires));
        case Finalized =>
          if !result.merged || result.mergeCommit.None? {
            return None;
          }
          var commit := result.mergeCommit.value;
          var verdict := w.verify(at, commit);
          if verdict.None? || !w.acknowledged(at) {
            return None;
          }
          var verified := Verified(commit, verdict.value);
          return Some(if verdict.value.Pass? then Complete(task.id, result, verified, expires)
                      else Step.Reopen(task.id, result, verified, expires));
      }
    }

    /** The second loop of a cycle: tasks that were running when the cycle began are re-leased and resumed. */
    method ResumeRunning(w: World, s0: State, tasks: seq<Task>) returns (ok: bool, s: State, tally: Tally)
      requires Valid() && s0 == Durable() && !s0.mode.Paused?
      requires DistinctTasks(tasks) && AllSettled(Desk(), w, tasks, |tasks|, 0, s0)
      modifies this`stored, this`trace
      ensures Valid() && old(trace) <= trace <= old(trace) + ResumeSteps(Desk(), w, tasks, |tasks|) && tally.claimed == 0
      ensures TallyOf(trace).claimed == TallyOf(old(trace)).claimed
      ensures ok <==> ResumeOk(Desk(), w, tasks, |tasks|)
      ensures ok ==> trace == old(trace) + ResumeSteps(Desk(), w, tasks, |tasks|)
      ensures ok ==> s == Durable() && s.mode == s0.mode && TallyOf(trace) == Plus(TallyOf(old(trace)), tally)
      ensures ok ==> AllSettled(Desk(), w, tasks, |tasks|, |tasks|, s)
      ensures ok ==> AllActedOn(trace, |old(trace)|, tasks, |tasks|, Running)
    {
      hide Legal, After, TallyOf, Guard, Apply, Recovered, Resumed, AllSettled, AllActedOn, Subject, DistinctTasks, At, Valid;
      hide ResumeSteps, Bump;
      s, tally := s0, Zero;
      ghost var run, whole := trace, ResumeSteps(Desk(), w, tasks, |tasks|);
      AtStart();
      NoStepsYet(Desk(), w, tasks);
      NothingActedOn(trace, tasks, Running);
      for i := 0 to |tasks|
        invariant At(run, ResumeSteps(Desk(), w, tasks, i), tally, s) && s.mode == s0.mode && tally.claimed == 0
        invariant ResumeOk(Desk(), w, tasks, i) && AllSettled(Desk(), w, tasks, |tasks|, i, s)
        invariant AllActedOn(trace, |run|, tasks, i, Running)
      {
        var task := tasks[i];
        ghost var steps := ResumeSteps(Desk(), w, tasks, i);
        PassedOver(Desk(), w, tasks, i, s);
        ResumeStepsNext(Desk(), w, tasks, i);
        if task.status.Running? {
          StillAsRunning(Desk(), w, tasks, i, s);
          AtPrefix(run, steps, tally, s, whole);
          AtMeans(run, steps, tally, s);
          var step := ResumeOne(w, |tasks| + i, s, task);
          if step.None? {
            return false, s, tally;
          }
          ResumeSettles(Desk(), w, tasks, i, s, step.value);
          KeepsMode(policy, requestHash, s, step.value, tally);
          ActOn(trace, |run|, tasks, i, Running, step.value);
          var written, next, counted := Take(run, steps, s, tally, step.value, w.write(|tasks| + i));
          TornPrefix(run, steps, step.value, whole);
          if !written {
            return false, s, counted;
          }
          assert run + (steps + [step.value]) == run + steps + [step.value];
          s, tally := next, counted;
          AtMeans(run, steps + [step.value], tally, s);
        } else {
          assert steps + [] == steps;
          NoneToActOn(trace, |run|, tasks, i, Running);
        }
      }
      AtPrefix(run, whole, tally, s, whole);
      AtMeans(run, whole, tally, s);
      return true, s, tally;
    }

    /** Launches a task just claimed; false when the runtime throws or accepts another request. */
    method LaunchOne(w: World, at: nat, s: State, c: Candidate) returns (step: Option<Step>)
      requires Find(s.tasks, IdOf(c)).Some? && SameWork(requestHash, c, Find(s.tasks, IdOf(c)).value)
      requires Has(s, IdOf(c), Claimed) && s.mode.Active? && !s.circuitOpen
      ensures step.Some? ==> Guard(policy, requestHash, s, step.value)
      ensures step == if w.start(at).Some? && w.start(at).value.requestId == c.request.requestId
                      then Some(Launch(c, w.start(at).value)) else None
    {
      var result := w.start(at);
      if result.None? || result.value.requestId != c.request.requestId {
        return None;
      }
      return Some(Launch(c, result.value));
    }

    /** A candidate its source has let the dispatcher claim is stored as claimed, launched, and stored as running. */
    method ClaimAndLaunch(w: World, at: nat, s0: State, c: Candidate) returns (ok: bool, s: State, tally: Tally)
      requires Valid() && s0 == Durable() && s0.mode.Active? && !s0.circuitOpen && ActiveCount(s0.tasks) < policy.maxActive
      requires ValidCandidate(policy, c) && Find(s0.tasks, IdOf(c)).None?
      modifies this`stored, this`trace
      ensures Valid() && old(trace) <= trace <= old(trace) + Admitting(Desk(), w, at, c) && tally.claimed <= 1
      ensures TallyOf(trace).claimed <= TallyOf(old(trace)).claimed + 1
      ensures ok <==>
                && w.write(at).Written? && w.start(at).Some?
                && w.start(at).value.requestId == c.request.requestId && w.write(at + 1).Written?
      ensures ok ==>
                trace == old(trace) + [Claim(c, w.leaseId(at), w.now(at) + policy.leaseSeconds), Launch(c, w.start(at).value)]
      ensures ok ==> s == Durable() && s.mode.Active? && !s.circuitOpen && TallyOf(trace) == Plus(TallyOf(old(trace)), tally)
      ensures ok ==> ActiveCount(s.tasks) == ActiveCount(s0.tasks) + tally.claimed
      ensures ok ==> Find(s.tasks, IdOf(c)).Some? && KeepsFound(s0.tasks, s.tasks)
    {
      hide Legal, After, TallyOf, Apply, SameWork, ActiveCount, Guard, KeepsFound, ValidCandidate, Find, At, Valid, Bump;
      s, tally := s0, Zero;
      ghost var run, whole := trace, Admitting(Desk(), w, at, c);
      AtStart();
      FoundAgain(s0.tasks);
      var step := Claim(c, w.leaseId(at), w.now(at) + policy.leaseSeconds);
      ClaimAllowed(policy, requestHash, s, step);
      ClaimEffect(policy, requestHash, s, step);
      FoundAfter(policy, requestHash, s0, s, step, IdOf(c));
      CountsClaim(tally, step);
      ok, s, tally := Take(run, [], s, tally, step, w.write(at));
      assert [] + [step] == [step];
      TornPrefix(run, [], step, whole);
      if !ok {
        return;
      }
      AtMeans(run, [step], tally, s);
      var launch := LaunchOne(w, at, s, c);
      if launch.None? {
        return false, s, tally;
      }
      LaunchEffect(policy, requestHash, trace, s, launch.value);
      FoundAfter(policy, requestHash, s0, s, launch.value, IdOf(c));
      CountsLaunch(tally, launch.value);
      LaunchFound(policy, requestHash, s, launch.value);
      ok, s, tally := Take(run, [step], s, tally, launch.value, w.write(at + 1));
      assert [step] + [launch.value] == whole;
      TornPrefix(run, [step], launch.value, whole);
      if ok { AtMeans(run, whole, tally, s); }
    }

    /** Claims and launches one listed candidate, unless its identity is stored or its source declines. */
    method ClaimOne(w: World, at: nat, s0: State, c: Candidate) returns (ok: bool, s: State, tally: Tally)
      requires Valid() && s0 == Durable() && s0.mode.Active? && !s0.circuitOpen && ActiveCount(s0.tasks) < policy.maxActive
      modifies this`stored, this`trace
      ensures Valid() && old(trace) <= trace <= old(trace) + AdmitOne(Desk(), w, at, s0, c) && tally.claimed <= 1
      ensures TallyOf(trace).claimed <= TallyOf(old(trace)).claimed + 1
      ensures ok <==>
                && ValidCandidate(policy, c)
                && (|| Find(s0.tasks, IdOf(c)).Some? || w.claim(at) == Some(false)
                    || (&& w.claim(at) == Some(true) && w.write(at).Written? && w.start(at).Some?
                        && w.start(at).value.requestId == c.request.requestId && w.write(at + 1).Written?))
      ensures ok ==>
                trace == old(trace) + if Find(s0.tasks, IdOf(c)).Some? || w.claim(at) == Some(false) then []
                                      else [Claim(c, w.leaseId(at), w.now(at) + policy.leaseSeconds), Launch(c, w.start(at).value)]
      ensures ok ==> s == Durable() && s.mode.Active? && !s.circuitOpen && TallyOf(trace) == Plus(TallyOf(old(trace)), tally)
      ensures ok ==> ActiveCount(s.tasks) == ActiveCount(s0.tasks) + tally.claimed
      ensures ok ==> Find(s.tasks, IdOf(c)).Some? || w.claim(at) == Some(false)
      ensures ok ==> KeepsFound(s0.tasks, s.tasks)
    {
      hide Legal, After, TallyOf, ActiveCount, KeepsFound, ValidCandidate, Find;
      s, tally := s0, Zero;
      FoundAgain(s0.tasks);
      if !ValidCandidate(policy, c) {
        return false, s, tally;
      }
      if Find(s.tasks, IdOf(c)).Some? {
        return true, s, tally;
      }
      var claimed := w.claim(at);
      if claimed.None? || !claimed.value {
        return claimed.Some?, s, tally;
      }
      ok, s, tally := ClaimAndLaunch(w, at, s, c);
    }

    method ClaimAll(w: World, base: nat, s0: State, candidates: seq<Candidate>) returns (ok: bool, s: State, tally: Tally)
      requires Valid() && s0 == Durable() && s0.mode.Active? && !s0.circuitOpen
      requires ActiveCount(s0.tasks) + |candidates| <= policy.maxActive
      modifies this`stored, this`trace
      ensures Valid() && old(trace) <= trace <= old(trace) + AdmitSteps(Desk(), w, base, s0, candidates, |candidates|)
      ensures TallyOf(trace).claimed <= TallyOf(old(trace)).claimed + |candidates|
      ensures ok <==> AdmitsAll(Desk(), w, base, s0, candidates, |candidates|)
      ensures ok ==> trace == old(trace) + AdmitSteps(Desk(), w, base, s0, candidates, |candidates|)
      ensures ok ==> s == Durable() && s.mode.Active? && !s.circuitOpen && TallyOf(trace) == Plus(TallyOf(old(trace)), tally)
      ensures ok ==> s == Fold(policy, requestHash, s0, AdmitSteps(Desk(), w, base, s0, candidates, |candidates|))
      ensures ok ==> Decided(w, base, s, candidates, |candidates|) && KeepsFound(s0.tasks, s.tasks)
    {
      hide Legal, After, TallyOf, Guard, Apply, Bump, AdmitOne, Fold, KeepsFound, Decided, AdmitsOne, ValidCandidate, Find;
      hide ActiveCount, AdmitSteps, AdmitsAll, Valid;
      s, tally := s0, Zero;
      ghost var run, whole := trace, AdmitSteps(Desk(), w, base, s0, candidates, |candidates|);
      FoundAgain(s0.tasks);
      NoneDecided(w, base, s, candidates);
      AtStart();
      AtMeans(trace, [], Zero, s0);
      NoneAdmitted(Desk(), w, base, s0, candidates);
      for i := 0 to |candidates|
        invariant Valid() && trace == run + AdmitSteps(Desk(), w, base, s0, candidates, i)
        invariant s == Durable() && s.mode.Active? && !s.circuitOpen
        invariant TallyOf(trace) == Plus(TallyOf(run), tally) && tally.claimed <= i
        invariant ActiveCount(s.tasks) == ActiveCount(s0.tasks) + tally.claimed
        invariant AdmitsAll(Desk(), w, base, s0, candidates, i)
        invariant Decided(w, base, s, candidates, i) && KeepsFound(s0.tasks, s.tasks)
      {
        ghost var steps := AdmitSteps(Desk(), w, base, s0, candidates, i);
        FoldedSince(run, steps, s0);
        AdmitStepsNext(Desk(), w, base, s0, candidates, i);
        AdmitOneIs(Desk(), w, base + 2 * i, s, candidates[i]);
        AdmitsNext(Desk(), w, base, s0, candidates, i);
        var more, next, one := ClaimOne(w, base + 2 * i, s, candidates[i]);
        WithinWhole(run, steps, AdmitOne(Desk(), w, base + 2 * i, s, candidates[i]), whole, trace);
        PlusAssociates(TallyOf(run), tally, one);
        if !more {
          return false, s, tally;
        }
        FoundThrough(s0.tasks, s.tasks, next.tasks);
        DecidedNext(w, base, s, next, candidates, i);
        assert run + steps + AdmitOne(Desk(), w, base + 2 * i, s, candidates[i]) ==
               run + (steps + AdmitOne(Desk(), w, base + 2 * i, s, candidates[i]));
        tally := Plus(tally, one);
        s := next;
      }
      FoldedSince(run, whole, s0);
      return true, s, tally;
    }

    /** The admission phase: within capacity, list candidates, claim and launch them, and advance the cursor. */
    method ClaimNew(w: World, base: nat, s0: State) returns (ok: bool, s: State, tally: Tally)
      requires Valid() && s0 == Durable() && !s0.mode.Paused?
      modifies this`stored, this`trace
      ensures Valid() && old(trace) <= trace <= old(trace) + AdmissionPlan(Desk(), w, base, s0)
      ensures TallyOf(trace).claimed <= TallyOf(old(trace)).claimed + policy.maxClaims
      ensures ok <==> AdmissionOk(Desk(), w, base, s0)
      ensures ok ==> trace == old(trace) + AdmissionPlan(Desk(), w, base, s0)
      ensures ok ==> s == Durable() && TallyOf(trace) == Plus(TallyOf(old(trace)), tally) && KeepsFound(s0.tasks, s.tasks)
      ensures ok && Capacity(policy, s0) == 0 ==> trace == old(trace)
      ensures ok && Capacity(policy, s0) > 0 ==>
                var listed := w.list(Capacity(policy, s0));
                && listed.Some? && |listed.value.candidates| <= Capacity(policy, s0) && s.cursor == listed.value.nextCursor
                && Decided(w, base, s, listed.value.candidates, |listed.value.candidates|)
    {
      hide Legal, After, TallyOf, Guard, Apply, Decided, AdmitSteps, AdmitsAll, Fold, KeepsFound;
      s, tally := s0, Zero;
      FoundAgain(s0.tasks);
      RunSound(policy, requestHash, trace);
      var active := ActiveCount(s.tasks);
      var capacity := Capacity(policy, s);
      if capacity == 0 {
        return true, s, tally;
      }
      var listed := w.list(capacity);
      if listed.None? || |listed.value.candidates| > capacity {
        return false, s, tally;
      }
      var candidates := listed.value.candidates;
      ok, s, tally := ClaimAll(w, base, s, candidates);
      if !ok {
        return;
      }
      if s.cursor != listed.value.nextCursor {
        var step := Advance(listed.value.nextCursor);
        AdvanceAllowed(policy, requestHash, s, step);
        DecidedStays(w, base, s, Apply(policy, requestHash, s, step), candidates);
        TallyExtend(trace, step, TallyOf(old(trace)), tally);
        var written := Write(s, step, w.write(base + 2 * |candidates|));
        if !written {
          return false, s, tally;
        }
        s := Apply(policy, requestHash, s, step);
      }
      return true, s, tally;
    }

    /** The three phases of a cycle that has read an unpaused state. */
    method RunPhases(w: World, s0: State) returns (ok: bool, tally: Tally)
      requires Valid() && s0 == Durable() && !s0.mode.Paused?
      modifies this`stored, this`trace
      ensures Valid() && old(trace) <= trace <= old(trace) + CyclePlan(Desk(), w, s0)
      ensures TallyOf(trace).claimed <= TallyOf(old(trace)).claimed + policy.maxClaims
      ensures ok <==> CycleOk(Desk(), w, s0)
      ensures ok ==> trace == old(trace) + CyclePlan(Desk(), w, s0) && TallyOf(trace) == Plus(TallyOf(old(trace)), tally)
      ensures ok ==> AllSettled(Desk(), w, s0.tasks, |s0.tasks|, |s0.tasks|, Durable())
      ensures ok ==> forall t | t in s0.tasks && IsActive(t) :: ActedOn(trace, |old(trace)|, t.id)
    {
      hide Legal, After, TallyOf, Guard, Apply, ActedOn, Bump, AllSettled, KeepsFound, RecoverOk, ResumeOk, AdmissionOk;
      hide RecoverSteps, ResumeSteps, AdmissionPlan, Fold, AllActedOn, Valid, IsActive, Decided, Capacity;
      var tasks := s0.tasks;
      ghost var run, plan := trace, CyclePlan(Desk(), w, s0);
      ghost var recovers, resumes := RecoverSteps(Desk(), w, tasks, |tasks|), ResumeSteps(Desk(), w, tasks, |tasks|);
      StartDistinct();
      var next: State;
      ok, next, tally := RecoverClaimed(w, s0);
      assert run + [] == run && [] + recovers == recovers;
      WithinWhole(run, [], recovers, plan, trace);
      if !ok { return; }
      ghost var afterRecovery := trace;
      var more: Tally;
      ok, next, more := ResumeRunning(w, next, tasks);
      PlusAssociates(TallyOf(run), tally, more);
      tally := Plus(tally, more);
      WithinWhole(run, recovers, resumes, plan, trace);
      if !ok { return; }
      ghost var afterResume, settled := trace, next;
      assert run + recovers + resumes == run + (recovers + resumes);
      FoldedSince(run, recovers + resumes, s0);
      ok, next, more := ClaimNew(w, 2 * |tasks|, next);
      PlusAssociates(TallyOf(run), tally, more);
      tally := Plus(tally, more);
      WithinWhole(run, recovers + resumes, AdmissionPlan(Desk(), w, 2 * |tasks|, settled), plan, trace);
      if !ok { return; }
      assert run + (recovers + resumes) + AdmissionPlan(Desk(), w, 2 * |tasks|, settled) == run + plan;
      ActedOnStays(afterRecovery, trace, |run|, |run|, tasks, |tasks|, Claimed);
      ActedOnStays(afterResume, trace, |afterRecovery|, |run|, tasks, |tasks|, Running);
      SettledStays(Desk(), w, tasks, settled, next);
      ActiveActedOn(trace, |run|, tasks);
    }

    /**
     `runCycle`: recover, resume, admit. Wherever the cycle ends, the durable state is the one its completed
     writes account for, and the report counts exactly the steps taken.
     */
    method RunCycle(w: World) returns (r: Result<Tally>)
      requires Valid()
      modifies this
      ensures Valid() && running == old(running) && old(trace) <= trace
      ensures old(running) || !NoEarlyLoss(old(trace)) || old(Durable()).mode.Paused? ==> trace == old(trace) && stored == old(stored)
      ensures old(running) || !NoEarlyLoss(old(trace)) ==> r.Err?
      ensures r.Ok? ==> TallyOf(trace) == Plus(TallyOf(old(trace)), r.value)
      ensures r.Ok? && !old(Durable()).mode.Paused? ==>
                forall t | t in old(Durable()).tasks && IsActive(t) :: ActedOn(trace, |old(trace)|, t.id)
      ensures TallyOf(trace).claimed <= TallyOf(old(trace)).claimed + policy.maxClaims
      ensures trace <= old(trace) + CyclePlan(Desk(), w, old(Durable()))
      ensures r.Ok? <==>
                && !old(running) && NoEarlyLoss(old(trace))
                && (old(Durable()).mode.Paused? || CycleOk(Desk(), w, old(Durable())))
      ensures r.Ok? && !old(Durable()).mode.Paused? ==>
                && trace == old(trace) + CyclePlan(Desk(), w, old(Durable()))
                && var tasks := old(Durable()).tasks; AllSettled(Desk(), w, tasks, |tasks|, |tasks|, Durable())
    {
      hide Legal, After, TallyOf, Guard, Apply, ActedOn, Bump, AllSettled, CycleOk, CyclePlan, IsActive;
      if running {
        return Err("DISPATCHER_BUSY");
      }
      running := true;
      var current := ReadState();
      if current.Err? {
        running := false;
        return Err(current.code);
      }
      var s := current.value;
      if s.mode.Paused? {
        running := false;
        return Ok(Zero);
      }
      var ok, tally := RunPhases(w, s);
      running := false;
      return if ok then Ok(tally) else Err("cycle aborted");
    }
  }

  /** Each of the first `n` candidates is stored or was declined by its source. */
  ghost predicate Decided(w: World, base: nat, s: State, candidates: seq<Candidate>, n: nat) {
    forall i | 0 <= i < n && i < |candidates| :: Find(s.tasks, IdOf(candidates[i])).Some? || w.claim(base + 2 * i) == Some(false)
  }

  lemma DecidedStays(w: World, base: nat, s: State, next: State, candidates: seq<Candidate>)
    requires Decided(w, base, s, candidates, |candidates|) && next.tasks == s.tasks
    ensures Decided(w, base, next, candidates, |candidates|)
  {
  }

  lemma CountsClaim(tally: Tally, step: Step)
    requires step.Claim?
    ensures Bump(tally, step).claimed == tally.claimed + 1
  {
  }

  lemma LaunchFound(p: Policy, h: RequestHash, s: State, step: Step)
    requires Guard(p, h, s, step) && step.Launch?
    ensures Find(Apply(p, h, s, step).tasks, IdOf(step.candidate)).Some?
  {
    SubjectActive(p, h, s, step);
    StepFindSubject(p, h, s, step, Find(s.tasks, IdOf(step.candidate)).value);
    hide Guard, Apply, Find;
  }

  /** What was written after the part stays within the whole. */
  lemma WithinWhole(run: seq<Step>, part: seq<Step>, more: seq<Step>, whole: seq<Step>, trace: seq<Step>)
    requires run + part <= trace <= run + part + more && part + more <= whole
    ensures run <= trace <= run + whole
  {
    assert whole == part + more + whole[|part + more|..];
    assert run + whole == run + part + more + whole[|part + more|..];
  }

  lemma CountsLaunch(tally: Tally, step: Step)
    requires step.Launch?
    ensures Bump(tally, step).claimed == tally.claimed
  {
  }

  lemma NoneDecided(w: World, base: nat, s: State, candidates: seq<Candidate>)
    ensures Decided(w, base, s, candidates, 0)
  {
  }

  lemma DecidedNext(w: World, base: nat, s: State, next: State, candidates: seq<Candidate>, i: nat)
    requires Decided(w, base, s, candidates, i) && i < |candidates| && KeepsFound(s.tasks, next.tasks)
    requires Find(next.tasks, IdOf(candidates[i])).Some? || w.claim(base + 2 * i) == Some(false)
    ensures Decided(w, base, next, candidates, i + 1)
  {
  }

  // ---- Stored tasks that stay ------------------------------------------------------------

  /** Whatever is stored in `a` is stored unchanged in `b`. */
  ghost predicate KeepsFound(a: seq<Task>, b: seq<Task>) {
    forall id | Find(a, id).Some? :: Find(b, id) == Find(a, id)
  }

  lemma FoundAgain(a: seq<Task>)
    ensures KeepsFound(a, a)
  {
  }

  lemma FoundThrough(a: seq<Task>, b: seq<Task>, c: seq<Task>)
    requires KeepsFound(a, b) && KeepsFound(b, c)
    ensures KeepsFound(a, c)
  {
  }

  /** A step on an identity that was not stored changes nothing that was. */
  lemma FoundAfter(p: Policy, h: RequestHash, s0: State, s: State, step: Step, id: Identity)
    requires KeepsFound(s0.tasks, s.tasks) && Find(s0.tasks, id).None? && Guard(p, h, s, step)
    requires Subject(step) in {None, Some(id)}
    ensures KeepsFound(s0.tasks, Apply(p, h, s, step).tasks)
  {
    hide Guard, Apply, Find;
    forall other | Find(s0.tasks, other).Some?
      ensures Find(Apply(p, h, s, step).tasks, other) == Find(s0.tasks, other)
    {
      StepFindOther(p, h, s, step, other);
    }
  }

  lemma SettledStays(d: DispatchPlan.Desk, w: World, tasks: seq<Task>, s: State, next: State)
    requires AllSettled(d, w, tasks, |tasks|, |tasks|, s) && KeepsFound(s.tasks, next.tasks)
    ensures AllSettled(d, w, tasks, |tasks|, |tasks|, next)
  {
    hide Recovered, Resumed, Rewritten, Find;
  }

  lemma StillAsClaimed(d: DispatchPlan.Desk, w: World, tasks: seq<Task>, i: nat, s: State)
    requires i < |tasks| && AllSettled(d, w, tasks, i, 0, s) && tasks[i].status.Claimed?
    ensures Find(s.tasks, tasks[i].id) == Some(tasks[i]) && Has(s, tasks[i].id, Claimed)
  {
    hide Recovered, Resumed, Rewritten, Find;
  }

  lemma StillAsRunning(d: DispatchPlan.Desk, w: World, tasks: seq<Task>, i: nat, s: State)
    requires i < |tasks| && AllSettled(d, w, tasks, |tasks|, i, s) && tasks[i].status.Running?
    ensures Find(s.tasks, tasks[i].id) == Some(tasks[i]) && Has(s, tasks[i].id, Running)
  {
    hide Recovered, Resumed, Rewritten, Find;
  }

  lemma KeepsMode(p: Policy, h: RequestHash, s: State, step: Step, tally: Tally)
    requires Subject(step).Some?
    ensures Apply(p, h, s, step).mode == s.mode && Bump(tally, step).claimed == tally.claimed
  {
    hide NextTasks;
  }

  /** The steps of one candidate, when its answers let it be admitted. */
  lemma AdmitOneIs(d: DispatchPlan.Desk, w: World, at: nat, s: State, c: Candidate)
    ensures AdmitsOne(d, w, at, s, c) <==>
              && ValidCandidate(d.policy, c)
              && (|| Find(s.tasks, IdOf(c)).Some? || w.claim(at) == Some(false)
                  || (&& w.claim(at) == Some(true) && w.write(at).Written? && w.start(at).Some?
                      && w.start(at).value.requestId == c.request.requestId && w.write(at + 1).Written?))
    ensures AdmitsOne(d, w, at, s, c) ==>
              AdmitOne(d, w, at, s, c) ==
              if Find(s.tasks, IdOf(c)).Some? || w.claim(at) == Some(false) then []
              else [Claim(c, w.leaseId(at), w.now(at) + d.policy.leaseSeconds), Launch(c, w.start(at).value)]
  {
    hide ValidCandidate, Find;
  }

  lemma ClaimAllowed(p: Policy, h: RequestHash, s: State, step: Step)
    requires step.Claim? && s.mode.Active? && !s.circuitOpen && ValidCandidate(p, step.candidate)
    requires Find(s.tasks, IdOf(step.candidate)).None? && ActiveCount(s.tasks) < p.maxActive
    ensures Guard(p, h, s, step)
  {
    hide ValidCandidate, Find, ActiveCount;
  }

  lemma PlusAssociates(a: Tally, b: Tally, c: Tally)
    ensures Plus(Plus(a, b), c) == Plus(a, Plus(b, c))
  {
  }

  /** Some step from position `from` on rewrote the task called `id`. */
  ghost predicate ActedOn(run: seq<Step>, from: nat, id: Identity) {
    exists k | from <= k < |run| :: Subject(run[k]) == Some(id)
  }

  /** Every task among the first `n` that had this status was acted on. */
  ghost predicate AllActedOn(run: seq<Step>, from: nat, tasks: seq<Task>, n: nat, status: Status) {
    forall j | 0 <= j < n && j < |tasks| && tasks[j].status == status :: ActedOn(run, from, tasks[j].id)
  }

  lemma ActedOnStays(run: seq<Step>, longer: seq<Step>, from: nat, start: nat, tasks: seq<Task>, n: nat, status: Status)
    requires run <= longer && start <= from && AllActedOn(run, from, tasks, n, status)
    ensures AllActedOn(longer, start, tasks, n, status)
  {
    forall j | 0 <= j < n && j < |tasks| && tasks[j].status == status
      ensures ActedOn(longer, start, tasks[j].id)
    {
      var k :| from <= k < |run| && Subject(run[k]) == Some(tasks[j].id);
      assert longer[k] == run[k];
    }
  }

  lemma ActOn(run: seq<Step>, from: nat, tasks: seq<Task>, n: nat, status: Status, step: Step)
    requires AllActedOn(run, from, tasks, n, status) && n < |tasks| && from <= |run| && Subject(step) == Some(tasks[n].id)
    ensures AllActedOn(run + [step], from, tasks, n + 1, status)
  {
    ActedOnStays(run, run + [step], from, from, tasks, n, status);
    assert (run + [step])[|run|] == step;
  }

  lemma NothingActedOn(run: seq<Step>, tasks: seq<Task>, status: Status)
    ensures AllActedOn(run, |run|, tasks, 0, status)
  {
  }

  lemma NoneToActOn(run: seq<Step>, from: nat, tasks: seq<Task>, n: nat, status: Status)
    requires AllActedOn(run, from, tasks, n, status) && n < |tasks| && tasks[n].status != status
    ensures AllActedOn(run, from, tasks, n + 1, status)
  {
    hide ActedOn;
  }

  lemma ActiveActedOn(run: seq<Step>, from: nat, tasks: seq<Task>)
    requires AllActedOn(run, from, tasks, |tasks|, Claimed) && AllActedOn(run, from, tasks, |tasks|, Running)
    ensures forall t | t in tasks && IsActive(t) :: ActedOn(run, from, t.id)
  {
    hide ActedOn;
  }

  lemma ClaimEffect(p: Policy, h: RequestHash, s: State, step: Step)
    requires Guard(p, h, s, step) && step.Claim?
    ensures var next, c := Apply(p, h, s, step), step.candidate;
            && Find(next.tasks, IdOf(c)).Some? && SameWork(h, c, Find(next.tasks, IdOf(c)).value)
            && Has(next, IdOf(c), Claimed) && next.mode == s.mode && next.circuitOpen == s.circuitOpen
            && ActiveCount(next.tasks) == ActiveCount(s.tasks) + 1
  {
    FindAppended(s.tasks, ClaimedTask(h, step.candidate, step.leaseId, step.expires), IdOf(step.candidate));
    CountAppend(s.tasks, ClaimedTask(h, step.candidate, step.leaseId, step.expires));
  }

  lemma LaunchEffect(p: Policy, h: RequestHash, run: seq<Step>, s: State, step: Step)
    requires Legal(p, h, run) && s == After(p, h, run) && Guard(p, h, s, step) && step.Launch?
    ensures var next := Apply(p, h, s, step);
            next.mode == s.mode && next.circuitOpen == s.circuitOpen && ActiveCount(next.tasks) == ActiveCount(s.tasks)
  {
    hide Legal, After;
    RunSound(p, h, run);
    var t := Find(s.tasks, IdOf(step.candidate)).value;
    ReplaceCount(s.tasks, t, Rewritten(t, step));
  }

  lemma AdvanceAllowed(p: Policy, h: RequestHash, s: State, step: Step)
    requires step.Advance? && s.mode.Active? && !s.circuitOpen && step.cursor != s.cursor
    ensures Guard(p, h, s, step) && Apply(p, h, s, step) == s.(cursor := step.cursor)
  {
  }
}
