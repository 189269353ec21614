/** The guarantees a valid replay gives about a pilot block, for every raw log. */
module ReplayTheorems {
  import opened Prelude
  import opened PilotEvents
  import opened Sorting
  import opened StateMachine
  import opened ReplayInvariants
  import EventStore

  /** The block and route every event of block `id` is replayed against. */
  function ContextOf(m: Manifest, id: string): Context
    requires FindBlock(m.blocks, id).Some?
  {
    Context(FindBlock(m.blocks, id).value, FindArm(m.assignments, id))
  }

  ghost predicate SameBlock(history: seq<Event>, id: string) {
    forall i | 0 <= i < |history| :: history[i].blockId == id
  }

  lemma GoingSteps(m: Manifest, boundary: Event -> string, st: Machine, index: nat, e: Event)
    requires Step(m, boundary, st, index, e).Going?
    ensures FindBlock(m.blocks, e.blockId).Some?
    ensures Steps(m, boundary, ContextOf(m, e.blockId), st, e, Step(m, boundary, st, index, e).machine)
  {
    hide Record, Transition;
  }

  lemma GoingBefore(m: Manifest, boundary: Event -> string, history: seq<Event>, n: nat)
    requires 0 < n <= |history| && Replay(m, boundary, history, n).Going?
    ensures Replay(m, boundary, history, n - 1).Going?
    ensures Replay(m, boundary, history, n) ==
            Step(m, boundary, Replay(m, boundary, history, n - 1).machine, n - 1, history[n - 1])
  {
    hide Step;
  }

  lemma StartInvariant(m: Manifest, boundary: Event -> string, c: Context)
    ensures Inv(m, boundary, c, Start, Blank)
  {
  }

  /** The invariant holds after every event of every replay that goes on. */
  lemma {:induction false} ReplayKeeps(m: Manifest, boundary: Event -> string, history: seq<Event>, n: nat, id: string)
    requires n <= |history| && SameBlock(history, id) && FindBlock(m.blocks, id).Some?
    requires Replay(m, boundary, history, n).Going?
    ensures Inv(m, boundary, ContextOf(m, id), Replay(m, boundary, history, n).machine, LedgerOf(history[..n]))
  {
    hide Step, Inv, Steps, Add;
    if n == 0 {
      StartInvariant(m, boundary, ContextOf(m, id));
      assert history[..0] == [];
    } else {
      GoingBefore(m, boundary, history, n);
      ReplayKeeps(m, boundary, history, n - 1, id);
      var before := Replay(m, boundary, history, n - 1).machine;
      GoingSteps(m, boundary, before, n - 1, history[n - 1]);
      StepKeeps(m, boundary, ContextOf(m, id), before, history[n - 1], Replay(m, boundary, history, n).machine,
                LedgerOf(history[..n - 1]));
      assert history[..n][..n - 1] == history[..n - 1];
    }
  }

  lemma {:induction false} OfBlockMembers(events: seq<Event>, id: string)
    ensures forall e :: e in OfBlock(events, id) <==> e in events && e.blockId == id
  {
    if events != [] {
      OfBlockMembers(events[..|events| - 1], id);
      assert events == events[..|events| - 1] + [events[|events| - 1]];
    }
  }

  lemma HistorySameBlock(log: seq<Event>, id: string)
    ensures SameBlock(History(log, id), id)
  {
    var events := OfBlock(EventStore.ActiveOf(log), id);
    OfBlockMembers(EventStore.ActiveOf(log), id);
    SortPermutes(events, SequenceLe);
    forall i | 0 <= i < |History(log, id)|
      ensures History(log, id)[i].blockId == id
    {
      assert History(log, id)[i] in Sort(events, SequenceLe);
    }
  }

  /** The ledger a valid replay of `log` is answerable for. */
  ghost function LedgerOfLog(log: seq<Event>, id: string): Ledger { LedgerOf(History(log, id)) }

  lemma ValidReplayGoes(m: Manifest, boundary: Event -> string, k: EventStore.Checks, log: seq<Event>)
    requires BlockOutcome(m, boundary, k, log).Valid?
    ensures log != [] && BlockOutcome(m, boundary, k, log).block == log[0].blockId
    ensures var history := History(log, log[0].blockId);
            var progress := Replay(m, boundary, history, |history|);
            && progress.Going? && history != [] && FindBlock(m.blocks, log[0].blockId).Some?
            && BlockOutcome(m, boundary, k, log) == Finish(progress, log[0].blockId)
            && progress.machine.phase == Some(BlockOutcome(m, boundary, k, log).phase)
            && Inv(m, boundary, ContextOf(m, log[0].blockId), progress.machine, LedgerOfLog(log, log[0].blockId))
  {
    hide Step, Inv, EventStore.ValidLog, WorkspaceReused, History;
    var id := log[0].blockId;
    var history := History(log, id);
    HistorySameBlock(log, id);
    GoingBefore(m, boundary, history, |history|);
    GoingSteps(m, boundary, Replay(m, boundary, history, |history| - 1).machine, |history| - 1, history[|history| - 1]);
    ReplayKeeps(m, boundary, history, |history|, id);
    assert history[..|history|] == history;
  }

  /**
   Every log that replays as valid obeys the pilot's rules: one unbroken revision chain of at most three
   attempts, capabilities fixed by the arm, reviews in matching order with chained boundaries and complete
   evidence, independent sessions, and escalation only by the adaptive arm after the second rejection.
   */
  lemma ValidReplayObeysRules(m: Manifest, boundary: Event -> string, k: EventStore.Checks, log: seq<Event>)
    requires BlockOutcome(m, boundary, k, log).Valid?
    ensures log != [] && FindBlock(m.blocks, log[0].blockId).Some?
    ensures var c, l := ContextOf(m, log[0].blockId), LedgerOfLog(log, log[0].blockId);
            && RevisionChain(c, l.starts, l.dones) && DistinctAttempts(l.starts)
            && Capabilities(m, c, l.starts)
            && ReviewOrder(m, l.starts, l.reviewStarts) && Verdicts(boundary, l)
            && Independent(l.starts, l.reviewStarts)
            && Escalated(m, c, l.starts, l.verdicts, l.escalations)
            && Reaches(Some(BlockOutcome(m, boundary, k, log).phase), c, l)
  {
    hide BlockOutcome, Replay, RevisionChain, DistinctAttempts, Capabilities, ReviewOrder, Verdicts, Independent, Escalated;
    hide Reaches, Mirrors;
    ValidReplayGoes(m, boundary, k, log);
  }

  /**
   An accepted block returns exactly the revision and tree of the last attempt, which is completed and was
   accepted by the last review; no finding is left open. Any other outcome returns no revision.
   */
  lemma AcceptanceIsEarned(m: Manifest, boundary: Event -> string, k: EventStore.Checks, log: seq<Event>)
    requires BlockOutcome(m, boundary, k, log).Valid?
    ensures var r := BlockOutcome(m, boundary, k, log);
            var l := LedgerOfLog(log, log[0].blockId);
            if r.phase.Accepted? then
              && l.verdicts != [] && |l.starts| == |l.dones| == |l.verdicts|
              && l.verdicts[|l.verdicts| - 1].decision.Accept?
              && r.acceptedReviewId == Some(l.verdicts[|l.verdicts| - 1].owner.reviewId)
              && r.acceptedRevision == Some(l.dones[|l.dones| - 1].revision)
              && r.acceptedRevision == Some(l.verdicts[|l.verdicts| - 1].toRevision)
              && r.acceptedTreeHash == Some(l.dones[|l.dones| - 1].tree)
              && r.unresolvedIds == {} && OpenFindings(l.verdicts) == {}
            else
              r.acceptedRevision.None? && r.acceptedTreeHash.None? && r.acceptedReviewId.None?
  {
    hide BlockOutcome, Replay, RevisionChain, DistinctAttempts, Capabilities, ReviewOrder, Independent, Escalated, History;
    hide Records, AttemptKeys, ReviewKeys, ExecutorSet, ReviewerSet, EvidenceKept, OpenFindings, CurrentAttempt;
    hide CurrentCompletion, CurrentReview, PreviousReview, RejectedReview, EscalationTarget, Step;
    ValidReplayGoes(m, boundary, k, log);
    var r := BlockOutcome(m, boundary, k, log);
    var l := LedgerOfLog(log, log[0].blockId);
    if r.phase.Accepted? {
      var last := |l.verdicts| - 1;
      assert VerdictOk(boundary, l, last);
      assert l.verdicts[..last + 1] == l.verdicts;
    }
  }

  // ---- Progress --------------------------------------------------------------------

  /** A measure of how far a block has got. */
  function Rank(phase: Option<Phase>): nat {
    match phase
    case None => 0
    case Some(p) =>
      match p
      case Planned => 1
      case Assigned => 2
      case Ready(n) => 5 * n - 2
      case Executing(n) => 5 * n - 1
      case ReadyReview(n) => 5 * n
      case Reviewing(n) => 5 * n + 1
      case EscalationRequired => 12
      case ReadyAccept => 17
      case ReadyFail => 17
      case Accepted => 18
      case Failed => 18
      case Blocked => 18
  }

  /** A step either leaves the state alone or moves it strictly up. */
  lemma StepRises(m: Manifest, boundary: Event -> string, st: Machine, index: nat, e: Event)
    requires Step(m, boundary, st, index, e).Going?
    ensures var next := Step(m, boundary, st, index, e).machine; next.phase == st.phase || Rank(next.phase) > Rank(st.phase)
  {
    hide Record, GuardOk;
  }

  function PhaseAt(m: Manifest, boundary: Event -> string, history: seq<Event>, n: nat): Option<Phase>
    requires n <= |history|
  {
    match Replay(m, boundary, history, n)
    case Going(st) => st.phase
    case Stopped(_, _) => None
  }

  function PhaseChanges(m: Manifest, boundary: Event -> string, history: seq<Event>, n: nat): nat
    requires n <= |history|
  {
    if n == 0 then 0
    else PhaseChanges(m, boundary, history, n - 1) +
         if PhaseAt(m, boundary, history, n) == PhaseAt(m, boundary, history, n - 1) then 0 else 1
  }

  /** However long its history, a block changes state at most eighteen times. */
  lemma {:induction false} BoundedProgress(m: Manifest, boundary: Event -> string, history: seq<Event>, n: nat)
    requires n <= |history| && Replay(m, boundary, history, n).Going?
    ensures PhaseChanges(m, boundary, history, n) <= Rank(PhaseAt(m, boundary, history, n)) <= 18
  {
    hide Step;
    if n > 0 {
      GoingBefore(m, boundary, history, n);
      BoundedProgress(m, boundary, history, n - 1);
      StepRises(m, boundary, Replay(m, boundary, history, n - 1).machine, n - 1, history[n - 1]);
    }
  }

  /** A failed or blocked block takes no further event; an accepted one takes only defect reports and stays accepted. */
  lemma TerminalIsFinal(m: Manifest, boundary: Event -> string, st: Machine, index: nat, e: Event)
    requires st.phase.Some? && Terminal(st.phase.value)
    ensures Step(m, boundary, st, index, e).Going? ==>
              && st.phase.value.Accepted? && e.body.DefectRecorded?
              && Step(m, boundary, st, index, e).machine.phase == st.phase
  {
    hide Record, GuardOk;
  }
}
