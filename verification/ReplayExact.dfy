/**
 Exactly which event a replay takes next (src/pilot/state-machine.ts): for every kind of event that moves a block, the
 condition on the block, the manifest and what the history has recorded so far, and the state it leads to.
 */
module ReplayExact {
  import opened Prelude
  import opened PilotEvents
  import opened Sorting
  import opened StateMachine
  import opened ReplayInvariants
  import opened ReplayTheorems
  import EventStore

  // ---- What the conditions speak of ------------------------------------------------------

  /** The first binding called `ref` has the capability. */
  ghost predicate Registered(bindings: seq<Binding>, ref: string, c: Capability) {
    exists i ::
      && 0 <= i < |bindings| && bindings[i].bindingRef == ref && bindings[i].capability == c
      && forall j | 0 <= j < i :: bindings[j].bindingRef != ref
  }

  lemma {:induction false} FoundBinding(bindings: seq<Binding>, ref: string, c: Capability)
    ensures FindBinding(bindings, ref).Some? && FindBinding(bindings, ref).value.capability == c <==> Registered(bindings, ref, c)
  {
    if bindings == [] {
    } else if bindings[0].bindingRef == ref {
      if Registered(bindings, ref, c) {
        var i :| 0 <= i < |bindings| && bindings[i].bindingRef == ref && bindings[i].capability == c
                 && forall j | 0 <= j < i :: bindings[j].bindingRef != ref;
        assert i == 0;
      }
    } else {
      FoundBinding(bindings[1..], ref, c);
      if Registered(bindings[1..], ref, c) {
        var i :| 0 <= i < |bindings| - 1 && bindings[1..][i].bindingRef == ref && bindings[1..][i].capability == c
                 && forall j | 0 <= j < i :: bindings[1..][j].bindingRef != ref;
        assert forall j | 0 <= j < i + 1 :: j == 0 || bindings[j] == bindings[1..][j - 1];
        assert bindings[i + 1].bindingRef == ref;
      }
      if Registered(bindings, ref, c) {
        var i :| 0 <= i < |bindings| && bindings[i].bindingRef == ref && bindings[i].capability == c
                 && forall j | 0 <= j < i :: bindings[j].bindingRef != ref;
        assert bindings[1..][i - 1] == bindings[i];
        assert forall j | 0 <= j < i - 1 :: bindings[1..][j] == bindings[j + 1];
      }
    }
  }

  /** The event comes next in number and not earlier than the one before it. */
  ghost predicate Timely(st: Machine, index: nat, e: Event) {
    e.sequence == index + 1 && e.occurredAt.Some? && (st.previousAt.Some? ==> st.previousAt.value <= e.occurredAt.value)
  }

  /** The event is the manifest's, about its block, under the arm the block is assigned to. */
  lemma IdentifiedIff(m: Manifest, e: Event)
    ensures BlockContext(m, e).Ok? <==>
              && e.pilotId == m.pilotId && e.manifestHash == m.manifestHash && FindBlock(m.blocks, e.blockId).Some?
              && (var b, arm := FindBlock(m.blocks, e.blockId).value, FindArm(m.assignments, e.blockId);
                  && e.taskId == b.taskId && e.stratum == b.stratum && e.tripletId == b.tripletId && e.fingerprint == b.fingerprint
                  && e.arm == arm
                  && (arm.None? ==> !b.comparative && b.initialCapability == Strong && b.finalCapability == Strong))
    ensures BlockContext(m, e).Ok? ==> BlockContext(m, e).value == ContextOf(m, e.blockId)
  {
  }

  /** The block and its assignment are the first of their name. */
  lemma {:induction false} FoundBlock(blocks: seq<Block>, id: string)
    ensures FindBlock(blocks, id).None? <==> forall i | 0 <= i < |blocks| :: blocks[i].blockId != id
    ensures FindBlock(blocks, id).Some? ==> exists i ::
              0 <= i < |blocks| && blocks[i] == FindBlock(blocks, id).value && blocks[i].blockId == id
              && forall j | 0 <= j < i :: blocks[j].blockId != id
  {
    if blocks != [] && blocks[0].blockId != id {
      FoundBlock(blocks[1..], id);
      assert forall j | 0 < j < |blocks| :: blocks[j] == blocks[1..][j - 1];
      if FindBlock(blocks[1..], id).Some? {
        var i :| 0 <= i < |blocks| - 1 && blocks[1..][i] == FindBlock(blocks[1..], id).value && blocks[1..][i].blockId == id
                 && forall j | 0 <= j < i :: blocks[1..][j].blockId != id;
        assert blocks[i + 1] == FindBlock(blocks, id).value;
      }
    }
  }

  lemma {:induction false} FoundArm(assignments: seq<Assignment>, id: string)
    ensures FindArm(assignments, id).None? <==> forall i | 0 <= i < |assignments| :: assignments[i].blockId != id
    ensures FindArm(assignments, id).Some? ==> exists i ::
              0 <= i < |assignments| && Some(assignments[i].arm) == FindArm(assignments, id) && assignments[i].blockId == id
              && forall j | 0 <= j < i :: assignments[j].blockId != id
  {
    if assignments != [] && assignments[0].blockId != id {
      FoundArm(assignments[1..], id);
      assert forall j | 0 < j < |assignments| :: assignments[j] == assignments[1..][j - 1];
      if FindArm(assignments[1..], id).Some? {
        var i :| 0 <= i < |assignments| - 1 && Some(assignments[1..][i].arm) == FindArm(assignments[1..], id)
                 && assignments[1..][i].blockId == id && forall j | 0 <= j < i :: assignments[1..][j].blockId != id;
        assert Some(assignments[i + 1].arm) == FindArm(assignments, id);
      }
    }
  }

  /** The event is recorded and its transition allowed. */
  ghost predicate Admits(m: Manifest, boundary: Event -> string, c: Context, st: Machine, e: Event) {
    Record(m, c, Tick(st, e), e).Ok? && Transition(m, boundary, st.phase, e, c).Ok?
  }

  /** A replay goes on exactly when the event is timely, is the block's own, and is admitted. */
  lemma StepGoesIff(m: Manifest, boundary: Event -> string, st: Machine, index: nat, e: Event)
    ensures Step(m, boundary, st, index, e).Going? <==>
              && Timely(st, index, e) && BlockContext(m, e).Ok?
              && Admits(m, boundary, ContextOf(m, e.blockId), st, e)
    ensures Step(m, boundary, st, index, e).Going? ==>
              && Step(m, boundary, st, index, e).machine.previousAt == e.occurredAt
              && Step(m, boundary, st, index, e).machine.phase == NextPhase(st.phase, e.body, ContextOf(m, e.blockId).route)
  {
    IdentifiedIff(m, e);
    if BlockContext(m, e).Ok? { RecordKeepsClock(m, ContextOf(m, e.blockId), Tick(st, e), e); }
    hide Record, NextPhase, GuardOk, BlockContext;
  }

  lemma RecordKeepsClock(m: Manifest, c: Context, st: Machine, e: Event)
    ensures Record(m, c, st, e).Ok? ==> Record(m, c, st, e).value.previousAt == st.previousAt
  {
    if e.body.ReviewCompleted? {
      VerdictKeepsClock(c, st, e);
    } else if e.body.UsageRecorded? {
      UsageKeepsClock(m, st, e);
    }
    hide RecordReview, RecordUsage, FindBinding, AcceptsEvidence, WindowOpen, TreeReproduced, ValidationsOf;
  }

  lemma VerdictKeepsClock(c: Context, st: Machine, e: Event)
    requires e.body.ReviewCompleted?
    ensures RecordReview(c, st, e).Ok? ==> RecordReview(c, st, e).value.previousAt == st.previousAt
  {
    hide SameStrings, NextUnresolved, Evidence, ValidationsOf;
  }

  lemma UsageKeepsClock(m: Manifest, st: Machine, e: Event)
    requires e.body.UsageRecorded?
    ensures RecordUsage(m, st, e).Ok? ==> RecordUsage(m, st, e).value.previousAt == st.previousAt
  {
    hide FindBinding, AcceptsEvidence, WindowOpen;
  }

  // ---- Before the first attempt ----------------------------------------------------------

  /** A block is planned first, by the hash of its contract. */
  lemma PlannedIff(m: Manifest, boundary: Event -> string, c: Context, st: Machine, e: Event)
    requires e.body.BlockPlanned?
    ensures Admits(m, boundary, c, st, e) <==> st.phase.None? && e.body.plannedBlockHash == c.block.contractHash
    ensures Admits(m, boundary, c, st, e) ==> NextPhase(st.phase, e.body, c.route) == Some(Planned)
  {
  }

  /** A planned block is assigned the arm the manifest assigns to it. */
  lemma AssignedIff(m: Manifest, boundary: Event -> string, c: Context, st: Machine, e: Event)
    requires e.body.ArmAssigned?
    ensures Admits(m, boundary, c, st, e) <==>
              st.phase == Some(Planned) && c.route == Some(e.body.assignedArm) && e.body.algorithmVersion == m.assignmentVersion
    ensures Admits(m, boundary, c, st, e) ==> NextPhase(st.phase, e.body, c.route) == Some(Assigned)
  {
  }

  /** Isolation is attested once assigned, or once planned for direct work, on the clean base tree of the block. */
  lemma AttestedIff(m: Manifest, boundary: Event -> string, c: Context, st: Machine, e: Event)
    requires e.body.IsolationAttested?
    ensures Admits(m, boundary, c, st, e) <==>
              && (st.phase == Some(Assigned) || (st.phase == Some(Planned) && c.route == None))
              && e.body.clean && e.body.baseRevision == c.block.baseRevision && e.body.cleanTreeHash == c.block.cleanTreeHash
              && e.body.observedTreeHash == c.block.cleanTreeHash && e.body.isolationPolicyVersion == m.isolationPolicyVersion
    ensures Admits(m, boundary, c, st, e) ==> NextPhase(st.phase, e.body, c.route) == Some(Ready(1))
  {
  }

  // ---- Attempts --------------------------------------------------------------------------

  lemma RouteIs(m: Manifest, route: Route, a: AttemptOwner)
    ensures RouteOk(m, route, a) <==>
              && Registered(m.bindings, a.bindingRef, a.capability)
              && (route.None? || route == Some(StrongBaseline) ==> a.capability == Strong)
              && (route == Some(CheapNoEscalation) ==> a.capability == Cheap)
              && (route == Some(AdaptiveEscalation) ==> a.capability == if a.number == 3 then Strong else Cheap)
  {
    FoundBinding(m.bindings, a.bindingRef, a.capability);
    hide FindBinding, Registered;
  }

  /** An attempt on the machine's variables. */
  lemma StartOnMachine(m: Manifest, boundary: Event -> string, c: Context, st: Machine, e: Event)
    requires e.body.ExecutionStarted?
    ensures Admits(m, boundary, c, st, e) <==>
              var a := e.body.attempt;
              && st.phase.Some? && st.phase.value.Ready? && a.number == st.phase.value.n
              && a.kind == (if a.number == 1 then Implementation else if a.number == 2 then Repair else FinalExecution)
              && RouteOk(m, c.route, a) && a.attemptId !in st.attempts
              && a.session !in st.executorSessions && a.session !in st.reviewerSessions && a.inputRevision != ""
              && (if a.number == 1 then a.inputRevision == c.block.baseRevision
                  else && st.previousReview.Some? && st.previousReview.value.body.ReviewCompleted?
                       && a.inputRevision == st.previousReview.value.body.toRevision)
              && (c.route == Some(AdaptiveEscalation) && a.number == 3 ==> st.escalationTarget == Some(a.bindingRef))
    ensures Admits(m, boundary, c, st, e) ==> NextPhase(st.phase, e.body, c.route) == Some(Executing(st.phase.value.n))
  {
    hide RouteOk;
  }

  /**
   The next attempt starts exactly when the block is ready for it and it has the next number and its kind, the capability
   its arm prescribes on a binding registered with it, an identifier and a session not used before, the output of the
   previous attempt (at first the block's base) as its input, and, third of the adaptive arm, the escalation's target.
   */
  lemma StartIff(m: Manifest, boundary: Event -> string, c: Context, st: Machine, l: Ledger, e: Event)
    requires Inv(m, boundary, c, st, l) && e.body.ExecutionStarted?
    ensures Admits(m, boundary, c, st, e) <==>
              var a, n := e.body.attempt, |l.starts| + 1;
              && n <= 3 && st.phase == Some(Ready(n)) && a.number == n
              && a.kind == (if n == 1 then Implementation else if n == 2 then Repair else FinalExecution)
              && Registered(m.bindings, a.bindingRef, a.capability)
              && (c.route == None || c.route == Some(StrongBaseline) ==> a.capability == Strong)
              && (c.route == Some(CheapNoEscalation) ==> a.capability == Cheap)
              && (c.route == Some(AdaptiveEscalation) ==> a.capability == if n == 3 then Strong else Cheap)
              && (forall i | 0 <= i < |l.starts| :: l.starts[i].attemptId != a.attemptId && l.starts[i].session != a.session)
              && (forall i | 0 <= i < |l.reviewStarts| :: l.reviewStarts[i].session != a.session)
              && a.inputRevision != "" && |l.dones| == n - 1
              && a.inputRevision == (if n == 1 then c.block.baseRevision else l.dones[n - 2].revision)
              && (c.route == Some(AdaptiveEscalation) && n == 3 ==> l.escalations != [] && l.escalations[0].target == a.bindingRef)
    ensures Admits(m, boundary, c, st, e) ==> NextPhase(st.phase, e.body, c.route) == Some(Executing(st.phase.value.n))
  {
    hide Admits, RouteOk, Registered, NextPhase, Inv;
    StartOnMachine(m, boundary, c, st, e);
    RouteIs(m, c.route, e.body.attempt);
    if st.phase.Some? && st.phase.value.Ready? { StartMirrored(m, boundary, c, st, l, e.body.attempt); }
  }

  /** What a ready machine's variables say about the ledger. */
  lemma StartMirrored(m: Manifest, boundary: Event -> string, c: Context, st: Machine, l: Ledger, a: AttemptOwner)
    requires Inv(m, boundary, c, st, l) && st.phase.Some? && st.phase.value.Ready?
    ensures |l.starts| == |l.dones| == st.phase.value.n - 1
    ensures a.attemptId !in st.attempts <==> forall i | 0 <= i < |l.starts| :: l.starts[i].attemptId != a.attemptId
    ensures a.session !in st.executorSessions <==> forall i | 0 <= i < |l.starts| :: l.starts[i].session != a.session
    ensures a.session !in st.reviewerSessions <==> forall i | 0 <= i < |l.reviewStarts| :: l.reviewStarts[i].session != a.session
    ensures |l.starts| > 0 ==>
              && st.previousReview.Some? && st.previousReview.value.body.ReviewCompleted?
              && st.previousReview.value.body.toRevision == l.dones[|l.starts| - 1].revision
    ensures st.escalationTarget == if l.escalations == [] then None else Some(l.escalations[0].target)
  {
    hide RouteOk, Independent, DistinctAttempts, Capabilities, ReviewOrder, Records, EvidenceKept, CurrentReview, AcceptedReview;
    hide RejectedReview, OpenFindings, EvidenceFor, ReviewKeys, CurrentAttempt, CurrentCompletion;
    if |l.starts| > 0 {
      assert VerdictOk(boundary, l, |l.starts| - 1);
    }
  }

  /** Only the attempt under way completes, with its own particulars, its duration and a reproduced tree. */
  lemma CompletionIff(m: Manifest, boundary: Event -> string, c: Context, st: Machine, l: Ledger, e: Event)
    requires Inv(m, boundary, c, st, l) && e.body.ExecutionCompleted?
    ensures Admits(m, boundary, c, st, e) <==>
              var p, n := e.body, |l.starts|;
              && 1 <= n <= 3 && st.phase == Some(Executing(n)) && p.attempt == l.starts[n - 1]
              && p.finishedMs >= p.attempt.startedMs && p.durationMs == p.finishedMs - p.attempt.startedMs
              && p.treeAlgorithmVersion == m.treeAlgorithmVersion && p.volatilePathsHash == m.volatilePathsHash && p.reproduced
    ensures Admits(m, boundary, c, st, e) ==> NextPhase(st.phase, e.body, c.route) == Some(ReadyReview(st.phase.value.n))
  {
    CompletionOnMachine(m, boundary, c, st, e);
    hide Admits, NextPhase, RouteOk;
    if st.phase.Some? && st.phase.value.Executing? { CompletionMirrored(m, boundary, c, st, l); }
  }

  lemma CompletionOnMachine(m: Manifest, boundary: Event -> string, c: Context, st: Machine, e: Event)
    requires e.body.ExecutionCompleted?
    ensures Admits(m, boundary, c, st, e) <==>
              var p := e.body;
              && st.phase.Some? && st.phase.value.Executing? && p.attempt.number == st.phase.value.n
              && RouteOk(m, c.route, p.attempt)
              && st.currentAttempt.Some? && st.currentAttempt.value.body.ExecutionStarted?
              && st.currentAttempt.value.body.attempt == p.attempt && p.attempt.attemptId in st.attempts
              && p.finishedMs >= p.attempt.startedMs && p.durationMs == p.finishedMs - p.attempt.startedMs
              && p.treeAlgorithmVersion == m.treeAlgorithmVersion && p.volatilePathsHash == m.volatilePathsHash && p.reproduced
    ensures Admits(m, boundary, c, st, e) ==> NextPhase(st.phase, e.body, c.route) == Some(ReadyReview(st.phase.value.n))
  {
    hide RouteOk;
  }

  lemma CompletionMirrored(m: Manifest, boundary: Event -> string, c: Context, st: Machine, l: Ledger)
    requires Inv(m, boundary, c, st, l) && st.phase.Some? && st.phase.value.Executing?
    ensures var n := |l.starts|;
            && n == st.phase.value.n && st.currentAttempt.Some? && st.currentAttempt.value.body.ExecutionStarted?
            && st.currentAttempt.value.body.attempt == l.starts[n - 1] && l.starts[n - 1].attemptId in st.attempts
            && l.starts[n - 1].number == n && RouteOk(m, c.route, l.starts[n - 1])
  {
    hide RouteOk, Independent, DistinctAttempts, ReviewOrder, Records, EvidenceKept, CurrentReview, AcceptedReview, Verdicts;
    hide RejectedReview, OpenFindings, EvidenceFor, ReviewKeys, CurrentCompletion, Escalated;
  }

  /** Validation evidence is taken for the last attempt, once it is complete and until its review starts. */
  lemma ValidationIff(m: Manifest, boundary: Event -> string, c: Context, st: Machine, l: Ledger, e: Event)
    requires Inv(m, boundary, c, st, l) && e.body.ValidationRecorded?
    ensures Admits(m, boundary, c, st, e) <==>
              var p, n := e.body, |l.starts|;
              && st.phase.Some? && st.phase.value !in {Accepted, Failed, Blocked}
              && n > 0 && |l.dones| == n && |l.reviewStarts| == n - 1 && p.attemptId == l.starts[n - 1].attemptId
              && (forall s | s in p.surface :: s in c.block.validationSurface)
              && (p.passed <==> p.testsFailing == 0)
    ensures Admits(m, boundary, c, st, e) ==> NextPhase(st.phase, e.body, c.route) == st.phase
  {
    AcceptsIff(m, boundary, c, st, l, e.body.attemptId);
    ValidationOnMachine(m, boundary, c, st, e);
    hide Inv, AcceptsEvidence, Admits, NextPhase;
  }

  lemma ValidationOnMachine(m: Manifest, boundary: Event -> string, c: Context, st: Machine, e: Event)
    requires e.body.ValidationRecorded?
    ensures Admits(m, boundary, c, st, e) <==>
              var p := e.body;
              && st.phase.Some? && st.phase.value !in {Accepted, Failed, Blocked} && AcceptsEvidence(st, p.attemptId)
              && (forall s | s in p.surface :: s in c.block.validationSurface)
              && (p.passed <==> p.testsFailing == 0)
    ensures Admits(m, boundary, c, st, e) ==> NextPhase(st.phase, e.body, c.route) == st.phase
  {
    assert AcceptsEvidence(Tick(st, e), e.body.attemptId) == AcceptsEvidence(st, e.body.attemptId);
    hide AcceptsEvidence, ValidationsOf;
  }

  /** The attempt that may receive evidence is the last, complete and not yet under review. */
  lemma AcceptsIff(m: Manifest, boundary: Event -> string, c: Context, st: Machine, l: Ledger, id: string)
    requires Inv(m, boundary, c, st, l)
    ensures AcceptsEvidence(st, id) <==>
              var n := |l.starts|;
              n > 0 && |l.dones| == n && |l.reviewStarts| == n - 1 && id == l.starts[n - 1].attemptId
  {
    LastUnreviewed(m, boundary, c, l);
    AcceptsRecord(st.attempts, l.starts, l.dones, |l.reviewStarts|, id);
    hide Rules, Reaches;
    hide EvidenceKept, CurrentReview, AcceptedReview, RejectedReview, OpenFindings, AttemptKeys, Records;
    hide ReviewKeys, CurrentAttempt, CurrentCompletion, PreviousReview, ExecutorSet, ReviewerSet, EscalationTarget;
  }

  lemma AcceptsRecord(attempts: map<string, Attempt>, starts: seq<AttemptOwner>, dones: seq<Done>, reviewed: nat, id: string)
    requires AttemptKeys(attempts.Keys, starts) && Records(attempts, starts, dones, reviewed) && DistinctAttempts(starts)
    requires |starts| - 1 <= reviewed <= |dones| <= |starts|
    ensures id in attempts && attempts[id].completed.Some? && !attempts[id].reviewStarted <==>
              |starts| > 0 && |dones| == |starts| && reviewed == |starts| - 1 && id == starts[|starts| - 1].attemptId
  {
    if id in attempts {
      KnownAttempt(attempts.Keys, starts, id);
      var i :| 0 <= i < |starts| && starts[i].attemptId == id;
      assert RecordOf(attempts, starts, dones, reviewed, i);
    }
    if |starts| > 0 {
      assert RecordOf(attempts, starts, dones, reviewed, |starts| - 1);
    }
  }

  lemma LastUnreviewed(m: Manifest, boundary: Event -> string, c: Context, l: Ledger)
    requires Rules(m, boundary, c, l)
    ensures |l.starts| - 1 <= |l.reviewStarts| <= |l.dones| <= |l.starts| && DistinctAttempts(l.starts)
  {
    hide RouteOk, Independent, Capabilities, ReviewOrder, Escalated, VerdictOk, DistinctAttempts;
  }

  // ---- Reviews ---------------------------------------------------------------------------

  /** The current completion is the record kept for the last attempt. */
  ghost predicate CompletionLinked(st: Machine, l: Ledger) {
    l.starts != [] && |l.dones| == |l.starts| ==>
      var id := l.starts[|l.starts| - 1].attemptId; id in st.attempts && st.attempts[id].completed == st.currentCompletion
  }

  lemma LinkedStart()
    ensures CompletionLinked(Start, Blank)
  {
  }

  lemma LinkedStep(m: Manifest, boundary: Event -> string, c: Context, st: Machine, e: Event, next: Machine, l: Ledger)
    requires Inv(m, boundary, c, st, l) && CompletionLinked(st, l) && Steps(m, boundary, c, st, e, next)
    ensures CompletionLinked(next, Add(l, e))
  {
    hide Steps, Inv, CompletionLinked;
    if e.body.ExecutionStarted? {
      LinkedByStart(m, boundary, c, st, e, next, l);
    } else if e.body.ExecutionCompleted? {
      LinkedByCompletion(m, boundary, c, st, e, next, l);
    } else if e.body.ReviewStarted? {
      LinkedByReview(m, boundary, c, st, e, next, l);
    } else {
      LinkedOtherwise(m, boundary, c, st, e, next, l);
    }
  }

  lemma LinkedByStart(m: Manifest, boundary: Event -> string, c: Context, st: Machine, e: Event, next: Machine, l: Ledger)
    requires Inv(m, boundary, c, st, l) && Steps(m, boundary, c, st, e, next) && e.body.ExecutionStarted?
    ensures CompletionLinked(next, Add(l, e))
  {
    hide Steps, Inv;
    StartEffect(m, boundary, c, st, e, next);
    StartMirrored(m, boundary, c, st, l, e.body.attempt);
  }

  lemma LinkedByCompletion(m: Manifest, boundary: Event -> string, c: Context, st: Machine, e: Event, next: Machine, l: Ledger)
    requires Inv(m, boundary, c, st, l) && Steps(m, boundary, c, st, e, next) && e.body.ExecutionCompleted?
    ensures CompletionLinked(next, Add(l, e))
  {
    hide Steps, Inv;
    CompletionEffect(m, boundary, c, st, e, next);
    CompletionMirrored(m, boundary, c, st, l);
  }

  lemma LinkedByReview(m: Manifest, boundary: Event -> string, c: Context, st: Machine, e: Event, next: Machine, l: Ledger)
    requires CompletionLinked(st, l) && Steps(m, boundary, c, st, e, next) && e.body.ReviewStarted?
    ensures CompletionLinked(next, Add(l, e))
  {
    hide Steps;
    ReviewStartEffect(m, boundary, c, st, e, next);
  }

  lemma LinkedOtherwise(m: Manifest, boundary: Event -> string, c: Context, st: Machine, e: Event, next: Machine, l: Ledger)
    requires CompletionLinked(st, l) && Steps(m, boundary, c, st, e, next)
    requires !e.body.ExecutionStarted? && !e.body.ExecutionCompleted? && !e.body.ReviewStarted?
    ensures CompletionLinked(next, Add(l, e))
  {
    SameAttempts(m, boundary, c, st, e, next);
    hide Steps, VerdictOf;
  }

  lemma SameAttempts(m: Manifest, boundary: Event -> string, c: Context, st: Machine, e: Event, next: Machine)
    requires Steps(m, boundary, c, st, e, next)
    requires !e.body.ExecutionStarted? && !e.body.ExecutionCompleted? && !e.body.ReviewStarted?
    ensures next.attempts == st.attempts && next.currentCompletion == st.currentCompletion
  {
    hide Steps;
    if e.body.ReviewCompleted? {
      ReviewEffect(m, boundary, c, st, e, next);
    } else if e.body.ValidationRecorded? {
      ValidationEffect(m, boundary, c, st, e, next);
    } else if e.body.EscalationDecided? {
      EscalationEffect(m, boundary, c, st, e, next);
    } else {
      UnlistedEffect(m, boundary, c, st, e, next);
    }
  }

  lemma ReviewStartOnMachine(m: Manifest, boundary: Event -> string, c: Context, st: Machine, e: Event)
    requires e.body.ReviewStarted?
    ensures Admits(m, boundary, c, st, e) <==>
              var r := e.body.review;
              && st.phase.Some? && st.phase.value.ReadyReview? && r.round == st.phase.value.n
              && r.bindingRef == m.reviewerBinding && r.session != r.executorSession
              && r.attemptId in st.attempts && st.attempts[r.attemptId].completed.Some?
              && st.attempts[r.attemptId].completed == st.currentCompletion
              && st.currentCompletion.value.body.ExecutionCompleted?
              && r.executorSession == st.currentCompletion.value.body.attempt.session
              && r.reviewId !in st.reviews && r.session !in st.executorSessions && r.session !in st.reviewerSessions
    ensures Admits(m, boundary, c, st, e) ==> NextPhase(st.phase, e.body, c.route) == Some(Reviewing(st.phase.value.n))
  {
  }

  /**
   A review starts exactly when one is due, and it has the next round, the manifest's reviewer, the attempt just completed
   and its session, and an identifier and a session not used before.
   */
  lemma ReviewStartIff(m: Manifest, boundary: Event -> string, c: Context, st: Machine, l: Ledger, e: Event)
    requires Inv(m, boundary, c, st, l) && CompletionLinked(st, l) && e.body.ReviewStarted?
    ensures Admits(m, boundary, c, st, e) <==>
              var r, n := e.body.review, |l.starts|;
              && 1 <= n <= 3 && st.phase == Some(ReadyReview(n)) && r.round == n && r.bindingRef == m.reviewerBinding
              && r.attemptId == l.starts[n - 1].attemptId && r.executorSession == l.starts[n - 1].session
              && (forall i | 0 <= i < |l.reviewStarts| :: l.reviewStarts[i].reviewId != r.reviewId && l.reviewStarts[i].session != r.session)
              && (forall i | 0 <= i < n :: l.starts[i].session != r.session)
    ensures Admits(m, boundary, c, st, e) ==> NextPhase(st.phase, e.body, c.route) == Some(Reviewing(st.phase.value.n))
  {
    ReviewStartOnMachine(m, boundary, c, st, e);
    hide Admits, NextPhase;
    if st.phase.Some? && st.phase.value.ReadyReview? { ReviewStartMirrored(m, boundary, c, st, l, e.body.review); }
  }

  lemma ReviewStartMirrored(m: Manifest, boundary: Event -> string, c: Context, st: Machine, l: Ledger, r: ReviewOwner)
    requires Inv(m, boundary, c, st, l) && CompletionLinked(st, l) && st.phase.Some? && st.phase.value.ReadyReview?
    ensures |l.starts| == |l.dones| == st.phase.value.n
    ensures st.currentCompletion.Some? && st.currentCompletion.value.body.ExecutionCompleted?
    ensures st.currentCompletion.value.body.attempt == l.starts[|l.starts| - 1]
    ensures (r.attemptId in st.attempts && st.attempts[r.attemptId].completed.Some?
             && st.attempts[r.attemptId].completed == st.currentCompletion) <==> r.attemptId == l.starts[|l.starts| - 1].attemptId
    ensures r.reviewId !in st.reviews <==> forall i | 0 <= i < |l.reviewStarts| :: l.reviewStarts[i].reviewId != r.reviewId
    ensures r.session !in st.executorSessions <==> forall i | 0 <= i < |l.starts| :: l.starts[i].session != r.session
    ensures r.session !in st.reviewerSessions <==> forall i | 0 <= i < |l.reviewStarts| :: l.reviewStarts[i].session != r.session
  {
    hide RouteOk, Independent, DistinctAttempts, Capabilities, ReviewOrder, EvidenceKept, CurrentReview, AcceptedReview;
    hide RejectedReview, OpenFindings, EvidenceFor, CurrentAttempt, Escalated, Verdicts, PreviousReview;
    Owners(c, l.starts, l.dones);
    assert RecordOf(st.attempts, l.starts, l.dones, |l.reviewStarts|, |l.starts| - 1);
    if r.attemptId in st.attempts && st.attempts[r.attemptId].completed == st.currentCompletion {
      ReviewsLastAttempt(c, st.attempts, st.currentCompletion, l.starts, l.dones, |l.reviewStarts|, r.attemptId);
    }
  }

  /** Each finding the list resolves is open when its turn comes. */
  ghost predicate ResolvesOpen(open: set<string>, findings: seq<Finding>) {
    forall i | 0 <= i < |findings| && !findings[i].open :: findings[i].findingId in ApplyFindings(open, findings[..i])
  }

  lemma {:induction false} ResolvesIff(open: set<string>, findings: seq<Finding>)
    ensures NextUnresolved(open, findings).Some? <==> ResolvesOpen(open, findings)
    ensures NextUnresolved(open, findings).Some? ==> NextUnresolved(open, findings).value == ApplyFindings(open, findings)
    decreases |findings|
  {
    if findings != [] {
      var f, rest := findings[0], findings[1..];
      var after := if f.open then open + {f.findingId} else open - {f.findingId};
      ResolvesIff(after, rest);
      forall i | 0 < i <= |findings| ensures ApplyFindings(open, findings[..i]) == ApplyFindings(after, rest[..i - 1]) {
        assert findings[..i][1..] == rest[..i - 1];
      }
      if ResolvesOpen(open, findings) {
        forall i | 0 <= i < |rest| && !rest[i].open ensures rest[i].findingId in ApplyFindings(after, rest[..i]) {
          assert rest[i] == findings[i + 1];
        }
        assert findings[..0] == [];
      }
      if ResolvesOpen(after, rest) && (f.open || f.findingId in open) {
        forall i | 0 <= i < |findings| && !findings[i].open ensures findings[i].findingId in ApplyFindings(open, findings[..i]) {
          if i == 0 { assert findings[..0] == []; } else { assert rest[i - 1] == findings[i]; }
        }
      }
    }
  }

  /** A finding is open after a list exactly when the list last opened it, or says nothing of it and it was open before. */
  lemma {:induction false} OpenAfterIff(open: set<string>, findings: seq<Finding>, id: string)
    ensures id in ApplyFindings(open, findings) <==>
              || (exists i :: 0 <= i < |findings| && findings[i] .findingId == id && findings[i].open
                              && forall j | i < j < |findings| :: findings[j].findingId != id)
              || (id in open && forall j | 0 <= j < |findings| :: findings[j].findingId != id)
    decreases |findings|
  {
    if findings != [] {
      var f, rest := findings[0], findings[1..];
      var after := if f.open then open + {f.findingId} else open - {f.findingId};
      OpenAfterIff(after, rest, id);
      assert forall j | 0 < j < |findings| :: findings[j] == rest[j - 1];
      if i :| 0 <= i < |rest| && rest[i].findingId == id && rest[i].open && forall j | i < j < |rest| :: rest[j].findingId != id {
        assert findings[i + 1].findingId == id && findings[i + 1].open;
        assert forall j | i + 1 < j < |findings| :: findings[j].findingId != id;
      }
      if i :| 0 <= i < |findings| && findings[i].findingId == id && findings[i].open
              && forall j | i < j < |findings| :: findings[j].findingId != id {
        if i > 0 {
          assert rest[i - 1].findingId == id && rest[i - 1].open;
          assert forall j | i - 1 < j < |rest| :: rest[j] == findings[j + 1];
        } else {
          assert forall j | 0 <= j < |rest| :: rest[j] == findings[j + 1];
        }
      }
    }
  }

  lemma VerdictOnMachine(m: Manifest, boundary: Event -> string, c: Context, st: Machine, e: Event)
    requires e.body.ReviewCompleted?
    ensures Admits(m, boundary, c, st, e) <==>
              var p, r := e.body, e.body.review;
              && st.phase.Some? && st.phase.value.Reviewing?
              && st.currentReview.Some? && st.currentReview.value.body.ReviewStarted? && st.currentReview.value.body.review == r
              && r.attemptId in st.attempts && st.attempts[r.attemptId].completed.Some?
              && st.attempts[r.attemptId].completed.value.body.ExecutionCompleted? && r.reviewId in st.reviews
              && p.toRevision == st.attempts[r.attemptId].completed.value.body.outputRevision
              && (if r.round == 1 then p.fromRevision == c.block.baseRevision && p.previousBoundary.None?
                  else && st.previousReview.Some? && st.previousReview.value.body.ReviewCompleted?
                       && p.fromRevision == st.previousReview.value.body.toRevision
                       && p.previousBoundary == Some(st.previousReview.value.body.boundaryHash))
              && SameStrings(p.evidence, Evidence(ValidationsOf(st, r.attemptId)))
              && (forall f | f in p.material :: f.material) && (forall f | f in p.nonMaterial :: !f.material)
              && NextUnresolved(st.unresolved, p.material).Some?
              && multiset(p.unresolvedIds) == multiset(NextUnresolved(st.unresolved, p.material).value)
              && p.finishedMs >= r.startedMs && p.durationMs == p.finishedMs - r.startedMs && p.boundaryHash == boundary(e)
              && (p.decision == Accept ==> p.unresolvedIds == [])
              && (p.decision == Reject ==> p.unresolvedIds != [] || p.material != [] || p.nonMaterial != [])
  {
    hide SameStrings, NextUnresolved, Evidence;
    RecordsVerdict(c, Tick(st, e), e);
    hide RecordReview;
  }

  lemma RecordsVerdict(c: Context, st: Machine, e: Event)
    requires e.body.ReviewCompleted?
    ensures RecordReview(c, st, e).Ok? <==>
              var p, r := e.body, e.body.review;
              && st.currentReview.Some? && st.currentReview.value.body.ReviewStarted? && st.currentReview.value.body.review == r
              && r.attemptId in st.attempts && st.attempts[r.attemptId].completed.Some?
              && st.attempts[r.attemptId].completed.value.body.ExecutionCompleted? && r.reviewId in st.reviews
              && p.toRevision == st.attempts[r.attemptId].completed.value.body.outputRevision
              && (if r.round == 1 then p.fromRevision == c.block.baseRevision && p.previousBoundary.None?
                  else && st.previousReview.Some? && st.previousReview.value.body.ReviewCompleted?
                       && p.fromRevision == st.previousReview.value.body.toRevision
                       && p.previousBoundary == Some(st.previousReview.value.body.boundaryHash))
              && SameStrings(p.evidence, Evidence(ValidationsOf(st, r.attemptId)))
              && (forall f | f in p.material :: f.material) && (forall f | f in p.nonMaterial :: !f.material)
              && NextUnresolved(st.unresolved, p.material).Some?
              && multiset(p.unresolvedIds) == multiset(NextUnresolved(st.unresolved, p.material).value)
  {
    hide SameStrings, NextUnresolved, Evidence, ValidationsOf;
  }

  /** What the variables of a machine under review say about the ledger. */
  lemma VerdictMirrored(m: Manifest, boundary: Event -> string, c: Context, st: Machine, l: Ledger)
    requires Inv(m, boundary, c, st, l) && st.phase.Some? && st.phase.value.Reviewing?
    ensures |l.starts| == |l.dones| == |l.reviewStarts| == st.phase.value.n && |l.verdicts| == st.phase.value.n - 1
    ensures var n, r := |l.starts|, l.reviewStarts[|l.starts| - 1];
            && r.round == n && r.attemptId == l.starts[n - 1].attemptId && r.reviewId in st.reviews
            && st.currentReview.Some? && st.currentReview.value.body.ReviewStarted? && st.currentReview.value.body.review == r
            && r.attemptId in st.attempts && st.attempts[r.attemptId].completed.Some?
            && st.attempts[r.attemptId].completed.value.body.ExecutionCompleted?
            && st.attempts[r.attemptId].completed.value.body.outputRevision == l.dones[n - 1].revision
            && Evidence(ValidationsOf(st, r.attemptId)) == EvidenceFor(l.checks, r.attemptId)
            && st.unresolved == OpenFindings(l.verdicts)
            && (n > 1 ==>
                  && st.previousReview.Some? && st.previousReview.value.body.ReviewCompleted?
                  && st.previousReview.value.body.toRevision == l.dones[n - 2].revision
                  && st.previousReview.value.body.boundaryHash == l.verdicts[n - 2].boundary)
  {
    hide RouteOk, Independent, DistinctAttempts, Capabilities, AcceptedReview, RejectedReview, OpenFindings, EvidenceFor, Evidence;
    hide CurrentAttempt, CurrentCompletion, Escalated, RevisionChain, EscalationTarget, ExecutorSet, ReviewerSet;
    var n := |l.starts|;
    assert RecordOf(st.attempts, l.starts, l.dones, n, n - 1);
    if n > 1 {
      assert VerdictOk(boundary, l, n - 2);
    }
  }

  /**
   A verdict is taken exactly on the review under way, over its attempt's revisions, with the previous boundary and its
   own, with the evidence recorded for the attempt, with findings flagged as what they are, resolving only open ones and
   naming all left open; it accepts only without any, and rejects only with something to say.
   */
  lemma VerdictIff(m: Manifest, boundary: Event -> string, c: Context, st: Machine, l: Ledger, e: Event)
    requires Inv(m, boundary, c, st, l) && e.body.ReviewCompleted?
    ensures Admits(m, boundary, c, st, e) <==>
              var p, n := e.body, |l.starts|;
              && 1 <= n <= 3 && st.phase == Some(Reviewing(n)) && |l.dones| == |l.reviewStarts| == n && |l.verdicts| == n - 1
              && p.review == l.reviewStarts[n - 1]
              && p.fromRevision == (if n == 1 then c.block.baseRevision else l.dones[n - 2].revision)
              && p.toRevision == l.dones[n - 1].revision
              && p.previousBoundary == (if n == 1 then None else Some(l.verdicts[n - 2].boundary))
              && p.boundaryHash == boundary(e)
              && multiset(p.evidence) == multiset(EvidenceFor(l.checks, l.starts[n - 1].attemptId))
              && (forall f | f in p.material :: f.material) && (forall f | f in p.nonMaterial :: !f.material)
              && ResolvesOpen(OpenFindings(l.verdicts), p.material)
              && multiset(p.unresolvedIds) == multiset(ApplyFindings(OpenFindings(l.verdicts), p.material))
              && p.finishedMs >= p.review.startedMs && p.durationMs == p.finishedMs - p.review.startedMs
              && (p.decision == Accept ==> p.unresolvedIds == [])
              && (p.decision == Reject ==> p.unresolvedIds != [] || p.material != [] || p.nonMaterial != [])
  {
    VerdictOnMachine(m, boundary, c, st, e);
    ResolvesIff(st.unresolved, e.body.material);
    SameStringsIsPermutation(e.body.evidence, Evidence(ValidationsOf(st, e.body.review.attemptId)));
    hide Admits, SameStrings, NextUnresolved, Evidence, ValidationsOf, ResolvesOpen, ApplyFindings, EvidenceFor, OpenFindings, Inv;
    if st.phase.Some? && st.phase.value.Reviewing? { VerdictMirrored(m, boundary, c, st, l); }
  }

  /** Where a verdict leads: to acceptance, to the next attempt, by way of escalation in the adaptive arm, or to failure. */
  lemma VerdictLeads(n: Round, p: Payload, route: Route)
    requires p.ReviewCompleted?
    ensures p.decision == Accept ==> NextPhase(Some(Reviewing(n)), p, route) == Some(ReadyAccept)
    ensures p.decision == Reject && n == 1 ==> NextPhase(Some(Reviewing(n)), p, route) == Some(Ready(2))
    ensures p.decision == Reject && n == 2 ==>
              NextPhase(Some(Reviewing(n)), p, route) ==
              Some(if route == Some(AdaptiveEscalation) then EscalationRequired else Ready(3))
    ensures p.decision == Reject && n == 3 ==> NextPhase(Some(Reviewing(n)), p, route) == Some(ReadyFail)
  {
  }

  /** The evidence recorded for an attempt is that of its checks, one after the other. */
  lemma EvidenceOfNext(checks: seq<Check>, check: Check, id: string)
    ensures EvidenceFor([], id) == []
    ensures EvidenceFor(checks + [check], id) == EvidenceFor(checks, id) + if check.attemptId == id then check.evidence else []
  {
    assert (checks + [check])[..|checks|] == checks;
  }

  /** The findings open after a verdict are those open before it, as its material findings change them. */
  lemma OpenOfNext(verdicts: seq<Verdict>, v: Verdict)
    ensures OpenFindings([]) == {} && OpenFindings(verdicts + [v]) == ApplyFindings(OpenFindings(verdicts), v.material)
  {
    assert (verdicts + [v])[..|verdicts|] == verdicts;
  }

  // ---- Escalation and the end ------------------------------------------------------------

  lemma EscalationOnMachine(m: Manifest, boundary: Event -> string, c: Context, st: Machine, e: Event)
    requires e.body.EscalationDecided?
    ensures Admits(m, boundary, c, st, e) <==>
              && st.phase == Some(EscalationRequired) && c.route == Some(AdaptiveEscalation)
              && st.rejectedReviewEventId == Some(e.body.rejectedReviewEventId)
              && Bound(m, e.body.targetBinding, Strong) && e.body.targetCapability == Strong
              && e.body.policyVersion == m.routingPolicyVersion
    ensures Admits(m, boundary, c, st, e) ==> NextPhase(st.phase, e.body, c.route) == Some(Ready(3))
  {
    hide Bound;
  }

  lemma EscalationMirrored(m: Manifest, boundary: Event -> string, c: Context, st: Machine, l: Ledger)
    requires Inv(m, boundary, c, st, l) && st.phase == Some(EscalationRequired)
    ensures c.route == Some(AdaptiveEscalation) && |l.verdicts| == 2 && st.rejectedReviewEventId == Some(l.verdicts[1].event.eventId)
  {
    hide Rules, AttemptKeys, Records, ReviewKeys, EvidenceKept, ExecutorSet, ReviewerSet, OpenFindings;
    hide CurrentAttempt, CurrentCompletion, CurrentReview, PreviousReview, AcceptedReview, EscalationTarget;
  }

  /** The adaptive arm escalates exactly after its second rejection, citing it, to a binding registered as strong. */
  lemma EscalationIff(m: Manifest, boundary: Event -> string, c: Context, st: Machine, l: Ledger, e: Event)
    requires Inv(m, boundary, c, st, l) && e.body.EscalationDecided?
    ensures Admits(m, boundary, c, st, e) <==>
              && st.phase == Some(EscalationRequired) && |l.verdicts| == 2
              && e.body.rejectedReviewEventId == l.verdicts[1].event.eventId
              && Registered(m.bindings, e.body.targetBinding, Strong) && e.body.targetCapability == Strong
              && e.body.policyVersion == m.routingPolicyVersion
    ensures Admits(m, boundary, c, st, e) ==> NextPhase(st.phase, e.body, c.route) == Some(Ready(3))
  {
    EscalationOnMachine(m, boundary, c, st, e);
    FoundBinding(m.bindings, e.body.targetBinding, Strong);
    hide Inv, Admits, Registered, FindBinding, NextPhase;
    if st.phase == Some(EscalationRequired) { EscalationMirrored(m, boundary, c, st, l); }
  }

  /** What the variables of a machine after acceptance say about the ledger. */
  lemma AcceptedMirrored(m: Manifest, boundary: Event -> string, c: Context, st: Machine, l: Ledger)
    requires Inv(m, boundary, c, st, l) && st.phase.Some? && (st.phase.value.ReadyAccept? || st.phase.value.Accepted?)
    ensures |l.verdicts| == |l.dones| > 0 && st.acceptedReview.Some? && st.acceptedReview.value.body.ReviewCompleted?
    ensures st.acceptedReview.value.body.review.reviewId == l.verdicts[|l.verdicts| - 1].owner.reviewId
    ensures st.acceptedReview.value.body.toRevision == l.dones[|l.dones| - 1].revision
    ensures st.acceptedCompletion.Some? && st.acceptedCompletion.value.body.ExecutionCompleted?
    ensures st.acceptedCompletion.value.body.outputRevision == l.dones[|l.dones| - 1].revision
    ensures st.acceptedCompletion.value.body.outputTreeHash == l.dones[|l.dones| - 1].tree
  {
    hide Rules, AttemptKeys, Records, ReviewKeys, EvidenceKept, EscalationTarget, RejectedReview;
    hide ExecutorSet, ReviewerSet, OpenFindings, CurrentAttempt, CurrentCompletion, CurrentReview, PreviousReview;
    if l.verdicts != [] { LastVerdictCovers(m, boundary, c, l); }
  }

  lemma LastVerdictCovers(m: Manifest, boundary: Event -> string, c: Context, l: Ledger)
    requires Rules(m, boundary, c, l) && l.verdicts != []
    ensures |l.verdicts| <= |l.dones| && l.verdicts[|l.verdicts| - 1].toRevision == l.dones[|l.verdicts| - 1].revision
  {
    hide RouteOk, Independent, DistinctAttempts, Capabilities, ReviewOrder, Escalated, RevisionChain;
    assert VerdictOk(boundary, l, |l.verdicts| - 1);
  }

  /** A block is accepted exactly after an accepting verdict, with the revision and the tree of the last attempt. */
  lemma AcceptanceIff(m: Manifest, boundary: Event -> string, c: Context, st: Machine, l: Ledger, e: Event)
    requires Inv(m, boundary, c, st, l) && e.body.BlockAccepted?
    ensures Admits(m, boundary, c, st, e) <==>
              && st.phase == Some(ReadyAccept) && l.dones != []
              && e.body.acceptedRevision == l.dones[|l.dones| - 1].revision && e.body.acceptedTreeHash == l.dones[|l.dones| - 1].tree
    ensures Admits(m, boundary, c, st, e) ==> NextPhase(st.phase, e.body, c.route) == Some(Accepted)
  {
    hide Inv;
    if st.phase == Some(ReadyAccept) { AcceptedMirrored(m, boundary, c, st, l); }
  }

  /** A defect is recorded exactly against an accepted block, naming the accepting review and its revision. */
  lemma DefectIff(m: Manifest, boundary: Event -> string, c: Context, st: Machine, l: Ledger, e: Event)
    requires Inv(m, boundary, c, st, l) && e.body.DefectRecorded?
    ensures Admits(m, boundary, c, st, e) <==>
              && st.phase == Some(Accepted) && l.verdicts != [] && l.dones != []
              && e.body.acceptedReviewId == l.verdicts[|l.verdicts| - 1].owner.reviewId
              && e.body.affectedRevision == l.dones[|l.dones| - 1].revision
    ensures Admits(m, boundary, c, st, e) ==> NextPhase(st.phase, e.body, c.route) == Some(Accepted)
  {
    hide Inv;
    if st.phase == Some(Accepted) { AcceptedMirrored(m, boundary, c, st, l); }
  }

  /** A block fails exactly after the third rejection, and is blocked from any state but the three last. */
  lemma EndIff(m: Manifest, boundary: Event -> string, c: Context, st: Machine, e: Event)
    ensures e.body.BlockFailed? ==> (Admits(m, boundary, c, st, e) <==> st.phase == Some(ReadyFail))
    ensures e.body.BlockFailed? && Admits(m, boundary, c, st, e) ==> NextPhase(st.phase, e.body, c.route) == Some(Failed)
    ensures e.body.BlockBlocked? ==>
              (Admits(m, boundary, c, st, e) <==> st.phase.Some? && st.phase.value !in {Accepted, Failed, Blocked})
    ensures e.body.BlockBlocked? && Admits(m, boundary, c, st, e) ==> NextPhase(st.phase, e.body, c.route) == Some(Blocked)
    ensures e.body.EventInvalidated? ==> !Admits(m, boundary, c, st, e)
  {
  }

  // ---- Operations, usage and rework ------------------------------------------------------

  /** An orchestrator operation is taken before the end, under an identifier not used before, on a registered binding. */
  lemma OperationIff(m: Manifest, boundary: Event -> string, c: Context, st: Machine, e: Event)
    requires e.body.OrchestratorOperation?
    ensures Admits(m, boundary, c, st, e) <==>
              && st.phase.Some? && st.phase.value !in {Accepted, Failed, Blocked}
              && e.body.operationId !in st.operations
              && (exists capability :: Registered(m.bindings, e.body.operationBinding, capability))
    ensures Admits(m, boundary, c, st, e) ==> NextPhase(st.phase, e.body, c.route) == st.phase
  {
    KnownBinding(m.bindings, e.body.operationBinding);
    hide FindBinding, Registered;
  }

  lemma KnownBinding(bindings: seq<Binding>, ref: string)
    ensures FindBinding(bindings, ref).Some? <==> exists capability :: Registered(bindings, ref, capability)
  {
    if FindBinding(bindings, ref).Some? {
      FoundBinding(bindings, ref, FindBinding(bindings, ref).value.capability);
    }
    if capability :| Registered(bindings, ref, capability) {
      FoundBinding(bindings, ref, capability);
    }
  }

  /** Rework is reported while a review's window is open, for the attempt that review examined. */
  lemma ReworkIff(m: Manifest, boundary: Event -> string, c: Context, st: Machine, e: Event)
    requires e.body.ParentRework?
    ensures Admits(m, boundary, c, st, e) <==>
              var id := e.body.reworkReview;
              && st.phase.Some? && st.phase.value !in {Accepted, Failed, Blocked}
              && id in st.reviews && st.reviews[id].windowOpen && st.reviews[id].completed.Some?
              && st.reviews[id].completed.value.body.ReviewCompleted?
              && st.reviews[id].completed.value.body.review.attemptId == e.body.attemptId
              && e.body.attemptId in st.attempts && st.attempts[e.body.attemptId].completed.Some?
    ensures Admits(m, boundary, c, st, e) ==> NextPhase(st.phase, e.body, c.route) == st.phase
  {
  }

  lemma UsageOnMachine(m: Manifest, st: Machine, e: Event)
    requires e.body.UsageRecorded?
    ensures RecordUsage(m, st, e).Ok? <==>
              var p := e.body;
              && FindBinding(m.bindings, p.usageBinding).Some?
              && p.pricingSnapshotId == m.pricingSnapshotId && p.currency == m.currency
              && (p.role == Orchestrator ==> p.ownerOperation.Some?)
              && (p.ownerOperation.Some? ==>
                    && p.ownerOperation.value in st.operations && st.openOperation == Some(st.operations[p.ownerOperation.value])
                    && var operation := st.operations[p.ownerOperation.value].body;
                    && operation.OrchestratorOperation? && p.role == Orchestrator
                    && p.usageBinding == operation.operationBinding && p.attemptNumber == operation.attemptNumber)
              && (p.ownerAttempt.Some? ==>
                    && AcceptsEvidence(st, p.ownerAttempt.value) && p.role == Executor
                    && var completion := st.attempts[p.ownerAttempt.value].completed.value.body;
                    && completion.ExecutionCompleted?
                    && p.usageBinding == completion.attempt.bindingRef && p.attemptNumber == completion.attempt.number)
              && (p.ownerReview.Some? ==>
                    && p.ownerReview.value in st.reviews && st.reviews[p.ownerReview.value].windowOpen
                    && st.reviews[p.ownerReview.value].completed.Some?
                    && var review := st.reviews[p.ownerReview.value].completed.value.body;
                    && review.ReviewCompleted? && p.role == Reviewer
                    && p.usageBinding == review.review.bindingRef && p.attemptNumber == review.review.round)
  {
    hide FindBinding;
  }

  lemma UsageMoves(m: Manifest, boundary: Event -> string, c: Context, st: Machine, e: Event)
    requires e.body.UsageRecorded?
    ensures Admits(m, boundary, c, st, e) <==>
              st.phase.Some? && st.phase.value !in {Accepted, Failed, Blocked} && RecordUsage(m, Tick(st, e), e).Ok?
    ensures Tick(st, e) == st.(previousAt := e.occurredAt)
    ensures Admits(m, boundary, c, st, e) ==> NextPhase(st.phase, e.body, c.route) == st.phase
  {
    hide RecordUsage;
  }

  /**
   Usage is taken before the end, on a registered binding under the manifest's prices, and for each owner it names only
   while that owner's window is open, in the owner's role, on its binding and under its number.
   */
  lemma UsageIff(m: Manifest, boundary: Event -> string, c: Context, st: Machine, l: Ledger, e: Event)
    requires Inv(m, boundary, c, st, l) && e.body.UsageRecorded?
    ensures Admits(m, boundary, c, st, e) <==>
              var p := e.body;
              && st.phase.Some? && st.phase.value !in {Accepted, Failed, Blocked}
              && (exists capability :: Registered(m.bindings, p.usageBinding, capability))
              && p.pricingSnapshotId == m.pricingSnapshotId && p.currency == m.currency
              && (p.role == Orchestrator ==> p.ownerOperation.Some?)
              && (p.ownerOperation.Some? ==>
                    && p.ownerOperation.value in st.operations && st.openOperation == Some(st.operations[p.ownerOperation.value])
                    && var operation := st.operations[p.ownerOperation.value].body;
                    && operation.OrchestratorOperation? && p.role == Orchestrator
                    && p.usageBinding == operation.operationBinding && p.attemptNumber == operation.attemptNumber)
              && (p.ownerAttempt.Some? ==>
                    var n := |l.starts|;
                    && n > 0 && |l.dones| == n && |l.reviewStarts| == n - 1 && p.ownerAttempt.value == l.starts[n - 1].attemptId
                    && p.role == Executor && p.usageBinding == l.starts[n - 1].bindingRef && p.attemptNumber == l.starts[n - 1].number)
              && (p.ownerReview.Some? ==>
                    && p.ownerReview.value in st.reviews && st.reviews[p.ownerReview.value].windowOpen
                    && st.reviews[p.ownerReview.value].completed.Some?
                    && var review := st.reviews[p.ownerReview.value].completed.value.body;
                    && review.ReviewCompleted? && p.role == Reviewer
                    && p.usageBinding == review.review.bindingRef && p.attemptNumber == review.review.round)
    ensures Admits(m, boundary, c, st, e) ==> NextPhase(st.phase, e.body, c.route) == st.phase
  {
    KnownBinding(m.bindings, e.body.usageBinding);
    UsageMoves(m, boundary, c, st, e);
    UsageOnMachine(m, Tick(st, e), e);
    assert e.body.ownerAttempt.Some? ==>
        AcceptsEvidence(Tick(st, e), e.body.ownerAttempt.value) == AcceptsEvidence(st, e.body.ownerAttempt.value);
    if e.body.ownerAttempt.Some? { UsageAttempt(m, boundary, c, st, l, e.body.ownerAttempt.value); }
    hide Inv, FindBinding, Registered, AcceptsEvidence, RecordUsage, Admits, NextPhase;
  }

  /** The attempt that may receive usage is the last, and its completion carries its particulars. */
  lemma UsageAttempt(m: Manifest, boundary: Event -> string, c: Context, st: Machine, l: Ledger, id: string)
    requires Inv(m, boundary, c, st, l)
    ensures AcceptsEvidence(st, id) <==>
              var n := |l.starts|; n > 0 && |l.dones| == n && |l.reviewStarts| == n - 1 && id == l.starts[n - 1].attemptId
    ensures AcceptsEvidence(st, id) ==>
              st.attempts[id].completed.value.body.ExecutionCompleted?
              && st.attempts[id].completed.value.body.attempt == l.starts[|l.starts| - 1]
  {
    AcceptsIff(m, boundary, c, st, l, id);
    if AcceptsEvidence(st, id) {
      CompletedRecord(m, boundary, c, st, l);
    }
    hide Inv;
  }

  lemma CompletedRecord(m: Manifest, boundary: Event -> string, c: Context, st: Machine, l: Ledger)
    requires Inv(m, boundary, c, st, l) && l.starts != [] && |l.dones| == |l.starts|
    ensures var id := l.starts[|l.starts| - 1].attemptId;
            && id in st.attempts && st.attempts[id].completed.Some? && st.attempts[id].completed.value.body.ExecutionCompleted?
            && st.attempts[id].completed.value.body.attempt == l.starts[|l.starts| - 1]
  {
    Owners(c, l.starts, l.dones);
    assert RecordOf(st.attempts, l.starts, l.dones, |l.reviewStarts|, |l.starts| - 1);
    hide Rules, Mirrors, Reaches;
  }

  // ---- Capabilities in valid replays -----------------------------------------------------

  /**
   In every valid replay each attempt has the capability its block's arm prescribes, on a binding registered with it:
   strong for the baseline and for direct work, cheap without escalation, and for the adaptive arm strong in the third only.
   */
  lemma CapabilitiesOfArms(m: Manifest, boundary: Event -> string, k: EventStore.Checks, log: seq<Event>)
    requires BlockOutcome(m, boundary, k, log).Valid?
    ensures log != []
    ensures var id := log[0].blockId;
            forall i | 0 <= i < |LedgerOfLog(log, id).starts| ::
              var a, arm := LedgerOfLog(log, id).starts[i], FindArm(m.assignments, id);
              && Registered(m.bindings, a.bindingRef, a.capability) && a.number == i + 1
              && (arm.None? || arm == Some(StrongBaseline) ==> a.capability == Strong)
              && (arm == Some(CheapNoEscalation) ==> a.capability == Cheap)
              && (arm == Some(AdaptiveEscalation) ==> a.capability == if i == 2 then Strong else Cheap)
  {
    hide BlockOutcome, RouteOk, Registered, FindArm, FindBlock, LedgerOfLog;
    hide DistinctAttempts, ReviewOrder, Verdicts, Independent, Escalated, Reaches;
    ValidReplayObeysRules(m, boundary, k, log);
    var id := log[0].blockId;
    var c, l := ContextOf(m, id), LedgerOfLog(log, id);
    assert c.route == FindArm(m.assignments, id);
    forall i | 0 <= i < |l.starts|
      ensures RouteOk(m, c.route, l.starts[i]) && l.starts[i].number == i + 1
    {
    }
    forall i | 0 <= i < |l.starts| { RouteIs(m, c.route, l.starts[i]); }
  }
}
