/**
 Replay of one pilot block (src/pilot/state-machine.ts): the transition table, the guards and the
 evidence bookkeeping, as one step function over the replay's variables and a left fold.
 */
module StateMachine {
  import opened Prelude
  import opened PilotEvents
  import opened Sorting
  import EventStore

  // ---- States ----------------------------------------------------------------------

  type Round = n: int | 1 <= n <= 3 witness 1

  /** The block states; `ReadyReview(3)` and `Reviewing(3)` are the final review's. */
  datatype Phase =
    | Planned | Assigned
    | Ready(n: Round) | Executing(n: Round) | ReadyReview(n: Round) | Reviewing(n: Round)
    | EscalationRequired | ReadyAccept | ReadyFail
    | Accepted | Failed | Blocked

  predicate Terminal(p: Phase) { p.Accepted? || p.Failed? || p.Blocked? }

  /** The assigned arm, or none for the direct strong route. */
  type Route = Option<Arm>

  datatype Context = Context(block: Block, route: Route)

  datatype Attempt = Attempt(started: Event, completed: Option<Event>, reviewStarted: bool)
  datatype Review = Review(started: Event, completed: Option<Event>, windowOpen: bool)

  /** The variables the replay loop updates. */
  datatype Machine = Machine(
    phase: Option<Phase>, previousAt: Option<int>,
    currentAttempt: Option<Event>, currentCompletion: Option<Event>,
    currentReview: Option<Event>, previousReview: Option<Event>,
    acceptedReview: Option<Event>, acceptedCompletion: Option<Event>,
    rejectedReviewEventId: Option<string>, escalationTarget: Option<string>,
    attempts: map<string, Attempt>, reviews: map<string, Review>, validations: map<string, seq<Event>>,
    operations: map<string, Event>, openOperation: Option<Event>,
    executorSessions: set<string>, reviewerSessions: set<string>, unresolved: set<string>)

  const Start := Machine(
    None, None, None, None, None, None, None, None, None, None,
    map[], map[], map[], map[], None, {}, {}, {})

  // ---- Manifest lookups ------------------------------------------------------------

  function FindBlock(blocks: seq<Block>, id: string): Option<Block> {
    if blocks == [] then None else if blocks[0].blockId == id then Some(blocks[0]) else FindBlock(blocks[1..], id)
  }

  function FindArm(assignments: seq<Assignment>, id: string): Route {
    if assignments == [] then None
    else if assignments[0].blockId == id then Some(assignments[0].arm)
    else FindArm(assignments[1..], id)
  }

  function FindBinding(bindings: seq<Binding>, ref: string): Option<Binding> {
    if bindings == [] then None else if bindings[0].bindingRef == ref then Some(bindings[0]) else FindBinding(bindings[1..], ref)
  }

  predicate Bound(m: Manifest, ref: string, c: Capability) {
    var b := FindBinding(m.bindings, ref);
    b.Some? && b.value.capability == c
  }

  predicate SameIdentity(b: Block, e: Event) {
    e.taskId == b.taskId && e.stratum == b.stratum && e.tripletId == b.tripletId && e.fingerprint == b.fingerprint
  }

  function BlockContext(m: Manifest, e: Event): Result<Context> {
    if e.pilotId != m.pilotId || e.manifestHash != m.manifestHash then Err("MANIFEST_MISMATCH")
    else
      var block := FindBlock(m.blocks, e.blockId);
      if block.None? then Err("UNKNOWN_BLOCK")
      else
        var b, route := block.value, FindArm(m.assignments, e.blockId);
        if route.None? && (b.comparative || e.arm.Some? || b.initialCapability != Strong || b.finalCapability != Strong)
        then Err("ARM_MISMATCH")
        else if route.Some? && e.arm != route then Err("ARM_MISMATCH")
        else if !SameIdentity(b, e) then Err("BLOCK_IDENTITY_MISMATCH")
        else Ok(Context(b, route))
  }

  // ---- Transition table and guards -------------------------------------------------

  function RouteFor(route: Route, attempt: int): Capability {
    match route
    case None => Strong
    case Some(StrongBaseline) => Strong
    case Some(CheapNoEscalation) => Cheap
    case Some(AdaptiveEscalation) => if attempt == 3 then Strong else Cheap
  }

  function KindFor(n: Round): AttemptKind {
    if n == 1 then Implementation else if n == 2 then Repair else FinalExecution
  }

  /** The transition rows: the state an event leads to, if a row matches. */
  function NextPhase(phase: Option<Phase>, p: Payload, route: Route): Option<Phase> {
    match phase
    case None => if p.BlockPlanned? then Some(Planned) else None
    case Some(state) =>
      match p
      case ArmAssigned(_, _) => if state.Planned? then Some(Assigned) else None
      case IsolationAttested(_, _, _, _, _, _) =>
        if state.Assigned? || (state.Planned? && route.None?) then Some(Ready(1)) else None
      case ExecutionStarted(_) => if state.Ready? then Some(Executing(state.n)) else None
      case ExecutionCompleted(_, _, _, _, _, _, _, _) => if state.Executing? then Some(ReadyReview(state.n)) else None
      case ReviewStarted(_) => if state.ReadyReview? then Some(Reviewing(state.n)) else None
      case ReviewCompleted(_, _, _, _, _, _, _, _, _, _, decision, _, _) =>
        if !state.Reviewing? then None
        else if decision.Accept? then Some(ReadyAccept)
        else if state.n == 1 then Some(Ready(2))
        else if state.n == 3 then Some(ReadyFail)
        else if route == Some(AdaptiveEscalation) then Some(EscalationRequired)
        else Some(Ready(3))
      case EscalationDecided(_, _, _, _) =>
        if state.EscalationRequired? && route == Some(AdaptiveEscalation) then Some(Ready(3)) else None
      case BlockAccepted(_, _) => if state.ReadyAccept? then Some(Accepted) else None
      case BlockFailed => if state.ReadyFail? then Some(Failed) else None
      case BlockBlocked => if Terminal(state) then None else Some(Blocked)
      case DefectRecorded(_, _) => if state.Accepted? then Some(Accepted) else None
      case OrchestratorOperation(_, _, _) => if Terminal(state) then None else phase
      case UsageRecorded(_, _, _, _, _, _, _, _) => if Terminal(state) then None else phase
      case ValidationRecorded(_, _, _, _, _) => if Terminal(state) then None else phase
      case ParentRework(_, _) => if Terminal(state) then None else phase
      case BlockPlanned(_) => None
      case EventInvalidated(_, _) => None
  }

  predicate ValidDuration(started: int, finished: int, duration: int) {
    finished >= started && duration == finished - started
  }

  predicate TreeReproduced(m: Manifest, p: Payload)
    requires p.ExecutionCompleted?
  {
    p.treeAlgorithmVersion == m.treeAlgorithmVersion && p.volatilePathsHash == m.volatilePathsHash && p.reproduced
  }

  predicate RouteOk(m: Manifest, route: Route, a: AttemptOwner) {
    var c := RouteFor(route, a.number);
    a.capability == c && Bound(m, a.bindingRef, c)
  }

  /** `assertTransitionGuard`; `boundary` is the canonical hash of a completed review's boundary fields. */
  predicate GuardOk(m: Manifest, boundary: Event -> string, phase: Option<Phase>, e: Event, c: Context) {
    match e.body
    case BlockPlanned(hash) => hash == c.block.contractHash
    case ArmAssigned(arm, version) => c.route == Some(arm) && version == m.assignmentVersion
    case IsolationAttested(_, base, cleanTree, clean, observed, version) =>
      && base == c.block.baseRevision && cleanTree == c.block.cleanTreeHash
      && version == m.isolationPolicyVersion && clean && observed == cleanTree
    case ExecutionStarted(a) =>
      phase.Some? && phase.value.Ready? && a.number == phase.value.n && a.kind == KindFor(phase.value.n) && RouteOk(m, c.route, a)
    case ExecutionCompleted(a, _, _, _, _, _, finished, duration) =>
      && a.number == (if phase.Some? && phase.value.Executing? then phase.value.n else 0)
      && RouteOk(m, c.route, a) && ValidDuration(a.startedMs, finished, duration) && TreeReproduced(m, e.body)
    case ReviewStarted(r) =>
      && r.round == (if phase.Some? && phase.value.ReadyReview? then phase.value.n else 0)
      && r.bindingRef == m.reviewerBinding && r.session != r.executorSession
    case ReviewCompleted(r, _, _, boundaryHash, _, _, unresolved, _, material, nonMaterial, decision, finished, duration) =>
      && ValidDuration(r.startedMs, finished, duration) && boundaryHash == boundary(e)
      && (decision.Accept? ==> unresolved == [])
      && (decision.Reject? ==> unresolved != [] || material != [] || nonMaterial != [])
    case EscalationDecided(_, target, capability, version) =>
      Bound(m, target, Strong) && capability.Strong? && version == m.routingPolicyVersion
    case _ => true
  }

  /** `transitionChecked`. */
  function Transition(m: Manifest, boundary: Event -> string, phase: Option<Phase>, e: Event, c: Context): Result<Phase> {
    if e.body.EventInvalidated? then Err("INVALIDATION_NOT_PROJECTED")
    else
      var next := NextPhase(phase, e.body, c.route);
      if next.None? then Err(if phase.Some? && Terminal(phase.value) then "CONFLICTING_TERMINAL" else "ILLEGAL_EVENT_STATE_PAIR")
      else if !GuardOk(m, boundary, phase, e, c) then Err("GUARD_FAILED")
      else Ok(next.value)
  }

  // ---- Evidence bookkeeping --------------------------------------------------------

  /** `sameStrings`: equal after sorting. */
  predicate SameStrings(a: seq<string>, b: seq<string>) {
    |a| == |b| && Sort(a, StringLe) == Sort(b, StringLe)
  }

  lemma SameStringsIsPermutation(a: seq<string>, b: seq<string>)
    ensures SameStrings(a, b) <==> multiset(a) == multiset(b)
  {
    SortPermutes(a, StringLe);
    SortPermutes(b, StringLe);
    if multiset(a) == multiset(b) {
      SameMembers(a, b);
      StringOrder();
      SortCanonical(a, b, StringLe);
    }
  }

  /** The open findings after one review's material findings; none when a finding is resolved that was not open. */
  function NextUnresolved(open: set<string>, findings: seq<Finding>): Option<set<string>>
    decreases |findings|
  {
    if findings == [] then Some(open)
    else
      var f := findings[0];
      if f.open then NextUnresolved(open + {f.findingId}, findings[1..])
      else if f.findingId in open then NextUnresolved(open - {f.findingId}, findings[1..])
      else None
  }

  function Evidence(validations: seq<Event>): seq<string> {
    if validations == [] then []
    else
      var last := validations[|validations| - 1];
      Evidence(validations[..|validations| - 1]) + if last.body.ValidationRecorded? then last.body.evidence else []
  }

  function ValidationsOf(st: Machine, attemptId: string): seq<Event> {
    if attemptId in st.validations then st.validations[attemptId] else []
  }

  function RecordStart(c: Context, st: Machine, e: Event): Result<Machine>
    requires e.body.ExecutionStarted?
  {
    var a := e.body.attempt;
    var expected :=
      if a.number == 1 then Some(c.block.baseRevision)
      else if st.previousReview.Some? && st.previousReview.value.body.ReviewCompleted? then Some(st.previousReview.value.body.toRevision)
      else None;
    if a.attemptId in st.attempts || a.number > 3 then Err("ATTEMPT_ID_OR_CEILING_INVALID")
    else if expected.None? || expected.value == "" || a.inputRevision != expected.value then Err("INPUT_REVISION_CHAIN_INVALID")
    else if a.session in st.executorSessions || a.session in st.reviewerSessions then Err("EXECUTOR_SESSION_REUSED")
    else if c.route == Some(AdaptiveEscalation) && a.number == 3 && st.escalationTarget != Some(a.bindingRef)
    then Err("ESCALATION_TARGET_BINDING_MISMATCH")
    else Ok(st.(
      executorSessions := st.executorSessions + {a.session},
      currentAttempt := Some(e), currentCompletion := None,
      attempts := st.attempts[a.attemptId := Attempt(e, None, false)]))
  }

  function RecordCompletion(m: Manifest, st: Machine, e: Event): Result<Machine>
    requires e.body.ExecutionCompleted?
  {
    var a := e.body.attempt;
    if st.currentAttempt.None? || !st.currentAttempt.value.body.ExecutionStarted?
       || st.currentAttempt.value.body.attempt.attemptId != a.attemptId
    then Err("COMPLETION_ATTEMPT_MISMATCH")
    else if st.currentAttempt.value.body.attempt != a then Err("COMPLETION_OWNERSHIP_MISMATCH")
    else if !TreeReproduced(m, e.body) then Err("TREE_REPRODUCTION_INVALID")
    else if a.attemptId !in st.attempts then Err("TypeError")
    else Ok(st.(
      attempts := st.attempts[a.attemptId := st.attempts[a.attemptId].(completed := Some(e))],
      currentCompletion := Some(e)))
  }

  /** The attempt may still receive evidence: it is complete and its review has not started. */
  predicate AcceptsEvidence(st: Machine, attemptId: string) {
    attemptId in st.attempts && st.attempts[attemptId].completed.Some? && !st.attempts[attemptId].reviewStarted
  }

  function RecordValidation(c: Context, st: Machine, e: Event): Result<Machine>
    requires e.body.ValidationRecorded?
  {
    var p := e.body;
    if !AcceptsEvidence(st, p.attemptId) then Err("ORPHAN_OR_MISORDERED_VALIDATION")
    else if exists s | s in p.surface :: s !in c.block.validationSurface then Err("VALIDATION_SURFACE_INVALID")
    else if p.passed != (p.testsFailing == 0) then Err("VALIDATION_TEST_COUNTS_INCONSISTENT")
    else Ok(st.(validations := st.validations[p.attemptId := ValidationsOf(st, p.attemptId) + [e]]))
  }

  function RecordReviewStart(st: Machine, e: Event): Result<Machine>
    requires e.body.ReviewStarted?
  {
    var r := e.body.review;
    if r.attemptId !in st.attempts || st.attempts[r.attemptId].completed.None?
       || st.attempts[r.attemptId].completed != st.currentCompletion
       || !st.currentCompletion.value.body.ExecutionCompleted?
       || r.executorSession != st.currentCompletion.value.body.attempt.session
    then Err("REVIEW_ATTEMPT_REFERENCE_INVALID")
    else if r.reviewId in st.reviews || r.session in st.executorSessions || r.session in st.reviewerSessions
    then Err("REVIEW_SESSION_OR_ID_INVALID")
    else Ok(st.(
      attempts := st.attempts[r.attemptId := st.attempts[r.attemptId].(reviewStarted := true)],
      reviewerSessions := st.reviewerSessions + {r.session},
      currentReview := Some(e),
      reviews := st.reviews[r.reviewId := Review(e, None, false)]))
  }

  function RecordReview(c: Context, st: Machine, e: Event): Result<Machine>
    requires e.body.ReviewCompleted?
  {
    var p := e.body;
    var r := p.review;
    if st.currentReview.None? || !st.currentReview.value.body.ReviewStarted?
       || st.currentReview.value.body.review.reviewId != r.reviewId
    then Err("REVIEW_COMPLETION_OWNER_INVALID")
    else if st.currentReview.value.body.review != r then Err("REVIEW_COMPLETION_OWNERSHIP_MISMATCH")
    else if r.attemptId !in st.attempts || st.attempts[r.attemptId].completed.None?
            || !st.attempts[r.attemptId].completed.value.body.ExecutionCompleted?
    then Err("ORPHAN_REVIEW")
    else
      var completion := st.attempts[r.attemptId].completed.value;
      var previous := st.previousReview;
      var expectedFrom :=
        if r.round == 1 then Some(c.block.baseRevision)
        else if previous.Some? && previous.value.body.ReviewCompleted? then Some(previous.value.body.toRevision)
        else None;
      var previousBoundaryOk :=
        if r.round == 1 then p.previousBoundary.None?
        else previous.Some? && previous.value.body.ReviewCompleted? && p.previousBoundary == Some(previous.value.body.boundaryHash);
      if expectedFrom != Some(p.fromRevision) || p.toRevision != completion.body.outputRevision || !previousBoundaryOk
      then Err("REVIEW_BOUNDARY_CHAIN_INVALID")
      else if !SameStrings(p.evidence, Evidence(ValidationsOf(st, r.attemptId))) then Err("VALIDATION_EVIDENCE_MISMATCH")
      else if exists f | f in p.material :: !f.material then Err("MATERIAL_FINDING_FLAG_INVALID")
      else
        var next := NextUnresolved(st.unresolved, p.material);
        if next.None? then Err("ORPHAN_FINDING_RESOLUTION")
        else if exists f | f in p.nonMaterial :: f.material then Err("NON_MATERIAL_FINDING_FLAG_INVALID")
        else if multiset(p.unresolvedIds) != multiset(next.value) then Err("UNRESOLVED_FINDING_RETENTION_INVALID")
        else if r.reviewId !in st.reviews then Err("TypeError")
        else
          var done := st.(
            unresolved := next.value,
            reviews := st.reviews[r.reviewId := st.reviews[r.reviewId].(completed := Some(e), windowOpen := true)],
            previousReview := Some(e), currentReview := None);
          Ok(if p.decision.Reject? then done.(rejectedReviewEventId := Some(e.eventId))
             else done.(acceptedReview := Some(e), acceptedCompletion := Some(completion)))
  }

  function RecordOperation(m: Manifest, st: Machine, e: Event): Result<Machine>
    requires e.body.OrchestratorOperation?
  {
    if e.body.operationId in st.operations then Err("ORCHESTRATOR_OPERATION_ID_REUSED")
    else if FindBinding(m.bindings, e.body.operationBinding).None? then Err("ORCHESTRATOR_OPERATION_BINDING_INVALID")
    else Ok(st.(operations := st.operations[e.body.operationId := e], openOperation := Some(e)))
  }

  /** Ownership of a usage record by an open operation, an attempt awaiting review, or a review whose window is open. */
  function RecordUsage(m: Manifest, st: Machine, e: Event): Result<Machine>
    requires e.body.UsageRecorded?
  {
    var p := e.body;
    if FindBinding(m.bindings, p.usageBinding).None? || p.pricingSnapshotId != m.pricingSnapshotId || p.currency != m.currency
    then Err("USAGE_POLICY_INVALID")
    else if p.ownerOperation.Some? &&
            (p.ownerOperation.value !in st.operations || st.openOperation != Some(st.operations[p.ownerOperation.value]))
    then Err("ORPHAN_OR_MISORDERED_USAGE_ORCHESTRATOR_OPERATION")
    else if p.ownerOperation.Some? &&
            var operation := st.operations[p.ownerOperation.value].body;
            !p.role.Orchestrator? || !operation.OrchestratorOperation?
            || p.usageBinding != operation.operationBinding || p.attemptNumber != operation.attemptNumber
    then Err("ORCHESTRATOR_USAGE_OWNERSHIP_MISMATCH")
    else if p.ownerOperation.None? && p.role.Orchestrator? then Err("ORCHESTRATOR_USAGE_OWNER_INVALID")
    else if p.ownerAttempt.Some? && !AcceptsEvidence(st, p.ownerAttempt.value) then Err("ORPHAN_OR_MISORDERED_USAGE_ATTEMPT")
    else if p.ownerAttempt.Some? &&
            var completion := st.attempts[p.ownerAttempt.value].completed.value.body;
            !p.role.Executor? || !completion.ExecutionCompleted?
            || p.usageBinding != completion.attempt.bindingRef || p.attemptNumber != completion.attempt.number
    then Err("ATTEMPT_USAGE_OWNERSHIP_MISMATCH")
    else if p.ownerReview.Some? && !WindowOpen(st, p.ownerReview.value) then Err("ORPHAN_OR_MISORDERED_USAGE_REVIEW")
    else if p.ownerReview.Some? &&
            var review := st.reviews[p.ownerReview.value].completed.value.body;
            !p.role.Reviewer? || !review.ReviewCompleted?
            || p.usageBinding != review.review.bindingRef || p.attemptNumber != review.review.round
    then Err("REVIEW_USAGE_OWNERSHIP_MISMATCH")
    else Ok(if p.ownerOperation.None? then st.(openOperation := None) else st)
  }

  predicate WindowOpen(st: Machine, reviewId: string) {
    reviewId in st.reviews && st.reviews[reviewId].completed.Some? && st.reviews[reviewId].windowOpen
  }

  /** The per-event-type checks and updates of the replay loop, before the transition is taken. */
  function Record(m: Manifest, c: Context, st: Machine, e: Event): Result<Machine> {
    match e.body
    case IsolationAttested(_, _, cleanTree, clean, observed, _) =>
      if !clean || observed != cleanTree then Err("WORKSPACE_CONTAMINATED") else Ok(st)
    case ExecutionStarted(_) => RecordStart(c, st, e)
    case ExecutionCompleted(_, _, _, _, _, _, _, _) => RecordCompletion(m, st, e)
    case ValidationRecorded(_, _, _, _, _) => RecordValidation(c, st, e)
    case ReviewStarted(_) => RecordReviewStart(st, e)
    case ReviewCompleted(_, _, _, _, _, _, _, _, _, _, _, _, _) => RecordReview(c, st, e)
    case OrchestratorOperation(_, _, _) => RecordOperation(m, st, e)
    case UsageRecorded(_, _, _, _, _, _, _, _) => RecordUsage(m, st, e)
    case ParentRework(reviewId, attemptId) =>
      if WindowOpen(st, reviewId) && attemptId in st.attempts && st.attempts[attemptId].completed.Some?
         && var review := st.reviews[reviewId].completed.value.body;
            review.ReviewCompleted? && review.review.attemptId == attemptId
      then Ok(st) else Err("ORPHAN_OR_MISORDERED_REWORK")
    case EscalationDecided(rejected, target, _, _) =>
      if st.rejectedReviewEventId != Some(rejected) then Err("ESCALATION_REVIEW_REFERENCE_INVALID")
      else Ok(st.(escalationTarget := Some(target)))
    case BlockAccepted(revision, tree) =>
      if st.acceptedReview.Some? && st.acceptedCompletion.Some?
         && var review, completion := st.acceptedReview.value.body, st.acceptedCompletion.value.body;
            && review.ReviewCompleted? && completion.ExecutionCompleted?
            && revision == review.toRevision && revision == completion.outputRevision && tree == completion.outputTreeHash
      then Ok(st) else Err("ACCEPTED_REVISION_TREE_INVALID")
    case DefectRecorded(reviewId, revision) =>
      if st.acceptedReview.Some?
         && var review := st.acceptedReview.value.body;
            review.ReviewCompleted? && reviewId == review.review.reviewId && revision == review.toRevision
      then Ok(st) else Err("DEFECT_ACCEPTANCE_REFERENCE_INVALID")
    case _ => Ok(st)
  }

  predicate ClosesWindows(p: Payload) {
    p.ExecutionStarted? || p.EscalationDecided? || p.BlockAccepted? || p.BlockFailed? || p.BlockBlocked?
  }

  function CloseWindows(reviews: map<string, Review>): map<string, Review> {
    map id | id in reviews :: reviews[id].(windowOpen := false)
  }

  /** The clock, the operation window and the review windows, updated before the event is recorded. */
  function Tick(st: Machine, e: Event): Machine {
    st.(previousAt := e.occurredAt,
        openOperation := if e.body.UsageRecorded? then st.openOperation else None,
        reviews := if ClosesWindows(e.body) then CloseWindows(st.reviews) else st.reviews)
  }

  // ---- The fold --------------------------------------------------------------------

  datatype Progress = Going(machine: Machine) | Stopped(code: string, unresolved: set<string>)

  /** One iteration of the replay loop. */
  function Step(m: Manifest, boundary: Event -> string, st: Machine, index: nat, e: Event): Progress {
    if e.sequence != index + 1 then Stopped("INCOMPATIBLE_SEQUENCE_GAP", st.unresolved)
    else if e.occurredAt.None? then Stopped("INVALID_OCCURRED_AT", st.unresolved)
    else if st.previousAt.Some? && e.occurredAt.value < st.previousAt.value then Stopped("REGRESSIVE_OCCURRED_AT", st.unresolved)
    else
      var context := BlockContext(m, e);
      if context.Err? then Stopped(context.code, st.unresolved)
      else
        var recorded := Record(m, context.value, Tick(st, e), e);
        if recorded.Err? then Stopped(recorded.code, st.unresolved)
        else
          var next := Transition(m, boundary, st.phase, e, context.value);
          if next.Err? then Stopped(next.code, recorded.value.unresolved)
          else Going(recorded.value.(phase := Some(next.value)))
  }

  /** The replay of the first `n` events of a block's history. */
  function Replay(m: Manifest, boundary: Event -> string, history: seq<Event>, n: nat): Progress
    requires n <= |history|
  {
    if n == 0 then Going(Start)
    else
      var before := Replay(m, boundary, history, n - 1);
      if before.Stopped? then before else Step(m, boundary, before.machine, n - 1, history[n - 1])
  }

  // ---- Replaying a raw log ---------------------------------------------------------

  datatype BlockReplay =
    | Invalid(code: string, blockId: Option<string>, unresolved: set<string>)
    | Valid(phase: Phase, block: string, acceptedRevision: Option<string>, acceptedTreeHash: Option<string>,
            acceptedReviewId: Option<string>, unresolvedIds: set<string>)

  function OfBlock(events: seq<Event>, id: string): seq<Event> {
    if events == [] then []
    else OfBlock(events[..|events| - 1], id) +
         if events[|events| - 1].blockId == id then [events[|events| - 1]] else []
  }

  predicate SequenceLe(a: Event, b: Event) { a.sequence <= b.sequence }

  /** One workspace instance attested for two different blocks. */
  ghost predicate WorkspaceReused(events: seq<Event>) {
    exists i, j | 0 <= i < j < |events| ::
      && events[i].body.IsolationAttested? && events[j].body.IsolationAttested?
      && events[i].body.workspaceId == events[j].body.workspaceId && events[i].blockId != events[j].blockId
  }

  function Finish(p: Progress, id: string): BlockReplay {
    match p
    case Stopped(code, unresolved) => Invalid(code, Some(id), unresolved)
    case Going(st) =>
      if st.phase.None? then Invalid("EMPTY_REDUCTION", Some(id), st.unresolved)
      else
        var accepted := st.phase.value.Accepted?;
        Valid(st.phase.value, id,
              if accepted && st.acceptedCompletion.Some? && st.acceptedCompletion.value.body.ExecutionCompleted?
              then Some(st.acceptedCompletion.value.body.outputRevision) else None,
              if accepted && st.acceptedCompletion.Some? && st.acceptedCompletion.value.body.ExecutionCompleted?
              then Some(st.acceptedCompletion.value.body.outputTreeHash) else None,
              if accepted && st.acceptedReview.Some? && st.acceptedReview.value.body.ReviewCompleted?
              then Some(st.acceptedReview.value.body.review.reviewId) else None,
              st.unresolved)
  }

  /** The block's active history, in sequence order. */
  ghost function History(log: seq<Event>, id: string): seq<Event> {
    Sort(OfBlock(EventStore.ActiveOf(log), id), SequenceLe)
  }

  /** What replaying a raw log reports. */
  ghost function BlockOutcome(m: Manifest, boundary: Event -> string, k: EventStore.Checks, log: seq<Event>): BlockReplay {
    if !EventStore.ValidLog(k, log) then Invalid("INVALID_LOG", if log == [] then None else Some(log[0].blockId), {})
    else if log == [] || log[0].blockId == "" then Invalid("EMPTY_HISTORY", None, {})
    else if WorkspaceReused(EventStore.ActiveOf(log)) then Invalid("WORKSPACE_REUSED_ACROSS_BLOCKS", Some(log[0].blockId), {})
    else if History(log, log[0].blockId) == [] then Invalid("EMPTY_ACTIVE_HISTORY", Some(log[0].blockId), {})
    else
      var history := History(log, log[0].blockId);
      Finish(Replay(m, boundary, history, |history|), log[0].blockId)
  }

  method FindWorkspaceReuse(events: seq<Event>) returns (reused: bool)
    ensures reused <==> WorkspaceReused(events)
  {
    var owners: map<string, string> := map[];
    for i := 0 to |events|
      invariant forall w :: w in owners <==> exists j | 0 <= j < i :: events[j].body.IsolationAttested? && events[j].body.workspaceId == w
      invariant forall j | 0 <= j < i && events[j].body.IsolationAttested? :: owners[events[j].body.workspaceId] == events[j].blockId
    {
      if events[i].body.IsolationAttested? {
        var w := events[i].body.workspaceId;
        if w in owners && owners[w] != events[i].blockId {
          return true;
        }
        owners := owners[w := events[i].blockId];
      }
    }
    return false;
  }

  /** `replayBlock`. */
  method ReplayBlock(m: Manifest, boundary: Event -> string, k: EventStore.Checks, log: seq<Event>) returns (r: BlockReplay)
    ensures r == BlockOutcome(m, boundary, k, log)
  {
    hide Step, Finish, EventStore.ActiveOf, EventStore.ValidLog;
    var projected := EventStore.ActiveEvents(k, log);
    if projected.Err? {
      return Invalid("INVALID_LOG", if log == [] then None else Some(log[0].blockId), {});
    }
    if log == [] || log[0].blockId == "" {
      return Invalid("EMPTY_HISTORY", None, {});
    }
    var id := log[0].blockId;
    var reused := FindWorkspaceReuse(projected.value);
    if reused {
      return Invalid("WORKSPACE_REUSED_ACROSS_BLOCKS", Some(id), {});
    }
    var history := Sort(OfBlock(projected.value, id), SequenceLe);
    if history == [] {
      return Invalid("EMPTY_ACTIVE_HISTORY", Some(id), {});
    }
    var progress := Going(Start);
    var index := 0;
    while index < |history| && progress.Going?
      invariant 0 <= index <= |history|
      invariant progress == Replay(m, boundary, history, index)
    {
      progress := Step(m, boundary, progress.machine, index, history[index]);
      index := index + 1;
    }
    if progress.Stopped? {
      StoppedStays(m, boundary, history, index, |history|);
    }
    return Finish(progress, id);
  }

  lemma {:induction false} StoppedStays(m: Manifest, boundary: Event -> string, history: seq<Event>, i: nat, n: nat)
    requires i <= n <= |history| && Replay(m, boundary, history, i).Stopped?
    ensures Replay(m, boundary, history, n) == Replay(m, boundary, history, i)
    decreases n - i
  {
    hide Step;
    if i < n {
      StoppedStays(m, boundary, history, i, n - 1);
    }
  }
}
