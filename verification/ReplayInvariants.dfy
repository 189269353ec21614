/**
 What every valid replay keeps. The ledger lists what the history says happened, by event type;
 the invariant ties the replay's variables to the ledger and the ledger to the pilot's rules.
 */
module ReplayInvariants {
  import opened Prelude
  import opened PilotEvents
  import opened StateMachine

  // ---- The ledger ------------------------------------------------------------------

  datatype Done = Done(owner: AttemptOwner, revision: string, tree: string)

  datatype Verdict = Verdict(
    event: Event, owner: ReviewOwner, fromRevision: string, toRevision: string,
    previousBoundary: Option<string>, boundary: string, unresolvedIds: seq<string>,
    evidence: seq<string>, material: seq<Finding>, decision: Decision)

  datatype Check = Check(attemptId: string, evidence: seq<string>)
  datatype Escalation = Escalation(rejectedEventId: string, target: string)

  datatype Ledger = Ledger(
    starts: seq<AttemptOwner>, dones: seq<Done>, checks: seq<Check>,
    reviewStarts: seq<ReviewOwner>, verdicts: seq<Verdict>, escalations: seq<Escalation>)

  const Blank := Ledger([], [], [], [], [], [])

  function DoneOf(p: Payload): Done
    requires p.ExecutionCompleted?
  {
    Done(p.attempt, p.outputRevision, p.outputTreeHash)
  }

  function VerdictOf(e: Event): Verdict
    requires e.body.ReviewCompleted?
  {
    var p := e.body;
    Verdict(e, p.review, p.fromRevision, p.toRevision, p.previousBoundary, p.boundaryHash,
            p.unresolvedIds, p.evidence, p.material, p.decision)
  }

  function Add(l: Ledger, e: Event): Ledger {
    match e.body
    case ExecutionStarted(a) => l.(starts := l.starts + [a])
    case ExecutionCompleted(_, _, _, _, _, _, _, _) => l.(dones := l.dones + [DoneOf(e.body)])
    case ValidationRecorded(id, _, _, _, evidence) => l.(checks := l.checks + [Check(id, evidence)])
    case ReviewStarted(r) => l.(reviewStarts := l.reviewStarts + [r])
    case ReviewCompleted(_, _, _, _, _, _, _, _, _, _, _, _, _) => l.(verdicts := l.verdicts + [VerdictOf(e)])
    case EscalationDecided(rejected, target, _, _) => l.(escalations := l.escalations + [Escalation(rejected, target)])
    case _ => l
  }

  function LedgerOf(history: seq<Event>): Ledger {
    if history == [] then Blank else Add(LedgerOf(history[..|history| - 1]), history[|history| - 1])
  }

  /** Findings left open by a list of findings: opened ones added, resolved ones removed. */
  function ApplyFindings(open: set<string>, findings: seq<Finding>): set<string>
    decreases |findings|
  {
    if findings == [] then open
    else ApplyFindings(if findings[0].open then open + {findings[0].findingId} else open - {findings[0].findingId}, findings[1..])
  }

  function OpenFindings(verdicts: seq<Verdict>): set<string> {
    if verdicts == [] then {}
    else ApplyFindings(OpenFindings(verdicts[..|verdicts| - 1]), verdicts[|verdicts| - 1].material)
  }

  function EvidenceFor(checks: seq<Check>, attemptId: string): seq<string> {
    if checks == [] then []
    else
      var last := checks[|checks| - 1];
      EvidenceFor(checks[..|checks| - 1], attemptId) + if last.attemptId == attemptId then last.evidence else []
  }

  // ---- The pilot's rules, on the ledger --------------------------------------------

  /** Attempts come in order, each completion is its attempt's, and revisions form one unbroken chain. */
  ghost predicate RevisionChain(c: Context, starts: seq<AttemptOwner>, dones: seq<Done>) {
    && |dones| <= |starts| <= |dones| + 1 && |starts| <= 3
    && (forall i | 0 <= i < |starts| ::
          && starts[i].number == i + 1 && starts[i].kind == KindFor(i + 1)
          && starts[i].inputRevision == if i == 0 then c.block.baseRevision else dones[i - 1].revision)
    && (forall i | 0 <= i < |dones| :: dones[i].owner == starts[i])
  }

  ghost predicate DistinctAttempts(starts: seq<AttemptOwner>) {
    forall i, j | 0 <= i < j < |starts| :: starts[i].attemptId != starts[j].attemptId
  }

  /** Every attempt is run with the capability its arm prescribes, on a binding registered for it. */
  ghost predicate Capabilities(m: Manifest, c: Context, starts: seq<AttemptOwner>) {
    forall i | 0 <= i < |starts| :: RouteOk(m, c.route, starts[i])
  }

  /** Review `i` examines attempt `i`, in round `i + 1`, by the manifest's reviewer. */
  ghost predicate ReviewOrder(m: Manifest, starts: seq<AttemptOwner>, reviewStarts: seq<ReviewOwner>) {
    && |reviewStarts| <= |starts|
    && forall i | 0 <= i < |reviewStarts| ::
         && reviewStarts[i].round == i + 1 && reviewStarts[i].attemptId == starts[i].attemptId
         && reviewStarts[i].executorSession == starts[i].session && reviewStarts[i].bindingRef == m.reviewerBinding
  }

  /**
   Each verdict covers exactly its attempt's revisions and recorded validation evidence, carries the previous
   boundary and the findings still open, and accepts only when none is; only the last verdict can accept.
   */
  ghost predicate Verdicts(boundary: Event -> string, l: Ledger) {
    && |l.verdicts| <= |l.reviewStarts| <= |l.dones| <= |l.starts| <= |l.verdicts| + 1
    && (forall i | 0 <= i < |l.verdicts| :: VerdictOk(boundary, l, i))
    && (forall i | 0 <= i < |l.verdicts| - 1 :: l.verdicts[i].decision.Reject?)
  }

  ghost predicate VerdictOk(boundary: Event -> string, l: Ledger, i: nat)
    requires i < |l.verdicts| <= |l.reviewStarts| <= |l.dones| <= |l.starts|
  {
    var v := l.verdicts[i];
    && v.owner == l.reviewStarts[i]
    && v.fromRevision == l.starts[i].inputRevision
    && v.toRevision == l.dones[i].revision
    && v.previousBoundary == (if i == 0 then None else Some(l.verdicts[i - 1].boundary))
    && v.boundary == boundary(v.event)
    && multiset(v.evidence) == multiset(EvidenceFor(l.checks, l.starts[i].attemptId))
    && multiset(v.unresolvedIds) == multiset(OpenFindings(l.verdicts[..i + 1]))
    && (v.decision.Accept? ==> OpenFindings(l.verdicts[..i + 1]) == {})
  }

  /** Executor and reviewer sessions are pairwise distinct across all attempts and reviews. */
  ghost predicate Independent(starts: seq<AttemptOwner>, reviewStarts: seq<ReviewOwner>) {
    && (forall i, j | 0 <= i < j < |starts| :: starts[i].session != starts[j].session)
    && (forall i, j | 0 <= i < j < |reviewStarts| :: reviewStarts[i].session != reviewStarts[j].session)
    && (forall i, j | 0 <= i < |starts| && 0 <= j < |reviewStarts| :: starts[i].session != reviewStarts[j].session)
  }

  /**
   Only the adaptive arm escalates, at most once, after a second-round rejection that the decision cites;
   its third attempt runs on the strong binding the decision names.
   */
  ghost predicate Escalated(
    m: Manifest, c: Context, starts: seq<AttemptOwner>, verdicts: seq<Verdict>, escalations: seq<Escalation>)
  {
    && |escalations| <= 1
    && (escalations != [] ==>
          && c.route == Some(AdaptiveEscalation)
          && |verdicts| >= 2 && verdicts[1].decision.Reject?
          && escalations[0].rejectedEventId == verdicts[1].event.eventId
          && Bound(m, escalations[0].target, Strong))
    && (c.route == Some(AdaptiveEscalation) && |starts| == 3 ==>
          escalations != [] && starts[2].bindingRef == escalations[0].target)
  }

  ghost predicate Rules(m: Manifest, boundary: Event -> string, c: Context, l: Ledger) {
    && RevisionChain(c, l.starts, l.dones) && DistinctAttempts(l.starts) && Capabilities(m, c, l.starts)
    && ReviewOrder(m, l.starts, l.reviewStarts) && Verdicts(boundary, l)
    && Independent(l.starts, l.reviewStarts) && Escalated(m, c, l.starts, l.verdicts, l.escalations)
  }

  // ---- The replay's variables, read off the ledger ---------------------------------

  ghost predicate Counts(l: Ledger, starts: int, dones: int, reviewStarts: int, verdicts: int) {
    |l.starts| == starts && |l.dones| == dones && |l.reviewStarts| == reviewStarts && |l.verdicts| == verdicts
  }

  predicate LastRejects(verdicts: seq<Verdict>) { verdicts != [] && verdicts[|verdicts| - 1].decision.Reject? }
  predicate LastAccepts(verdicts: seq<Verdict>) { verdicts != [] && verdicts[|verdicts| - 1].decision.Accept? }

  /** Escalations so far: one iff the adaptive arm has left the escalation state. */
  ghost predicate EscalatedBy(n: Round, c: Context, l: Ledger) {
    l.escalations != [] <==> n == 3 && c.route == Some(AdaptiveEscalation)
  }

  /** How far the ledger has got in each state. */
  ghost predicate Reaches(phase: Option<Phase>, c: Context, l: Ledger) {
    match phase
    case None => l == Blank
    case Some(p) =>
      match p
      case Planned => l == Blank
      case Assigned => l == Blank
      case Ready(n) => Counts(l, n - 1, n - 1, n - 1, n - 1) && (n > 1 ==> LastRejects(l.verdicts)) && EscalatedBy(n, c, l)
      case Executing(n) => Counts(l, n, n - 1, n - 1, n - 1) && (n > 1 ==> LastRejects(l.verdicts)) && EscalatedBy(n, c, l)
      case ReadyReview(n) => Counts(l, n, n, n - 1, n - 1) && (n > 1 ==> LastRejects(l.verdicts)) && EscalatedBy(n, c, l)
      case Reviewing(n) => Counts(l, n, n, n, n - 1) && (n > 1 ==> LastRejects(l.verdicts)) && EscalatedBy(n, c, l)
      case EscalationRequired =>
        Counts(l, 2, 2, 2, 2) && LastRejects(l.verdicts) && l.escalations == [] && c.route == Some(AdaptiveEscalation)
      case ReadyAccept => Settled(l) && LastAccepts(l.verdicts)
      case Accepted => Settled(l) && LastAccepts(l.verdicts)
      case ReadyFail => Counts(l, 3, 3, 3, 3) && LastRejects(l.verdicts)
      case Failed => Counts(l, 3, 3, 3, 3) && LastRejects(l.verdicts)
      case Blocked => true
  }

  /** Every attempt is completed and reviewed. */
  ghost predicate Settled(l: Ledger) { |l.starts| == |l.dones| == |l.reviewStarts| == |l.verdicts| }

  ghost predicate AttemptKeys(ids: set<string>, starts: seq<AttemptOwner>) {
    forall id :: id in ids <==> exists i | 0 <= i < |starts| :: starts[i].attemptId == id
  }

  ghost predicate ReviewKeys(ids: set<string>, reviewStarts: seq<ReviewOwner>) {
    forall id :: id in ids <==> exists i | 0 <= i < |reviewStarts| :: reviewStarts[i].reviewId == id
  }

  ghost predicate ExecutorSet(sessions: set<string>, starts: seq<AttemptOwner>) {
    forall s :: s in sessions <==> exists i | 0 <= i < |starts| :: starts[i].session == s
  }

  ghost predicate ReviewerSet(sessions: set<string>, reviewStarts: seq<ReviewOwner>) {
    forall s :: s in sessions <==> exists i | 0 <= i < |reviewStarts| :: reviewStarts[i].session == s
  }

  ghost predicate IsStart(e: Event, a: AttemptOwner) { e.body.ExecutionStarted? && e.body.attempt == a }
  ghost predicate IsDone(e: Event, d: Done) { e.body.ExecutionCompleted? && DoneOf(e.body) == d }
  ghost predicate IsReview(e: Event, r: ReviewOwner) { e.body.ReviewStarted? && e.body.review == r }
  ghost predicate IsVerdict(e: Event, v: Verdict) { e.body.ReviewCompleted? && VerdictOf(e) == v }

  /** The record kept for attempt `i`. */
  ghost predicate RecordOf(attempts: map<string, Attempt>, starts: seq<AttemptOwner>, dones: seq<Done>, reviewed: nat, i: nat)
    requires i < |starts|
  {
    var id := starts[i].attemptId;
    && id in attempts
    && (attempts[id].completed.Some? <==> i < |dones|)
    && (i < |dones| ==> IsDone(attempts[id].completed.value, dones[i]))
    && (attempts[id].reviewStarted <==> i < reviewed)
  }

  ghost predicate Records(attempts: map<string, Attempt>, starts: seq<AttemptOwner>, dones: seq<Done>, reviewed: nat) {
    forall i | 0 <= i < |starts| :: RecordOf(attempts, starts, dones, reviewed, i)
  }

  ghost predicate CurrentAttempt(current: Option<Event>, starts: seq<AttemptOwner>) {
    if starts == [] then current.None? else current.Some? && IsStart(current.value, starts[|starts| - 1])
  }

  ghost predicate CurrentCompletion(current: Option<Event>, starts: nat, dones: seq<Done>) {
    if dones == [] || |dones| != starts then current.None? else current.Some? && IsDone(current.value, dones[|dones| - 1])
  }

  ghost predicate CurrentReview(current: Option<Event>, reviewStarts: seq<ReviewOwner>, verdicts: nat) {
    if reviewStarts == [] || |reviewStarts| == verdicts then current.None?
    else current.Some? && IsReview(current.value, reviewStarts[|reviewStarts| - 1])
  }

  ghost predicate PreviousReview(previous: Option<Event>, verdicts: seq<Verdict>) {
    if verdicts == [] then previous.None?
    else previous == Some(verdicts[|verdicts| - 1].event) && IsVerdict(previous.value, verdicts[|verdicts| - 1])
  }

  ghost predicate RejectedReview(id: Option<string>, verdicts: seq<Verdict>) {
    LastRejects(verdicts) ==> id == Some(verdicts[|verdicts| - 1].event.eventId)
  }

  ghost predicate AcceptedReview(review: Option<Event>, completion: Option<Event>, dones: seq<Done>, verdicts: seq<Verdict>) {
    if LastAccepts(verdicts) then
      && |verdicts| <= |dones|
      && review == Some(verdicts[|verdicts| - 1].event) && IsVerdict(review.value, verdicts[|verdicts| - 1])
      && completion.Some? && IsDone(completion.value, dones[|verdicts| - 1])
    else review.None?
  }

  ghost predicate EscalationTarget(target: Option<string>, escalations: seq<Escalation>) {
    target == if escalations == [] then None else Some(escalations[|escalations| - 1].target)
  }

  ghost predicate EvidenceKept(validations: map<string, seq<Event>>, checks: seq<Check>) {
    forall id :: Evidence(if id in validations then validations[id] else []) == EvidenceFor(checks, id)
  }

  ghost predicate Mirrors(st: Machine, l: Ledger) {
    && AttemptKeys(st.attempts.Keys, l.starts) && Records(st.attempts, l.starts, l.dones, |l.reviewStarts|)
    && CurrentAttempt(st.currentAttempt, l.starts) && CurrentCompletion(st.currentCompletion, |l.starts|, l.dones)
    && ReviewKeys(st.reviews.Keys, l.reviewStarts)
    && CurrentReview(st.currentReview, l.reviewStarts, |l.verdicts|) && PreviousReview(st.previousReview, l.verdicts)
    && RejectedReview(st.rejectedReviewEventId, l.verdicts)
    && AcceptedReview(st.acceptedReview, st.acceptedCompletion, l.dones, l.verdicts)
    && ExecutorSet(st.executorSessions, l.starts) && ReviewerSet(st.reviewerSessions, l.reviewStarts)
    && EscalationTarget(st.escalationTarget, l.escalations)
    && EvidenceKept(st.validations, l.checks) && st.unresolved == OpenFindings(l.verdicts)
  }

  ghost predicate Inv(m: Manifest, boundary: Event -> string, c: Context, st: Machine, l: Ledger) {
    Rules(m, boundary, c, l) && Reaches(st.phase, c, l) && Mirrors(st, l)
  }

  // ---- One step keeps the invariant -------------------------------------------------

  /** A step that goes on: the event was recorded and its transition allowed. */
  predicate Steps(m: Manifest, boundary: Event -> string, c: Context, st: Machine, e: Event, next: Machine) {
    && Record(m, c, Tick(st, e), e).Ok?
    && Transition(m, boundary, st.phase, e, c).Ok?
    && next == Record(m, c, Tick(st, e), e).value.(phase := Some(Transition(m, boundary, st.phase, e, c).value))
  }

  /** Apart from the clock, the windows and the orchestrator's operations, `next` is `st`. */
  ghost predicate Agree(st: Machine, next: Machine) {
    && st.attempts == next.attempts && st.currentAttempt == next.currentAttempt && st.currentCompletion == next.currentCompletion
    && st.reviews.Keys == next.reviews.Keys && st.currentReview == next.currentReview && st.previousReview == next.previousReview
    && st.acceptedReview == next.acceptedReview && st.acceptedCompletion == next.acceptedCompletion
    && st.rejectedReviewEventId == next.rejectedReviewEventId && st.escalationTarget == next.escalationTarget
    && st.executorSessions == next.executorSessions && st.reviewerSessions == next.reviewerSessions
    && st.validations == next.validations && st.unresolved == next.unresolved
  }

  /** Earlier verdicts stand when the ledger grows without touching their attempts' evidence. */
  lemma VerdictsStand(boundary: Event -> string, l: Ledger, after: Ledger)
    requires Verdicts(boundary, l)
    requires l.verdicts <= after.verdicts && l.reviewStarts <= after.reviewStarts && l.dones <= after.dones && l.starts <= after.starts
    requires |after.verdicts| <= |after.reviewStarts| <= |after.dones| <= |after.starts|
    requires forall i | 0 <= i < |l.verdicts| ::
               EvidenceFor(after.checks, l.starts[i].attemptId) == EvidenceFor(l.checks, l.starts[i].attemptId)
    ensures forall i | 0 <= i < |l.verdicts| :: VerdictOk(boundary, after, i)
  {
    forall i | 0 <= i < |l.verdicts|
      ensures VerdictOk(boundary, after, i)
    {
      assert VerdictOk(boundary, l, i);
      assert after.verdicts[..i + 1] == l.verdicts[..i + 1];
    }
  }

  // -- an execution starts

  lemma StartEffect(m: Manifest, boundary: Event -> string, c: Context, st: Machine, e: Event, next: Machine)
    requires Steps(m, boundary, c, st, e, next) && e.body.ExecutionStarted?
    ensures var a := e.body.attempt;
            && st.phase.Some? && st.phase.value.Ready? && next.phase == Some(Executing(st.phase.value.n))
            && a.number == st.phase.value.n && a.kind == KindFor(st.phase.value.n) && RouteOk(m, c.route, a)
            && a.attemptId !in st.attempts && a.session !in st.executorSessions && a.session !in st.reviewerSessions
            && (if a.number == 1 then a.inputRevision == c.block.baseRevision
                else && st.previousReview.Some? && st.previousReview.value.body.ReviewCompleted?
                     && a.inputRevision == st.previousReview.value.body.toRevision)
            && (c.route == Some(AdaptiveEscalation) && a.number == 3 ==> st.escalationTarget == Some(a.bindingRef))
            && next.attempts == st.attempts[a.attemptId := Attempt(e, None, false)]
            && next.currentAttempt == Some(e) && next.currentCompletion == None
            && next.executorSessions == st.executorSessions + {a.session}
            && Agree(st, next.(attempts := st.attempts, currentAttempt := st.currentAttempt,
                               currentCompletion := st.currentCompletion, executorSessions := st.executorSessions))
  {
    assert CloseWindows(st.reviews).Keys == st.reviews.Keys;
  }

  lemma AddAttempt(ids: set<string>, sessions: set<string>, starts: seq<AttemptOwner>, a: AttemptOwner)
    requires AttemptKeys(ids, starts) && ExecutorSet(sessions, starts) && DistinctAttempts(starts) && a.attemptId !in ids
    ensures AttemptKeys(ids + {a.attemptId}, starts + [a]) && ExecutorSet(sessions + {a.session}, starts + [a])
    ensures DistinctAttempts(starts + [a])
  {
    var longer := starts + [a];
    assert longer[|starts|] == a;
    assert forall i | 0 <= i < |starts| :: longer[i] == starts[i];
  }

  lemma AddExecutorSession(
    executors: set<string>, reviewers: set<string>, starts: seq<AttemptOwner>, reviewStarts: seq<ReviewOwner>, a: AttemptOwner)
    requires ExecutorSet(executors, starts) && ReviewerSet(reviewers, reviewStarts) && Independent(starts, reviewStarts)
    requires a.session !in executors && a.session !in reviewers
    ensures Independent(starts + [a], reviewStarts)
  {
  }

  lemma AddRecord(attempts: map<string, Attempt>, starts: seq<AttemptOwner>, dones: seq<Done>, reviewed: nat, a: AttemptOwner, e: Event)
    requires Records(attempts, starts, dones, reviewed) && AttemptKeys(attempts.Keys, starts) && a.attemptId !in attempts
    requires |dones| <= |starts| && reviewed <= |starts|
    ensures Records(attempts[a.attemptId := Attempt(e, None, false)], starts + [a], dones, reviewed)
  {
    var longer := starts + [a];
    var after := attempts[a.attemptId := Attempt(e, None, false)];
    forall i | 0 <= i < |longer|
      ensures RecordOf(after, longer, dones, reviewed, i)
    {
      if i < |starts| {
        assert RecordOf(attempts, starts, dones, reviewed, i);
        assert longer[i] == starts[i];
      }
    }
  }

  /** The revision a later attempt must start from is the last completed attempt's output. */
  lemma ChainExtends(boundary: Event -> string, c: Context, l: Ledger, previous: Option<Event>, a: AttemptOwner)
    requires RevisionChain(c, l.starts, l.dones) && Verdicts(boundary, l) && PreviousReview(previous, l.verdicts)
    requires Settled(l) && |l.starts| < 3 && a.number == |l.starts| + 1 && a.kind == KindFor(|l.starts| + 1)
    requires if a.number == 1 then a.inputRevision == c.block.baseRevision
             else previous.Some? && previous.value.body.ReviewCompleted? && a.inputRevision == previous.value.body.toRevision
    ensures RevisionChain(c, l.starts + [a], l.dones)
  {
    var n := |l.starts|;
    if n > 0 {
      assert VerdictOk(boundary, l, n - 1);
    }
  }

  lemma StartEscalated(
    m: Manifest, c: Context, starts: seq<AttemptOwner>, verdicts: seq<Verdict>, escalations: seq<Escalation>,
    target: Option<string>, a: AttemptOwner)
    requires Escalated(m, c, starts, verdicts, escalations) && EscalationTarget(target, escalations) && a.number == |starts| + 1
    requires c.route == Some(AdaptiveEscalation) && a.number == 3 ==> target == Some(a.bindingRef)
    requires |starts| < 3
    ensures Escalated(m, c, starts + [a], verdicts, escalations)
  {
  }

  lemma LedgerStart(m: Manifest, boundary: Event -> string, c: Context, st: Machine, l: Ledger, a: AttemptOwner)
    requires Rules(m, boundary, c, l) && Mirrors(st, l) && Settled(l) && |l.starts| < 3
    requires a.number == |l.starts| + 1 && a.kind == KindFor(|l.starts| + 1) && RouteOk(m, c.route, a)
    requires a.attemptId !in st.attempts && a.session !in st.executorSessions && a.session !in st.reviewerSessions
    requires if a.number == 1 then a.inputRevision == c.block.baseRevision
             else && st.previousReview.Some? && st.previousReview.value.body.ReviewCompleted?
                  && a.inputRevision == st.previousReview.value.body.toRevision
    requires c.route == Some(AdaptiveEscalation) && a.number == 3 ==> st.escalationTarget == Some(a.bindingRef)
    ensures Rules(m, boundary, c, l.(starts := l.starts + [a]))
  {
    hide RouteOk, Independent, DistinctAttempts, RevisionChain, VerdictOk, Escalated, AttemptKeys, ReviewKeys;
    hide ExecutorSet, ReviewerSet, Records, CurrentAttempt, CurrentCompletion, CurrentReview, PreviousReview, EscalationTarget;
    hide RejectedReview, AcceptedReview, EvidenceKept, OpenFindings, EvidenceFor;
    AddAttempt(st.attempts.Keys, st.executorSessions, l.starts, a);
    AddExecutorSession(st.executorSessions, st.reviewerSessions, l.starts, l.reviewStarts, a);
    ChainExtends(boundary, c, l, st.previousReview, a);
    VerdictsStand(boundary, l, l.(starts := l.starts + [a]));
    StartEscalated(m, c, l.starts, l.verdicts, l.escalations, st.escalationTarget, a);
  }

  lemma StartRules(m: Manifest, boundary: Event -> string, c: Context, st: Machine, e: Event, next: Machine, l: Ledger)
    requires Inv(m, boundary, c, st, l) && Steps(m, boundary, c, st, e, next) && e.body.ExecutionStarted?
    ensures Rules(m, boundary, c, Add(l, e)) && Reaches(next.phase, c, Add(l, e))
  {
    hide Steps, RouteOk, Rules, Mirrors;
    StartEffect(m, boundary, c, st, e, next);
    LedgerStart(m, boundary, c, st, l, e.body.attempt);
  }

  lemma StartMirrors(m: Manifest, boundary: Event -> string, c: Context, st: Machine, e: Event, next: Machine, l: Ledger)
    requires Inv(m, boundary, c, st, l) && Steps(m, boundary, c, st, e, next) && e.body.ExecutionStarted?
    ensures Mirrors(next, Add(l, e))
  {
    hide Steps, RouteOk, Independent, RevisionChain, VerdictOk, Escalated, AttemptKeys, ReviewKeys, Capabilities, ReviewOrder;
    hide ExecutorSet, ReviewerSet, Records, CurrentReview, PreviousReview, EscalationTarget;
    hide RejectedReview, EvidenceKept, OpenFindings, EvidenceFor, AcceptedReview;
    StartEffect(m, boundary, c, st, e, next);
    var a := e.body.attempt;
    AddAttempt(st.attempts.Keys, st.executorSessions, l.starts, a);
    AddRecord(st.attempts, l.starts, l.dones, |l.reviewStarts|, a, e);
    assert next.attempts.Keys == st.attempts.Keys + {a.attemptId};
  }

  lemma StartKeeps(m: Manifest, boundary: Event -> string, c: Context, st: Machine, e: Event, next: Machine, l: Ledger)
    requires Inv(m, boundary, c, st, l) && Steps(m, boundary, c, st, e, next) && e.body.ExecutionStarted?
    ensures Inv(m, boundary, c, next, Add(l, e))
  {
    hide Steps, Rules, Reaches, Mirrors, Add;
    StartRules(m, boundary, c, st, e, next, l);
    StartMirrors(m, boundary, c, st, e, next, l);
  }

  // -- an execution completes

  lemma CompletionEffect(m: Manifest, boundary: Event -> string, c: Context, st: Machine, e: Event, next: Machine)
    requires Steps(m, boundary, c, st, e, next) && e.body.ExecutionCompleted?
    ensures var id := e.body.attempt.attemptId;
            && st.phase.Some? && st.phase.value.Executing? && next.phase == Some(ReadyReview(st.phase.value.n))
            && st.currentAttempt.Some? && IsStart(st.currentAttempt.value, e.body.attempt) && id in st.attempts
            && next.attempts == st.attempts[id := st.attempts[id].(completed := Some(e))]
            && next.currentCompletion == Some(e)
            && Agree(st, next.(attempts := st.attempts, currentCompletion := st.currentCompletion))
  {
  }

  lemma AddDone(c: Context, starts: seq<AttemptOwner>, dones: seq<Done>, d: Done)
    requires RevisionChain(c, starts, dones) && |starts| == |dones| + 1 && d.owner == starts[|dones|]
    ensures RevisionChain(c, starts, dones + [d])
  {
  }

  lemma CompleteRecord(attempts: map<string, Attempt>, starts: seq<AttemptOwner>, dones: seq<Done>, reviewed: nat, e: Event)
    requires Records(attempts, starts, dones, reviewed) && DistinctAttempts(starts)
    requires |starts| == |dones| + 1 && e.body.ExecutionCompleted? && e.body.attempt == starts[|dones|]
    requires e.body.attempt.attemptId in attempts
    ensures var id := e.body.attempt.attemptId;
            Records(attempts[id := attempts[id].(completed := Some(e))], starts, dones + [DoneOf(e.body)], reviewed)
  {
    var id := e.body.attempt.attemptId;
    var after, longer := attempts[id := attempts[id].(completed := Some(e))], dones + [DoneOf(e.body)];
    forall i | 0 <= i < |starts|
      ensures RecordOf(after, starts, longer, reviewed, i)
    {
      assert RecordOf(attempts, starts, dones, reviewed, i);
      if i < |dones| {
        assert longer[i] == dones[i] && starts[i].attemptId != starts[|dones|].attemptId;
      }
    }
  }

  lemma AcceptedStands(review: Option<Event>, completion: Option<Event>, dones: seq<Done>, more: seq<Done>, verdicts: seq<Verdict>)
    requires AcceptedReview(review, completion, dones, verdicts) && dones <= more
    ensures AcceptedReview(review, completion, more, verdicts)
  {
  }

  lemma LedgerDone(m: Manifest, boundary: Event -> string, c: Context, l: Ledger, d: Done)
    requires Rules(m, boundary, c, l) && |l.starts| == |l.dones| + 1 && d.owner == l.starts[|l.dones|]
    ensures Rules(m, boundary, c, l.(dones := l.dones + [d]))
  {
    hide RouteOk, Independent, DistinctAttempts, RevisionChain, VerdictOk, Escalated, ReviewOrder, Capabilities;
    AddDone(c, l.starts, l.dones, d);
    VerdictsStand(boundary, l, l.(dones := l.dones + [d]));
  }

  lemma CompletionKeeps(m: Manifest, boundary: Event -> string, c: Context, st: Machine, e: Event, next: Machine, l: Ledger)
    requires Inv(m, boundary, c, st, l) && Steps(m, boundary, c, st, e, next) && e.body.ExecutionCompleted?
    ensures Inv(m, boundary, c, next, Add(l, e))
  {
    hide Steps, RouteOk, Independent, RevisionChain, VerdictOk, Escalated, AttemptKeys, ReviewKeys, Capabilities, ReviewOrder;
    hide ExecutorSet, ReviewerSet, Records, CurrentReview, PreviousReview, EscalationTarget, AcceptedReview;
    hide RejectedReview, EvidenceKept, OpenFindings, EvidenceFor, DistinctAttempts, Verdicts;
    CompletionEffect(m, boundary, c, st, e, next);
    LedgerDone(m, boundary, c, l, DoneOf(e.body));
    CompleteRecord(st.attempts, l.starts, l.dones, |l.reviewStarts|, e);
    AcceptedStands(st.acceptedReview, st.acceptedCompletion, l.dones, l.dones + [DoneOf(e.body)], l.verdicts);
    assert next.attempts.Keys == st.attempts.Keys;
  }

  // -- validation evidence is recorded

  lemma ValidationEffect(m: Manifest, boundary: Event -> string, c: Context, st: Machine, e: Event, next: Machine)
    requires Steps(m, boundary, c, st, e, next) && e.body.ValidationRecorded?
    ensures var id := e.body.attemptId;
            && next.phase == st.phase && AcceptsEvidence(st, id)
            && next.validations == st.validations[id := ValidationsOf(st, id) + [e]]
            && Agree(st, next.(validations := st.validations))
  {
  }

  lemma AddEvidence(validations: map<string, seq<Event>>, checks: seq<Check>, e: Event)
    requires EvidenceKept(validations, checks) && e.body.ValidationRecorded?
    ensures var id := e.body.attemptId;
            EvidenceKept(validations[id := (if id in validations then validations[id] else []) + [e]],
                         checks + [Check(id, e.body.evidence)])
  {
    var id := e.body.attemptId;
    var owned := if id in validations then validations[id] else [];
    assert (owned + [e])[..|owned|] == owned;
    assert (checks + [Check(id, e.body.evidence)])[..|checks|] == checks;
  }

  /** Evidence can no longer be added to an attempt under review. */
  lemma ReviewedEvidenceFixed(attempts: map<string, Attempt>, l: Ledger, checks: seq<Check>, extra: Check)
    requires Records(attempts, l.starts, l.dones, |l.reviewStarts|) && |l.verdicts| <= |l.reviewStarts| <= |l.starts|
    requires extra.attemptId in attempts && !attempts[extra.attemptId].reviewStarted
    ensures forall i | 0 <= i < |l.verdicts| ::
              EvidenceFor(checks + [extra], l.starts[i].attemptId) == EvidenceFor(checks, l.starts[i].attemptId)
  {
    assert (checks + [extra])[..|checks|] == checks;
    forall i | 0 <= i < |l.verdicts|
      ensures l.starts[i].attemptId != extra.attemptId
    {
      assert RecordOf(attempts, l.starts, l.dones, |l.reviewStarts|, i);
    }
  }

  lemma KnownAttempt(ids: set<string>, starts: seq<AttemptOwner>, id: string)
    requires AttemptKeys(ids, starts) && id in ids
    ensures exists i | 0 <= i < |starts| :: starts[i].attemptId == id
    ensures starts != []
  {
  }

  lemma ValidationKeeps(m: Manifest, boundary: Event -> string, c: Context, st: Machine, e: Event, next: Machine, l: Ledger)
    requires Inv(m, boundary, c, st, l) && Steps(m, boundary, c, st, e, next) && e.body.ValidationRecorded?
    ensures Inv(m, boundary, c, next, Add(l, e))
  {
    hide Steps, RouteOk, Independent, RevisionChain, VerdictOk, Escalated, AttemptKeys, ReviewKeys, Capabilities, ReviewOrder;
    hide ExecutorSet, ReviewerSet, Records, CurrentReview, PreviousReview, EscalationTarget, AcceptedReview, CurrentAttempt;
    hide RejectedReview, EvidenceKept, OpenFindings, EvidenceFor, DistinctAttempts, CurrentCompletion;
    ValidationEffect(m, boundary, c, st, e, next);
    var extra := Check(e.body.attemptId, e.body.evidence);
    AddEvidence(st.validations, l.checks, e);
    KnownAttempt(st.attempts.Keys, l.starts, extra.attemptId);
    ReviewedEvidenceFixed(st.attempts, l, l.checks, extra);
    VerdictsStand(boundary, l, l.(checks := l.checks + [extra]));
  }

  // -- a review starts

  lemma ReviewStartEffect(m: Manifest, boundary: Event -> string, c: Context, st: Machine, e: Event, next: Machine)
    requires Steps(m, boundary, c, st, e, next) && e.body.ReviewStarted?
    ensures var r := e.body.review;
            && st.phase.Some? && st.phase.value.ReadyReview? && next.phase == Some(Reviewing(st.phase.value.n))
            && r.round == st.phase.value.n && r.bindingRef == m.reviewerBinding
            && r.attemptId in st.attempts && st.attempts[r.attemptId].completed.Some?
            && st.currentCompletion == st.attempts[r.attemptId].completed
            && st.currentCompletion.value.body.ExecutionCompleted?
            && r.executorSession == st.currentCompletion.value.body.attempt.session
            && r.reviewId !in st.reviews && r.session !in st.executorSessions && r.session !in st.reviewerSessions
            && next.attempts == st.attempts[r.attemptId := st.attempts[r.attemptId].(reviewStarted := true)]
            && next.reviewerSessions == st.reviewerSessions + {r.session} && next.currentReview == Some(e)
            && next.reviews.Keys == st.reviews.Keys + {r.reviewId}
            && Agree(st, next.(attempts := st.attempts, reviewerSessions := st.reviewerSessions,
                               currentReview := st.currentReview, reviews := st.reviews))
  {
  }

  lemma Owners(c: Context, starts: seq<AttemptOwner>, dones: seq<Done>)
    requires RevisionChain(c, starts, dones)
    ensures forall i | 0 <= i < |dones| :: dones[i].owner == starts[i]
  {
  }

  /** The completion under review is the last one, so the reviewed attempt is the last attempt. */
  lemma ReviewsLastAttempt(
    c: Context, attempts: map<string, Attempt>, current: Option<Event>, starts: seq<AttemptOwner>, dones: seq<Done>,
    reviewed: nat, id: string)
    requires RevisionChain(c, starts, dones) && Records(attempts, starts, dones, reviewed) && AttemptKeys(attempts.Keys, starts)
    requires CurrentCompletion(current, |starts|, dones) && |starts| == |dones| && dones != []
    requires id in attempts && attempts[id].completed == current && current.Some?
    ensures starts[|starts| - 1].attemptId == id && current.value.body.ExecutionCompleted?
    ensures starts[|starts| - 1] == current.value.body.attempt
  {
    hide RevisionChain;
    Owners(c, starts, dones);
    var i :| 0 <= i < |starts| && starts[i].attemptId == id;
    assert RecordOf(attempts, starts, dones, reviewed, i);
    assert dones[i] == dones[|dones| - 1];
  }

  lemma AddReviewer(
    executors: set<string>, sessions: set<string>, ids: set<string>, starts: seq<AttemptOwner>,
    reviewStarts: seq<ReviewOwner>, r: ReviewOwner)
    requires ReviewerSet(sessions, reviewStarts) && ExecutorSet(executors, starts) && ReviewKeys(ids, reviewStarts)
    requires Independent(starts, reviewStarts) && r.session !in executors && r.session !in sessions
    ensures ReviewerSet(sessions + {r.session}, reviewStarts + [r]) && ReviewKeys(ids + {r.reviewId}, reviewStarts + [r])
    ensures Independent(starts, reviewStarts + [r])
  {
    var longer := reviewStarts + [r];
    assert longer[|reviewStarts|] == r;
    assert forall i | 0 <= i < |reviewStarts| :: longer[i] == reviewStarts[i];
  }

  lemma ReviewRecord(attempts: map<string, Attempt>, starts: seq<AttemptOwner>, dones: seq<Done>, reviewed: nat, id: string)
    requires Records(attempts, starts, dones, reviewed) && DistinctAttempts(starts)
    requires |starts| == reviewed + 1 && starts[reviewed].attemptId == id && id in attempts
    ensures Records(attempts[id := attempts[id].(reviewStarted := true)], starts, dones, reviewed + 1)
  {
    var after, more := attempts[id := attempts[id].(reviewStarted := true)], reviewed + 1;
    forall i | 0 <= i < |starts|
      ensures RecordOf(after, starts, dones, more, i)
    {
      assert RecordOf(attempts, starts, dones, reviewed, i);
      if i < reviewed {
        assert starts[i].attemptId != starts[reviewed].attemptId;
      }
    }
  }

  lemma LedgerReviewStart(m: Manifest, boundary: Event -> string, c: Context, st: Machine, l: Ledger, r: ReviewOwner)
    requires Rules(m, boundary, c, l) && Mirrors(st, l) && |l.starts| == |l.dones| == |l.reviewStarts| + 1
    requires r.round == |l.starts| && r.bindingRef == m.reviewerBinding
    requires r.attemptId == l.starts[|l.starts| - 1].attemptId && r.executorSession == l.starts[|l.starts| - 1].session
    requires r.session !in st.executorSessions && r.session !in st.reviewerSessions
    ensures Rules(m, boundary, c, l.(reviewStarts := l.reviewStarts + [r]))
  {
    hide RouteOk, Independent, DistinctAttempts, RevisionChain, VerdictOk, Escalated, Capabilities, AttemptKeys, ReviewKeys;
    hide ExecutorSet, ReviewerSet, Records, CurrentAttempt, CurrentCompletion, CurrentReview, PreviousReview, EscalationTarget;
    hide RejectedReview, AcceptedReview, EvidenceKept, OpenFindings, EvidenceFor;
    AddReviewer(st.executorSessions, st.reviewerSessions, st.reviews.Keys, l.starts, l.reviewStarts, r);
    VerdictsStand(boundary, l, l.(reviewStarts := l.reviewStarts + [r]));
  }

  lemma ReviewStartKeeps(m: Manifest, boundary: Event -> string, c: Context, st: Machine, e: Event, next: Machine, l: Ledger)
    requires Inv(m, boundary, c, st, l) && Steps(m, boundary, c, st, e, next) && e.body.ReviewStarted?
    ensures Inv(m, boundary, c, next, Add(l, e))
  {
    hide Steps, RouteOk, Independent, RevisionChain, VerdictOk, Escalated, AttemptKeys, ReviewKeys, Capabilities, ReviewOrder;
    hide ExecutorSet, ReviewerSet, Records, PreviousReview, EscalationTarget, AcceptedReview, CurrentAttempt;
    hide RejectedReview, EvidenceKept, OpenFindings, EvidenceFor, DistinctAttempts, CurrentCompletion, Verdicts;
    ReviewStartEffect(m, boundary, c, st, e, next);
    var r := e.body.review;
    ReviewsLastAttempt(c, st.attempts, st.currentCompletion, l.starts, l.dones, |l.reviewStarts|, r.attemptId);
    LedgerReviewStart(m, boundary, c, st, l, r);
    AddReviewer(st.executorSessions, st.reviewerSessions, st.reviews.Keys, l.starts, l.reviewStarts, r);
    ReviewRecord(st.attempts, l.starts, l.dones, |l.reviewStarts|, r.attemptId);
    assert next.attempts.Keys == st.attempts.Keys;
  }

  // -- a review completes

  lemma {:induction false} UnresolvedIsFold(open: set<string>, findings: seq<Finding>)
    requires NextUnresolved(open, findings).Some?
    ensures NextUnresolved(open, findings).value == ApplyFindings(open, findings)
    decreases |findings|
  {
    if findings != [] {
      UnresolvedIsFold(if findings[0].open then open + {findings[0].findingId} else open - {findings[0].findingId}, findings[1..]);
    }
  }

  lemma ReviewRecordEffect(m: Manifest, c: Context, st: Machine, e: Event)
    requires e.body.ReviewCompleted? && Record(m, c, st, e).Ok?
    ensures var p, r, next := e.body, e.body.review, Record(m, c, st, e).value;
            && st.currentReview.Some? && IsReview(st.currentReview.value, r)
            && r.attemptId in st.attempts && st.attempts[r.attemptId].completed.Some?
            && st.attempts[r.attemptId].completed.value.body.ExecutionCompleted?
            && p.toRevision == st.attempts[r.attemptId].completed.value.body.outputRevision
            && (if r.round == 1 then p.fromRevision == c.block.baseRevision && p.previousBoundary.None?
                else && st.previousReview.Some? && st.previousReview.value.body.ReviewCompleted?
                     && p.fromRevision == st.previousReview.value.body.toRevision
                     && p.previousBoundary == Some(st.previousReview.value.body.boundaryHash))
            && SameStrings(p.evidence, Evidence(ValidationsOf(st, r.attemptId)))
            && NextUnresolved(st.unresolved, p.material) == Some(next.unresolved)
            && multiset(p.unresolvedIds) == multiset(next.unresolved)
            && next == st.(
                 unresolved := next.unresolved, reviews := next.reviews, previousReview := Some(e), currentReview := None,
                 rejectedReviewEventId := if p.decision.Reject? then Some(e.eventId) else st.rejectedReviewEventId,
                 acceptedReview := if p.decision.Reject? then st.acceptedReview else Some(e),
                 acceptedCompletion := if p.decision.Reject? then st.acceptedCompletion else st.attempts[r.attemptId].completed)
            && next.reviews.Keys == st.reviews.Keys
  {
    hide SameStrings, NextUnresolved, Evidence, ValidationsOf;
  }

  lemma ReviewEffect(m: Manifest, boundary: Event -> string, c: Context, st: Machine, e: Event, next: Machine)
    requires Steps(m, boundary, c, st, e, next) && e.body.ReviewCompleted?
    ensures var p, r := e.body, e.body.review;
            && st.phase.Some? && st.phase.value.Reviewing? && next.phase == NextPhase(st.phase, p, c.route)
            && st.currentReview.Some? && IsReview(st.currentReview.value, r)
            && r.attemptId in st.attempts && st.attempts[r.attemptId].completed.Some?
            && st.attempts[r.attemptId].completed.value.body.ExecutionCompleted?
            && p.toRevision == st.attempts[r.attemptId].completed.value.body.outputRevision
            && (if r.round == 1 then p.fromRevision == c.block.baseRevision && p.previousBoundary.None?
                else && st.previousReview.Some? && st.previousReview.value.body.ReviewCompleted?
                     && p.fromRevision == st.previousReview.value.body.toRevision
                     && p.previousBoundary == Some(st.previousReview.value.body.boundaryHash))
            && p.boundaryHash == boundary(e)
            && SameStrings(p.evidence, Evidence(ValidationsOf(st, r.attemptId)))
            && NextUnresolved(st.unresolved, p.material) == Some(next.unresolved)
            && multiset(p.unresolvedIds) == multiset(next.unresolved)
            && (p.decision.Accept? ==> p.unresolvedIds == [])
    ensures var p, r := e.body, e.body.review;
            && next.reviews.Keys == st.reviews.Keys && next.previousReview == Some(e) && next.currentReview == None
            && (p.decision.Reject? ==>
                  && next.rejectedReviewEventId == Some(e.eventId)
                  && next.acceptedReview == st.acceptedReview && next.acceptedCompletion == st.acceptedCompletion)
            && (p.decision.Accept? ==>
                  next.acceptedReview == Some(e) && next.acceptedCompletion == st.attempts[r.attemptId].completed)
            && Agree(st, next.(reviews := st.reviews, previousReview := st.previousReview, currentReview := st.currentReview,
                               rejectedReviewEventId := st.rejectedReviewEventId, acceptedReview := st.acceptedReview,
                               acceptedCompletion := st.acceptedCompletion, unresolved := st.unresolved))
  {
    hide SameStrings, NextUnresolved, Evidence, Record, NextPhase;
    ReviewRecordEffect(m, c, Tick(st, e), e);
    ReviewNext(st.phase, e.body, c.route);
  }

  lemma ReviewNext(phase: Option<Phase>, p: Payload, route: Route)
    requires p.ReviewCompleted? && NextPhase(phase, p, route).Some?
    ensures phase.Some? && phase.value.Reviewing?
  {
  }

  /** A completed review continues the revision chain and the boundary chain at its attempt. */
  lemma VerdictContinues(boundary: Event -> string, c: Context, st: Machine, l: Ledger, v: Verdict)
    requires RevisionChain(c, l.starts, l.dones) && Verdicts(boundary, l) && PreviousReview(st.previousReview, l.verdicts)
    requires |l.starts| == |l.dones| == |l.reviewStarts| == |l.verdicts| + 1
    requires v.owner == l.reviewStarts[|l.verdicts|] && v.owner.round == |l.starts|
    requires if v.owner.round == 1 then v.fromRevision == c.block.baseRevision && v.previousBoundary.None?
             else && st.previousReview.Some? && st.previousReview.value.body.ReviewCompleted?
                  && v.fromRevision == st.previousReview.value.body.toRevision
                  && v.previousBoundary == Some(st.previousReview.value.body.boundaryHash)
    ensures v.fromRevision == l.starts[|l.verdicts|].inputRevision
    ensures v.previousBoundary == if l.verdicts == [] then None else Some(l.verdicts[|l.verdicts| - 1].boundary)
  {
    var n := |l.verdicts|;
    if n > 0 {
      assert VerdictOk(boundary, l, n - 1);
    }
  }

  lemma ReviewedOutput(attempts: map<string, Attempt>, starts: seq<AttemptOwner>, dones: seq<Done>, reviewed: nat, i: nat)
    requires Records(attempts, starts, dones, reviewed) && i < |starts| && i < |dones|
    ensures starts[i].attemptId in attempts && attempts[starts[i].attemptId].completed.Some?
    ensures IsDone(attempts[starts[i].attemptId].completed.value, dones[i])
  {
    assert RecordOf(attempts, starts, dones, reviewed, i);
  }

  lemma AddVerdict(boundary: Event -> string, l: Ledger, v: Verdict)
    requires Verdicts(boundary, l) && |l.starts| == |l.dones| == |l.reviewStarts| == |l.verdicts| + 1
    requires l.verdicts != [] ==> LastRejects(l.verdicts)
    requires v.owner == l.reviewStarts[|l.verdicts|] && v.fromRevision == l.starts[|l.verdicts|].inputRevision
    requires v.toRevision == l.dones[|l.verdicts|].revision && v.boundary == boundary(v.event)
    requires v.previousBoundary == if l.verdicts == [] then None else Some(l.verdicts[|l.verdicts| - 1].boundary)
    requires multiset(v.evidence) == multiset(EvidenceFor(l.checks, l.starts[|l.verdicts|].attemptId))
    requires multiset(v.unresolvedIds) == multiset(ApplyFindings(OpenFindings(l.verdicts), v.material))
    requires v.decision.Accept? ==> v.unresolvedIds == []
    ensures Verdicts(boundary, l.(verdicts := l.verdicts + [v]))
    ensures OpenFindings(l.verdicts + [v]) == ApplyFindings(OpenFindings(l.verdicts), v.material)
  {
    var after, n := l.(verdicts := l.verdicts + [v]), |l.verdicts|;
    assert after.verdicts[..n] == l.verdicts && after.verdicts[..n + 1] == after.verdicts;
    VerdictsStand(boundary, l, after);
    if v.decision.Accept? {
      EmptyOpen(v.unresolvedIds, ApplyFindings(OpenFindings(l.verdicts), v.material));
    }
    assert VerdictOk(boundary, after, n);
  }

  lemma EmptyOpen(ids: seq<string>, open: set<string>)
    requires multiset(ids) == multiset(open) && ids == []
    ensures open == {}
  {
    assert forall x :: x in open ==> x in multiset(open);
  }

  lemma LedgerVerdict(m: Manifest, boundary: Event -> string, c: Context, st: Machine, e: Event, next: Machine, l: Ledger)
    requires Inv(m, boundary, c, st, l) && Steps(m, boundary, c, st, e, next) && e.body.ReviewCompleted?
    ensures |l.starts| == |l.dones| == |l.reviewStarts| == |l.verdicts| + 1
    ensures Verdicts(boundary, Add(l, e)) && next.unresolved == OpenFindings(l.verdicts + [VerdictOf(e)])
    ensures e.body.review.attemptId in st.attempts && st.attempts[e.body.review.attemptId].completed.Some?
    ensures IsDone(st.attempts[e.body.review.attemptId].completed.value, l.dones[|l.verdicts|])
  {
    hide Steps, RouteOk, Independent, RevisionChain, VerdictOk, Escalated, AttemptKeys, ReviewKeys, Capabilities;
    hide ExecutorSet, ReviewerSet, Records, PreviousReview, EscalationTarget, AcceptedReview, CurrentAttempt, Verdicts;
    hide RejectedReview, OpenFindings, EvidenceFor, DistinctAttempts, CurrentCompletion, Evidence, SameStrings, ApplyFindings;
    ReviewEffect(m, boundary, c, st, e, next);
    ReviewChecks(m, boundary, c, st, e, next, l);
    VerdictContinues(boundary, c, st, l, VerdictOf(e));
    AddVerdict(boundary, l, VerdictOf(e));
  }

  /** The review's own fields agree with the ledger: its owner, its attempt's output, its evidence and findings. */
  lemma ReviewChecks(m: Manifest, boundary: Event -> string, c: Context, st: Machine, e: Event, next: Machine, l: Ledger)
    requires Inv(m, boundary, c, st, l) && Steps(m, boundary, c, st, e, next) && e.body.ReviewCompleted?
    ensures |l.starts| == |l.dones| == |l.reviewStarts| == |l.verdicts| + 1
    ensures e.body.review == l.reviewStarts[|l.verdicts|] && e.body.review.round == |l.starts|
    ensures e.body.review.attemptId == l.starts[|l.verdicts|].attemptId
    ensures st.attempts[e.body.review.attemptId].completed.Some?
    ensures IsDone(st.attempts[e.body.review.attemptId].completed.value, l.dones[|l.verdicts|])
    ensures multiset(e.body.evidence) == multiset(EvidenceFor(l.checks, e.body.review.attemptId))
    ensures next.unresolved == ApplyFindings(OpenFindings(l.verdicts), e.body.material)
    ensures l.verdicts != [] ==> LastRejects(l.verdicts)
  {
    hide Steps, RouteOk, Independent, RevisionChain, VerdictOk, Escalated, AttemptKeys, ReviewKeys, Capabilities;
    hide ExecutorSet, ReviewerSet, Records, PreviousReview, EscalationTarget, AcceptedReview, CurrentAttempt, Verdicts;
    hide RejectedReview, OpenFindings, EvidenceFor, DistinctAttempts, CurrentCompletion, Evidence, SameStrings, ApplyFindings;
    ReviewEffect(m, boundary, c, st, e, next);
    assert |l.starts| == |l.dones| == |l.reviewStarts| == |l.verdicts| + 1;
    ReviewedOutput(st.attempts, l.starts, l.dones, |l.reviewStarts|, |l.verdicts|);
    SameStringsIsPermutation(e.body.evidence, Evidence(ValidationsOf(st, e.body.review.attemptId)));
    UnresolvedIsFold(st.unresolved, e.body.material);
  }

  lemma AfterVerdict(st: Machine, next: Machine, l: Ledger, e: Event)
    requires e.body.ReviewCompleted? && |l.dones| == |l.verdicts| + 1
    requires l.verdicts != [] ==> LastRejects(l.verdicts)
    requires AcceptedReview(st.acceptedReview, st.acceptedCompletion, l.dones, l.verdicts)
    requires next.previousReview == Some(e)
    requires if e.body.decision.Reject? then
               && next.rejectedReviewEventId == Some(e.eventId)
               && next.acceptedReview == st.acceptedReview && next.acceptedCompletion == st.acceptedCompletion
             else
               && next.acceptedReview == Some(e) && next.acceptedCompletion.Some?
               && IsDone(next.acceptedCompletion.value, l.dones[|l.verdicts|])
    ensures var verdicts := l.verdicts + [VerdictOf(e)];
            && PreviousReview(next.previousReview, verdicts) && RejectedReview(next.rejectedReviewEventId, verdicts)
            && AcceptedReview(next.acceptedReview, next.acceptedCompletion, l.dones, verdicts)
  {
  }

  lemma EscalatedStands(
    m: Manifest, c: Context, starts: seq<AttemptOwner>, verdicts: seq<Verdict>, v: Verdict, escalations: seq<Escalation>)
    requires Escalated(m, c, starts, verdicts, escalations)
    ensures Escalated(m, c, starts, verdicts + [v], escalations)
  {
  }

  lemma ReviewKeeps(m: Manifest, boundary: Event -> string, c: Context, st: Machine, e: Event, next: Machine, l: Ledger)
    requires Inv(m, boundary, c, st, l) && Steps(m, boundary, c, st, e, next) && e.body.ReviewCompleted?
    ensures Inv(m, boundary, c, next, Add(l, e))
  {
    hide Steps, RouteOk, Independent, RevisionChain, VerdictOk, Escalated, AttemptKeys, ReviewKeys, Capabilities, ReviewOrder;
    hide ExecutorSet, ReviewerSet, Records, PreviousReview, EscalationTarget, AcceptedReview, CurrentAttempt, Verdicts;
    hide RejectedReview, OpenFindings, EvidenceFor, DistinctAttempts, CurrentCompletion, Evidence, SameStrings, EvidenceKept;
    ReviewEffect(m, boundary, c, st, e, next);
    LedgerVerdict(m, boundary, c, st, e, next, l);
    AfterVerdict(st, next, l, e);
    EscalatedStands(m, c, l.starts, l.verdicts, VerdictOf(e), l.escalations);
  }

  // -- an escalation, and the events the ledger does not list

  lemma EscalationEffect(m: Manifest, boundary: Event -> string, c: Context, st: Machine, e: Event, next: Machine)
    requires Steps(m, boundary, c, st, e, next) && e.body.EscalationDecided?
    ensures st.phase == Some(EscalationRequired) && next.phase == Some(Ready(3)) && c.route == Some(AdaptiveEscalation)
    ensures st.rejectedReviewEventId == Some(e.body.rejectedReviewEventId) && Bound(m, e.body.targetBinding, Strong)
    ensures next.escalationTarget == Some(e.body.targetBinding)
    ensures Agree(st, next.(escalationTarget := st.escalationTarget))
  {
    assert CloseWindows(st.reviews).Keys == st.reviews.Keys;
  }

  lemma EscalationKeeps(m: Manifest, boundary: Event -> string, c: Context, st: Machine, e: Event, next: Machine, l: Ledger)
    requires Inv(m, boundary, c, st, l) && Steps(m, boundary, c, st, e, next) && e.body.EscalationDecided?
    ensures Inv(m, boundary, c, next, Add(l, e))
  {
    hide Steps, RouteOk, Independent, RevisionChain, VerdictOk, AttemptKeys, ReviewKeys, Capabilities, ReviewOrder;
    hide ExecutorSet, ReviewerSet, Records, PreviousReview, AcceptedReview, CurrentAttempt, Bound;
    hide OpenFindings, EvidenceFor, DistinctAttempts, CurrentCompletion, EvidenceKept;
    EscalationEffect(m, boundary, c, st, e, next);
    VerdictsStand(boundary, l, Add(l, e));
  }

  predicate Unlisted(p: Payload) {
    !p.ExecutionStarted? && !p.ExecutionCompleted? && !p.ValidationRecorded? && !p.ReviewStarted? && !p.ReviewCompleted?
    && !p.EscalationDecided?
  }

  lemma UnlistedRecord(m: Manifest, c: Context, st: Machine, e: Event)
    requires Unlisted(e.body) && Record(m, c, st, e).Ok?
    ensures Agree(st, Record(m, c, st, e).value)
  {
    hide RecordUsage, RecordOperation;
    hide FindBinding, WindowOpen, AcceptsEvidence;
    if e.body.UsageRecorded? { UsageRecordAgrees(m, st, e); }
    if e.body.OrchestratorOperation? { OperationRecordAgrees(m, st, e); }
  }

  lemma UsageRecordAgrees(m: Manifest, st: Machine, e: Event)
    requires e.body.UsageRecorded? && RecordUsage(m, st, e).Ok?
    ensures Agree(st, RecordUsage(m, st, e).value)
  {
    hide FindBinding, WindowOpen, AcceptsEvidence;
  }

  lemma OperationRecordAgrees(m: Manifest, st: Machine, e: Event)
    requires e.body.OrchestratorOperation? && RecordOperation(m, st, e).Ok?
    ensures Agree(st, RecordOperation(m, st, e).value)
  {
    hide FindBinding;
  }

  lemma UnlistedEffect(m: Manifest, boundary: Event -> string, c: Context, st: Machine, e: Event, next: Machine)
    requires Steps(m, boundary, c, st, e, next) && Unlisted(e.body)
    ensures Agree(st, next) && next.phase.Some? && next.phase == NextPhase(st.phase, e.body, c.route)
  {
    hide NextPhase, GuardOk, Record;
    UnlistedRecord(m, c, Tick(st, e), e);
    assert CloseWindows(st.reviews).Keys == st.reviews.Keys;
  }

  lemma UnlistedKeeps(m: Manifest, boundary: Event -> string, c: Context, st: Machine, e: Event, next: Machine, l: Ledger)
    requires Inv(m, boundary, c, st, l) && Steps(m, boundary, c, st, e, next) && Unlisted(e.body)
    ensures Inv(m, boundary, c, next, Add(l, e))
  {
    hide Steps, Rules, AttemptKeys, ReviewKeys, CurrentReview, RejectedReview, EscalationTarget;
    hide ExecutorSet, ReviewerSet, Records, PreviousReview, AcceptedReview, CurrentAttempt;
    hide OpenFindings, CurrentCompletion, EvidenceKept;
    UnlistedEffect(m, boundary, c, st, e, next);
    assert Reaches(next.phase, c, l);
  }

  lemma StepKeeps(m: Manifest, boundary: Event -> string, c: Context, st: Machine, e: Event, next: Machine, l: Ledger)
    requires Inv(m, boundary, c, st, l) && Steps(m, boundary, c, st, e, next)
    ensures Inv(m, boundary, c, next, Add(l, e))
  {
    hide Inv, Steps, Add;
    if e.body.ExecutionStarted? {
      StartKeeps(m, boundary, c, st, e, next, l);
    } else if e.body.ExecutionCompleted? {
      CompletionKeeps(m, boundary, c, st, e, next, l);
    } else if e.body.ValidationRecorded? {
      ValidationKeeps(m, boundary, c, st, e, next, l);
    } else if e.body.ReviewStarted? {
      ReviewStartKeeps(m, boundary, c, st, e, next, l);
    } else if e.body.ReviewCompleted? {
      ReviewKeeps(m, boundary, c, st, e, next, l);
    } else if e.body.EscalationDecided? {
      EscalationKeeps(m, boundary, c, st, e, next, l);
    } else {
      UnlistedKeeps(m, boundary, c, st, e, next, l);
    }
  }
}
