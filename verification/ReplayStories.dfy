/**
 Whole histories of a block, told field by field: a block taken through one, two or three attempts replays as accepted
 with the last attempt's revision and tree, or as failed after the third rejection, under every arm.
 */
module ReplayStories {
  import opened Prelude
  import opened PilotEvents
  import opened Sorting
  import opened StateMachine
  import opened ReplayInvariants
  import opened ReplayTheorems
  import opened ReplayExact
  import E = EventStore

  /** An attempt and its review: its start, its completion, the start of its review and the verdict. */
  datatype Turn = Turn(start: Event, done: Event, review: Event, verdict: Event)

  function Events(t: Turn): seq<Event> { [t.start, t.done, t.review, t.verdict] }

  predicate Shaped(t: Turn) {
    t.start.body.ExecutionStarted? && t.done.body.ExecutionCompleted? && t.review.body.ReviewStarted? && t.verdict.body.ReviewCompleted?
  }

  predicate AllShaped(turns: seq<Turn>) { forall i | 0 <= i < |turns| :: Shaped(turns[i]) }

  /** The attempt: its number and kind, the arm's capability, a binding, new names, and the revision it starts from. */
  ghost predicate AttemptFits(m: Manifest, c: Context, prior: seq<Turn>, t: Turn)
    requires Shaped(t) && AllShaped(prior)
  {
    var a, n := t.start.body.attempt, |prior| + 1;
    && a.number == n && a.kind == (if n == 1 then Implementation else if n == 2 then Repair else FinalExecution)
    && a.capability == (match c.route
                        case None => Strong
                        case Some(StrongBaseline) => Strong
                        case Some(CheapNoEscalation) => Cheap
                        case Some(AdaptiveEscalation) => if n == 3 then Strong else Cheap)
    && Registered(m.bindings, a.bindingRef, a.capability)
    && a.inputRevision != ""
    && a.inputRevision == (if n == 1 then c.block.baseRevision else prior[n - 2].done.body.outputRevision)
    && forall i | 0 <= i < |prior| ::
         var p := prior[i];
         && p.start.body.attempt.attemptId != a.attemptId
         && p.start.body.attempt.session != a.session && p.review.body.review.session != a.session
  }

  /** Its completion: the same attempt, its duration, and a tree reproduced under the manifest's rules. */
  predicate CompletionFits(m: Manifest, t: Turn)
    requires Shaped(t)
  {
    var p := t.done.body;
    && p.attempt == t.start.body.attempt
    && p.finishedMs >= p.attempt.startedMs && p.durationMs == p.finishedMs - p.attempt.startedMs
    && p.treeAlgorithmVersion == m.treeAlgorithmVersion && p.volatilePathsHash == m.volatilePathsHash && p.reproduced
  }

  /** Its review: the round of the attempt, by the manifest's reviewer, in a session of its own. */
  ghost predicate ReviewFits(m: Manifest, prior: seq<Turn>, t: Turn)
    requires Shaped(t) && AllShaped(prior)
  {
    var r, a := t.review.body.review, t.start.body.attempt;
    && r.round == |prior| + 1 && r.bindingRef == m.reviewerBinding
    && r.attemptId == a.attemptId && r.executorSession == a.session && r.session != a.session
    && forall i | 0 <= i < |prior| ::
         var p := prior[i];
         && p.review.body.review.reviewId != r.reviewId
         && p.review.body.review.session != r.session && p.start.body.attempt.session != r.session
  }

  /** Its verdict: over the attempt's revisions, on the previous boundary, with nothing left open. */
  ghost predicate VerdictFits(boundary: Event -> string, prior: seq<Turn>, t: Turn, accepts: bool)
    requires Shaped(t) && AllShaped(prior)
  {
    var p, n := t.verdict.body, |prior| + 1;
    && p.review == t.review.body.review
    && p.fromRevision == t.start.body.attempt.inputRevision && p.toRevision == t.done.body.outputRevision
    && p.previousBoundary == (if n == 1 then None else Some(prior[n - 2].verdict.body.boundaryHash))
    && p.boundaryHash == boundary(t.verdict) && p.evidence == [] && p.unresolvedIds == [] && p.material == []
    && (forall f | f in p.nonMaterial :: !f.material)
    && p.finishedMs >= p.review.startedMs && p.durationMs == p.finishedMs - p.review.startedMs
    && if accepts then p.decision == Accept else p.decision == Reject && p.nonMaterial != []
  }

  ghost predicate TurnFits(m: Manifest, boundary: Event -> string, c: Context, prior: seq<Turn>, t: Turn, accepts: bool) {
    && Shaped(t) && AllShaped(prior)
    && AttemptFits(m, c, prior, t) && CompletionFits(m, t) && ReviewFits(m, prior, t) && VerdictFits(boundary, prior, t, accepts)
  }

  /** The turns follow one another; all but the last reject, and the last accepts or rejects. */
  ghost predicate TurnsFit(m: Manifest, boundary: Event -> string, c: Context, turns: seq<Turn>, accepted: bool) {
    forall i | 0 <= i < |turns| :: TurnFits(m, boundary, c, turns[..i], turns[i], accepted && i == |turns| - 1)
  }

  // ---- One event after another -----------------------------------------------------------

  /** The event is of the manifest's pilot, about a block as the manifest describes it, under the block's arm. */
  ghost predicate Belongs(m: Manifest, e: Event) {
    && e.pilotId == m.pilotId && e.manifestHash == m.manifestHash && FindBlock(m.blocks, e.blockId).Some?
    && var b, arm := FindBlock(m.blocks, e.blockId).value, FindArm(m.assignments, e.blockId);
    && e.taskId == b.taskId && e.stratum == b.stratum && e.tripletId == b.tripletId && e.fingerprint == b.fingerprint
    && e.arm == arm && (arm.None? ==> !b.comparative && b.initialCapability == Strong && b.finalCapability == Strong)
  }

  /** Numbered from one, in time, and about the block as the manifest describes it. */
  ghost predicate InOrder(m: Manifest, id: string, h: seq<Event>) {
    && SameBlock(h, id) && FindBlock(m.blocks, id).Some?
    && (forall i | 0 <= i < |h| :: h[i].sequence == i + 1 && h[i].occurredAt.Some? && Belongs(m, h[i]))
    && (forall i | 0 < i < |h| :: h[i - 1].occurredAt.value <= h[i].occurredAt.value)
  }

  /** The replay has gone through the first `n` events and is in this state, with this ledger. */
  ghost predicate Reached(m: Manifest, boundary: Event -> string, id: string, h: seq<Event>, n: nat, phase: Option<Phase>, l: Ledger) {
    && n <= |h| && InOrder(m, id, h) && Replay(m, boundary, h, n).Going? &&
    var st := Replay(m, boundary, h, n).machine;
    && st.phase == phase && l == LedgerOf(h[..n]) && CompletionLinked(st, l)
    && st.previousAt == (if n == 0 then None else h[n - 1].occurredAt)
    && Inv(m, boundary, ContextOf(m, id), st, l)
  }

  lemma AtFirst(m: Manifest, boundary: Event -> string, id: string, h: seq<Event>)
    requires InOrder(m, id, h)
    ensures Reached(m, boundary, id, h, 0, None, Blank)
  {
    assert h[..0] == [];
    StartInvariant(m, boundary, ContextOf(m, id));
    LinkedStart();
    hide InOrder, Inv, CompletionLinked;
  }

  lemma Advance(m: Manifest, boundary: Event -> string, id: string, h: seq<Event>, n: nat, phase: Option<Phase>, l: Ledger)
    requires Reached(m, boundary, id, h, n, phase, l) && n < |h|
    requires Admits(m, boundary, ContextOf(m, id), Replay(m, boundary, h, n).machine, h[n])
    ensures Reached(m, boundary, id, h, n + 1, NextPhase(phase, h[n].body, ContextOf(m, id).route), Add(l, h[n]))
  {
    hide Step, Inv, CompletionLinked, Admits, NextPhase, Add, Belongs, Steps;
    var st := Replay(m, boundary, h, n).machine;
    GoesOn(m, boundary, id, h, n);
    StepGoesIff(m, boundary, st, n, h[n]);
    GoesOnKeeping(m, boundary, id, st, n, h[n], l);
    assert h[..n + 1][..n] == h[..n];
  }

  lemma GoesOn(m: Manifest, boundary: Event -> string, id: string, h: seq<Event>, n: nat)
    requires n < |h| && InOrder(m, id, h) && Replay(m, boundary, h, n).Going?
    requires var st := Replay(m, boundary, h, n).machine;
             && st.previousAt == (if n == 0 then None else h[n - 1].occurredAt)
             && Admits(m, boundary, ContextOf(m, id), st, h[n])
    ensures var st := Replay(m, boundary, h, n).machine;
            Step(m, boundary, st, n, h[n]).Going? && Replay(m, boundary, h, n + 1) == Step(m, boundary, st, n, h[n])
  {
    StepGoesIff(m, boundary, Replay(m, boundary, h, n).machine, n, h[n]);
    IdentifiedIff(m, h[n]);
    hide Step, Admits, BlockContext;
  }

  lemma GoesOnKeeping(m: Manifest, boundary: Event -> string, id: string, st: Machine, n: nat, e: Event, l: Ledger)
    requires Step(m, boundary, st, n, e).Going? && e.blockId == id && FindBlock(m.blocks, id).Some?
    requires Inv(m, boundary, ContextOf(m, id), st, l) && CompletionLinked(st, l)
    ensures var next := Step(m, boundary, st, n, e).machine;
            Inv(m, boundary, ContextOf(m, id), next, Add(l, e)) && CompletionLinked(next, Add(l, e))
  {
    hide *;
    GoingSteps(m, boundary, st, n, e);
    var next := Step(m, boundary, st, n, e).machine;
    LinkedStep(m, boundary, ContextOf(m, id), st, e, next, l);
    StepKeeps(m, boundary, ContextOf(m, id), st, e, next, l);
  }

  // ---- One turn after another ------------------------------------------------------------

  /** The ledger lists these turns, with no evidence and no finding left open. */
  ghost predicate Tells(l: Ledger, prior: seq<Turn>) {
    && AllShaped(prior) && |l.starts| == |l.dones| == |l.reviewStarts| == |l.verdicts| == |prior|
    && l.checks == [] && OpenFindings(l.verdicts) == {}
    && forall i | 0 <= i < |prior| ::
         && l.starts[i] == prior[i].start.body.attempt && l.dones[i] == DoneOf(prior[i].done.body)
         && l.reviewStarts[i] == prior[i].review.body.review && l.verdicts[i] == VerdictOf(prior[i].verdict)
  }

  /** The phase a turn leads to. */
  function After(route: Route, n: Round, accepts: bool): Phase {
    if accepts then ReadyAccept
    else if n == 1 then Ready(2)
    else if n == 3 then ReadyFail
    else if route == Some(AdaptiveEscalation) then EscalationRequired else Ready(3)
  }

  lemma ReachedMeans(m: Manifest, boundary: Event -> string, id: string, h: seq<Event>, n: nat, phase: Option<Phase>, l: Ledger)
    requires Reached(m, boundary, id, h, n, phase, l)
    ensures n <= |h| && FindBlock(m.blocks, id).Some? && Replay(m, boundary, h, n).Going?
    ensures var st := Replay(m, boundary, h, n).machine;
            st.phase == phase && Inv(m, boundary, ContextOf(m, id), st, l) && CompletionLinked(st, l)
  {
  }

  lemma StartAdmitted(m: Manifest, boundary: Event -> string, c: Context, st: Machine, l: Ledger, prior: seq<Turn>, t: Turn)
    requires |prior| < 3 && Tells(l, prior) && Shaped(t) && AttemptFits(m, c, prior, t) && Inv(m, boundary, c, st, l)
    requires st.phase == Some(Ready(|prior| + 1))
    requires c.route == Some(AdaptiveEscalation) && |prior| == 2 ==>
               l.escalations != [] && l.escalations[0].target == t.start.body.attempt.bindingRef
    ensures Admits(m, boundary, c, st, t.start) && NextPhase(st.phase, t.start.body, c.route) == Some(Executing(|prior| + 1))
  {
    hide Admits, Inv, NextPhase, Registered, OpenFindings, VerdictOf;
    StartIff(m, boundary, c, st, l, t.start);
  }

  lemma CompletionAdmitted(m: Manifest, boundary: Event -> string, c: Context, st: Machine, l: Ledger, n: Round, t: Turn)
    requires Shaped(t) && CompletionFits(m, t) && |l.starts| == n && l.starts[n - 1] == t.start.body.attempt
    requires Inv(m, boundary, c, st, l) && st.phase == Some(Executing(n))
    ensures Admits(m, boundary, c, st, t.done) && NextPhase(st.phase, t.done.body, c.route) == Some(ReadyReview(n))
  {
    hide Admits, Inv, NextPhase;
    CompletionIff(m, boundary, c, st, l, t.done);
  }

  lemma ReviewAdmitted(m: Manifest, boundary: Event -> string, c: Context, st: Machine, l: Ledger, prior: seq<Turn>, t: Turn)
    requires |prior| < 3 && Shaped(t) && AllShaped(prior) && ReviewFits(m, prior, t)
    requires |l.starts| == |prior| + 1 && |l.reviewStarts| == |prior| && l.starts[|prior|] == t.start.body.attempt
    requires forall i | 0 <= i < |prior| ::
               l.starts[i] == prior[i].start.body.attempt && l.reviewStarts[i] == prior[i].review.body.review
    requires Inv(m, boundary, c, st, l) && CompletionLinked(st, l) && st.phase == Some(ReadyReview(|prior| + 1))
    ensures Admits(m, boundary, c, st, t.review) && NextPhase(st.phase, t.review.body, c.route) == Some(Reviewing(|prior| + 1))
  {
    hide Admits, Inv, NextPhase, CompletionLinked;
    ReviewStartIff(m, boundary, c, st, l, t.review);
  }

  lemma VerdictAdmitted(
    m: Manifest, boundary: Event -> string, c: Context, st: Machine, l: Ledger, prior: seq<Turn>, t: Turn, accepts: bool)
    requires |prior| < 3 && Shaped(t) && AllShaped(prior) && VerdictFits(boundary, prior, t, accepts)
    requires |l.starts| == |l.dones| == |l.reviewStarts| == |prior| + 1 && |l.verdicts| == |prior|
    requires l.dones[|prior|] == DoneOf(t.done.body) && l.reviewStarts[|prior|] == t.review.body.review
    requires l.checks == [] && OpenFindings(l.verdicts) == {}
    requires t.start.body.attempt.inputRevision == if prior == [] then c.block.baseRevision else prior[|prior| - 1].done.body.outputRevision
    requires forall i | 0 <= i < |prior| ::
               l.dones[i] == DoneOf(prior[i].done.body) && l.verdicts[i] == VerdictOf(prior[i].verdict)
    requires Inv(m, boundary, c, st, l) && st.phase == Some(Reviewing(|prior| + 1))
    ensures Admits(m, boundary, c, st, t.verdict)
    ensures NextPhase(st.phase, t.verdict.body, c.route) == Some(After(c.route, |prior| + 1, accepts))
  {
    hide Admits, Inv, NextPhase, OpenFindings, ResolvesOpen, ApplyFindings;
    VerdictIff(m, boundary, c, st, l, t.verdict);
    VerdictLeads(|prior| + 1, t.verdict.body, c.route);
    NothingResolved(t.verdict.body.material);
    NoEvidence(l.starts[|prior|].attemptId);
  }

  lemma NoEvidence(id: string)
    ensures EvidenceFor([], id) == []
  {
  }

  lemma TurnStarts(m: Manifest, boundary: Event -> string, id: string, h: seq<Event>, k: nat, prior: seq<Turn>, l: Ledger, t: Turn)
    requires |prior| < 3 && k < |h| && h[k] == t.start && Tells(l, prior) && Shaped(t)
    requires FindBlock(m.blocks, id).Some? && AttemptFits(m, ContextOf(m, id), prior, t)
    requires Reached(m, boundary, id, h, k, Some(Ready(|prior| + 1)), l)
    requires ContextOf(m, id).route == Some(AdaptiveEscalation) && |prior| == 2 ==>
               l.escalations != [] && l.escalations[0].target == t.start.body.attempt.bindingRef
    ensures Reached(m, boundary, id, h, k + 1, Some(Executing(|prior| + 1)), l.(starts := l.starts + [t.start.body.attempt]))
  {
    hide *;
    var c := ContextOf(m, id);
    ReachedMeans(m, boundary, id, h, k, Some(Ready(|prior| + 1)), l);
    StartAdmitted(m, boundary, c, Replay(m, boundary, h, k).machine, l, prior, t);
    Advance(m, boundary, id, h, k, Some(Ready(|prior| + 1)), l);
    AddsStart(l, t);
  }

  lemma TurnCompletes(m: Manifest, boundary: Event -> string, id: string, h: seq<Event>, k: nat, n: Round, l: Ledger, t: Turn)
    requires k < |h| && h[k] == t.done && Shaped(t) && CompletionFits(m, t)
    requires |l.starts| == n && l.starts[n - 1] == t.start.body.attempt
    requires Reached(m, boundary, id, h, k, Some(Executing(n)), l)
    ensures Reached(m, boundary, id, h, k + 1, Some(ReadyReview(n)), l.(dones := l.dones + [DoneOf(t.done.body)]))
  {
    hide *;
    ReachedMeans(m, boundary, id, h, k, Some(Executing(n)), l);
    CompletionAdmitted(m, boundary, ContextOf(m, id), Replay(m, boundary, h, k).machine, l, n, t);
    Advance(m, boundary, id, h, k, Some(Executing(n)), l);
    AddsDone(l, t);
  }

  lemma TurnUnderReview(m: Manifest, boundary: Event -> string, id: string, h: seq<Event>, k: nat, prior: seq<Turn>, l: Ledger, t: Turn)
    requires |prior| < 3 && k < |h| && h[k] == t.review && Shaped(t) && AllShaped(prior) && ReviewFits(m, prior, t)
    requires |l.starts| == |prior| + 1 && |l.reviewStarts| == |prior| && l.starts[|prior|] == t.start.body.attempt
    requires forall i | 0 <= i < |prior| ::
               l.starts[i] == prior[i].start.body.attempt && l.reviewStarts[i] == prior[i].review.body.review
    requires Reached(m, boundary, id, h, k, Some(ReadyReview(|prior| + 1)), l)
    ensures Reached(m, boundary, id, h, k + 1, Some(Reviewing(|prior| + 1)), l.(reviewStarts := l.reviewStarts + [t.review.body.review]))
  {
    hide *;
    ReachedMeans(m, boundary, id, h, k, Some(ReadyReview(|prior| + 1)), l);
    ReviewAdmitted(m, boundary, ContextOf(m, id), Replay(m, boundary, h, k).machine, l, prior, t);
    Advance(m, boundary, id, h, k, Some(ReadyReview(|prior| + 1)), l);
    AddsReview(l, t);
  }

  lemma TurnJudged(
    m: Manifest, boundary: Event -> string, id: string, h: seq<Event>, k: nat, prior: seq<Turn>, l: Ledger, t: Turn, accepts: bool)
    requires |prior| < 3 && k < |h| && h[k] == t.verdict && Shaped(t) && AllShaped(prior) && VerdictFits(boundary, prior, t, accepts)
    requires |l.starts| == |l.dones| == |l.reviewStarts| == |prior| + 1 && |l.verdicts| == |prior|
    requires l.dones[|prior|] == DoneOf(t.done.body) && l.reviewStarts[|prior|] == t.review.body.review
    requires l.checks == [] && OpenFindings(l.verdicts) == {} && FindBlock(m.blocks, id).Some?
    requires t.start.body.attempt.inputRevision ==
             if prior == [] then ContextOf(m, id).block.baseRevision else prior[|prior| - 1].done.body.outputRevision
    requires forall i | 0 <= i < |prior| ::
               l.dones[i] == DoneOf(prior[i].done.body) && l.verdicts[i] == VerdictOf(prior[i].verdict)
    requires Reached(m, boundary, id, h, k, Some(Reviewing(|prior| + 1)), l)
    ensures Reached(m, boundary, id, h, k + 1, Some(After(ContextOf(m, id).route, |prior| + 1, accepts)),
                    l.(verdicts := l.verdicts + [VerdictOf(t.verdict)]))
  {
    hide *;
    ReachedMeans(m, boundary, id, h, k, Some(Reviewing(|prior| + 1)), l);
    VerdictAdmitted(m, boundary, ContextOf(m, id), Replay(m, boundary, h, k).machine, l, prior, t, accepts);
    Advance(m, boundary, id, h, k, Some(Reviewing(|prior| + 1)), l);
    AddsVerdict(l, t);
  }

  lemma AddsStart(l: Ledger, t: Turn)
    requires Shaped(t)
    ensures t.start.body.ExecutionStarted? && Add(l, t.start) == l.(starts := l.starts + [t.start.body.attempt])
  {
  }

  lemma AddsDone(l: Ledger, t: Turn)
    requires Shaped(t)
    ensures t.done.body.ExecutionCompleted? && Add(l, t.done) == l.(dones := l.dones + [DoneOf(t.done.body)])
  {
  }

  lemma AddsReview(l: Ledger, t: Turn)
    requires Shaped(t)
    ensures t.review.body.ReviewStarted? && Add(l, t.review) == l.(reviewStarts := l.reviewStarts + [t.review.body.review])
  {
  }

  lemma AddsVerdict(l: Ledger, t: Turn)
    requires Shaped(t)
    ensures t.verdict.body.ReviewCompleted? && Add(l, t.verdict) == l.(verdicts := l.verdicts + [VerdictOf(t.verdict)])
  {
  }

  lemma NothingResolved(material: seq<Finding>)
    requires material == []
    ensures ResolvesOpen({}, material) && ApplyFindings({}, material) == {}
  {
  }

  /** A turn that fits takes a block that is ready for it to where its verdict leads. */
  lemma TurnGoes(
    m: Manifest, boundary: Event -> string, id: string, h: seq<Event>, k: nat, prior: seq<Turn>, l: Ledger, t: Turn, accepts: bool)
    returns (told: Ledger)
    requires |prior| < 3 && k + 4 <= |h| && h[k..k + 4] == Events(t) && Tells(l, prior)
    requires FindBlock(m.blocks, id).Some? && TurnFits(m, boundary, ContextOf(m, id), prior, t, accepts)
    requires Reached(m, boundary, id, h, k, Some(Ready(|prior| + 1)), l)
    requires ContextOf(m, id).route == Some(AdaptiveEscalation) && |prior| == 2 ==>
               l.escalations != [] && l.escalations[0].target == t.start.body.attempt.bindingRef
    ensures Reached(m, boundary, id, h, k + 4, Some(After(ContextOf(m, id).route, |prior| + 1, accepts)), told)
    ensures Tells(told, prior + [t]) && told.escalations == l.escalations
  {
    hide Reached, AttemptFits, CompletionFits, ReviewFits, VerdictFits, VerdictOf, DoneOf, OpenFindings, After, FindBlock;
    FourEvents(h, k, t);
    FromPrior(m, ContextOf(m, id), prior, t);
    TurnStarts(m, boundary, id, h, k, prior, l, t);
    var a := l.(starts := l.starts + [t.start.body.attempt]);
    TurnCompletes(m, boundary, id, h, k + 1, |prior| + 1, a, t);
    var b := a.(dones := a.dones + [DoneOf(t.done.body)]);
    TurnUnderReview(m, boundary, id, h, k + 2, prior, b, t);
    var c := b.(reviewStarts := b.reviewStarts + [t.review.body.review]);
    TurnJudged(m, boundary, id, h, k + 3, prior, c, t, accepts);
    told := c.(verdicts := c.verdicts + [VerdictOf(t.verdict)]);
    ToldTurn(boundary, l, prior, t, accepts);
  }

  lemma FourEvents(h: seq<Event>, k: nat, t: Turn)
    requires k + 4 <= |h| && h[k..k + 4] == Events(t)
    ensures h[k] == t.start && h[k + 1] == t.done && h[k + 2] == t.review && h[k + 3] == t.verdict
  {
    var four := h[k..k + 4];
    assert four[0] == h[k] && four[1] == h[k + 1] && four[2] == h[k + 2] && four[3] == h[k + 3];
  }

  lemma ToldTurn(boundary: Event -> string, l: Ledger, prior: seq<Turn>, t: Turn, accepts: bool)
    requires Tells(l, prior) && Shaped(t) && VerdictFits(boundary, prior, t, accepts)
    ensures Tells(l.(starts := l.starts + [t.start.body.attempt], dones := l.dones + [DoneOf(t.done.body)],
                     reviewStarts := l.reviewStarts + [t.review.body.review], verdicts := l.verdicts + [VerdictOf(t.verdict)]),
                  prior + [t])
  {
    hide OpenFindings, VerdictOf, DoneOf;
    ToldOpen(l.verdicts, t);
  }

  lemma FromPrior(m: Manifest, c: Context, prior: seq<Turn>, t: Turn)
    requires Shaped(t) && AllShaped(prior) && AttemptFits(m, c, prior, t)
    ensures t.start.body.attempt.inputRevision ==
            if prior == [] then c.block.baseRevision else prior[|prior| - 1].done.body.outputRevision
  {
  }

  lemma ToldOpen(verdicts: seq<Verdict>, t: Turn)
    requires Shaped(t) && t.verdict.body.material == [] && OpenFindings(verdicts) == {}
    ensures OpenFindings(verdicts + [VerdictOf(t.verdict)]) == {}
  {
    OpenOfNext(verdicts, VerdictOf(t.verdict));
  }

  // ---- The whole tale --------------------------------------------------------------------

  /** How many events come before the first attempt. */
  function Opening(c: Context): nat { if c.route.None? then 2 else 3 }

  /** Planned by the contract's hash, assigned the block's arm if it has one, and attested on its clean base tree. */
  ghost predicate OpeningFits(m: Manifest, c: Context, h: seq<Event>) {
    && |h| > Opening(c) && h[0].body == BlockPlanned(c.block.contractHash)
    && (c.route.Some? ==> h[1].body == ArmAssigned(c.route.value, m.assignmentVersion))
    && var e := h[Opening(c) - 1].body;
       && e.IsolationAttested? && e.clean && e.baseRevision == c.block.baseRevision && e.cleanTreeHash == c.block.cleanTreeHash
       && e.observedTreeHash == c.block.cleanTreeHash && e.isolationPolicyVersion == m.isolationPolicyVersion
  }

  /** Where a turn begins: the adaptive arm's escalation comes before the third. */
  function At(c: Context, i: nat): nat {
    Opening(c) + 4 * i + if c.route == Some(AdaptiveEscalation) && i >= 2 then 1 else 0
  }

  /** The escalation: citing the second rejection, to the strong binding the third attempt runs on. */
  ghost predicate EscalationFits(m: Manifest, e: Event, turns: seq<Turn>)
    requires |turns| == 3 && AllShaped(turns)
  {
    && e.body.EscalationDecided? && e.body.rejectedReviewEventId == turns[1].verdict.eventId
    && e.body.targetBinding == turns[2].start.body.attempt.bindingRef && Registered(m.bindings, e.body.targetBinding, Strong)
    && e.body.targetCapability == Strong && e.body.policyVersion == m.routingPolicyVersion
  }

  /** A history of one to three turns that ends accepted, or failed after three. */
  ghost predicate Tale(m: Manifest, boundary: Event -> string, c: Context, h: seq<Event>, turns: seq<Turn>, accepted: bool) {
    && 1 <= |turns| <= 3 && AllShaped(turns) && OpeningFits(m, c, h) && TurnsFit(m, boundary, c, turns, accepted)
    && |h| == At(c, |turns| - 1) + 5
    && (forall i | 0 <= i < |turns| :: h[At(c, i)..At(c, i) + 4] == Events(turns[i]))
    && (c.route == Some(AdaptiveEscalation) && |turns| == 3 ==> EscalationFits(m, h[At(c, 2) - 1], turns))
    && var last, done := h[|h| - 1].body, turns[|turns| - 1].done.body;
       if accepted then last == BlockAccepted(done.outputRevision, done.outputTreeHash) else |turns| == 3 && last == BlockFailed
  }

  lemma Opens(m: Manifest, boundary: Event -> string, id: string, h: seq<Event>)
    requires InOrder(m, id, h) && FindBlock(m.blocks, id).Some? && OpeningFits(m, ContextOf(m, id), h)
    ensures Reached(m, boundary, id, h, Opening(ContextOf(m, id)), Some(Ready(1)), Blank)
  {
    hide InOrder, Reached, Admits, NextPhase;
    var c := ContextOf(m, id);
    AtFirst(m, boundary, id, h);
    ReachedMeans(m, boundary, id, h, 0, None, Blank);
    PlannedIff(m, boundary, c, Replay(m, boundary, h, 0).machine, h[0]);
    Advance(m, boundary, id, h, 0, None, Blank);
    ReachedMeans(m, boundary, id, h, 1, Some(Planned), Blank);
    if c.route.Some? {
      AssignedIff(m, boundary, c, Replay(m, boundary, h, 1).machine, h[1]);
      Advance(m, boundary, id, h, 1, Some(Planned), Blank);
      ReachedMeans(m, boundary, id, h, 2, Some(Assigned), Blank);
      AttestedIff(m, boundary, c, Replay(m, boundary, h, 2).machine, h[2]);
      Advance(m, boundary, id, h, 2, Some(Assigned), Blank);
    } else {
      AttestedIff(m, boundary, c, Replay(m, boundary, h, 1).machine, h[1]);
      Advance(m, boundary, id, h, 1, Some(Planned), Blank);
    }
  }

  lemma EscalationAdmitted(m: Manifest, boundary: Event -> string, c: Context, st: Machine, l: Ledger, e: Event, turns: seq<Turn>)
    requires |turns| == 3 && AllShaped(turns) && EscalationFits(m, e, turns) && Tells(l, turns[..2])
    requires Inv(m, boundary, c, st, l) && st.phase == Some(EscalationRequired)
    ensures Admits(m, boundary, c, st, e) && NextPhase(st.phase, e.body, c.route) == Some(Ready(3))
    ensures var told := l.(escalations := l.escalations + [Escalation(turns[1].verdict.eventId, turns[2].start.body.attempt.bindingRef)]);
            turns[2].start.body.ExecutionStarted? && Add(l, e) == told && Tells(told, turns[..2])
  {
    hide Admits, NextPhase, OpenFindings, DoneOf, Registered, Inv;
    EscalationIff(m, boundary, c, st, l, e);
    assert turns[..2][1] == turns[1];
  }

  /** The escalation after the second rejection. */
  lemma Escalates(m: Manifest, boundary: Event -> string, id: string, h: seq<Event>, k: nat, turns: seq<Turn>, l: Ledger)
    requires |turns| == 3 && AllShaped(turns) && k < |h| && EscalationFits(m, h[k], turns) && Tells(l, turns[..2])
    requires Reached(m, boundary, id, h, k, Some(EscalationRequired), l)
    ensures var told := l.(escalations := l.escalations + [Escalation(turns[1].verdict.eventId, turns[2].start.body.attempt.bindingRef)]);
            && Reached(m, boundary, id, h, k + 1, Some(Ready(3)), told) && Tells(told, turns[..2])
    ensures l.escalations == []
  {
    hide *;
    ReachedMeans(m, boundary, id, h, k, Some(EscalationRequired), l);
    var c, st := ContextOf(m, id), Replay(m, boundary, h, k).machine;
    EscalationAdmitted(m, boundary, c, st, l, h[k], turns);
    Advance(m, boundary, id, h, k, Some(EscalationRequired), l);
    NotYetEscalated(m, boundary, c, st, l);
  }

  lemma NotYetEscalated(m: Manifest, boundary: Event -> string, c: Context, st: Machine, l: Ledger)
    requires Inv(m, boundary, c, st, l) && st.phase == Some(EscalationRequired)
    ensures l.escalations == []
  {
    hide Rules, Mirrors;
  }

  /** The tale gets to each of its turns. */
  lemma {:induction false} ReachesTurn(
    m: Manifest, boundary: Event -> string, id: string, h: seq<Event>, turns: seq<Turn>, accepted: bool, i: nat) returns (l: Ledger)
    requires InOrder(m, id, h) && FindBlock(m.blocks, id).Some?
    requires Tale(m, boundary, ContextOf(m, id), h, turns, accepted) && i < |turns|
    ensures Reached(m, boundary, id, h, At(ContextOf(m, id), i), Some(Ready(i + 1)), l) && Tells(l, turns[..i])
    ensures ContextOf(m, id).route == Some(AdaptiveEscalation) && i == 2 ==>
              l.escalations != [] && l.escalations[0].target == turns[2].start.body.attempt.bindingRef
  {
    hide InOrder, Reached, OpeningFits, Tells, EscalationFits, TurnFits, FindBlock;
    var c := ContextOf(m, id);
    if i == 0 {
      Opens(m, boundary, id, h);
      l := Blank;
      NothingTold();
      assert turns[..0] == [];
    } else {
      var before := ReachesTurn(m, boundary, id, h, turns, accepted, i - 1);
      var k := At(c, i - 1);
      assert turns[..i] == turns[..i - 1] + [turns[i - 1]];
      l := TurnGoes(m, boundary, id, h, k, turns[..i - 1], before, turns[i - 1], false);
      if c.route == Some(AdaptiveEscalation) && i == 2 {
        Escalates(m, boundary, id, h, k + 4, turns, l);
        l := l.(escalations := l.escalations + [Escalation(turns[1].verdict.eventId, turns[2].start.body.attempt.bindingRef)]);
      }
    }
  }

  lemma NothingTold()
    ensures Tells(Blank, [])
  {
  }

  /** A tale is replayed to its end: accepted, or failed. */
  lemma TaleReplays(m: Manifest, boundary: Event -> string, id: string, h: seq<Event>, turns: seq<Turn>, accepted: bool)
    returns (l: Ledger)
    requires InOrder(m, id, h) && FindBlock(m.blocks, id).Some?
    requires Tale(m, boundary, ContextOf(m, id), h, turns, accepted)
    ensures Reached(m, boundary, id, h, |h|, Some(if accepted then Accepted else Failed), l) && Tells(l, turns)
  {
    hide InOrder, Reached, OpeningFits, Tells, EscalationFits, TurnFits, FindBlock;
    var c, n := ContextOf(m, id), |turns|;
    var before := ReachesTurn(m, boundary, id, h, turns, accepted, n - 1);
    assert turns == turns[..n - 1] + [turns[n - 1]];
    l := TurnGoes(m, boundary, id, h, At(c, n - 1), turns[..n - 1], before, turns[n - 1], accepted);
    Ends(m, boundary, id, h, turns, l, accepted);
  }

  lemma Ends(m: Manifest, boundary: Event -> string, id: string, h: seq<Event>, turns: seq<Turn>, l: Ledger, accepted: bool)
    requires turns != [] && AllShaped(turns) && Tells(l, turns) && h != []
    requires var last, done := h[|h| - 1].body, turns[|turns| - 1].done.body;
             if accepted then last == BlockAccepted(done.outputRevision, done.outputTreeHash) else last == BlockFailed
    requires Reached(m, boundary, id, h, |h| - 1, Some(if accepted then ReadyAccept else ReadyFail), l)
    ensures Reached(m, boundary, id, h, |h|, Some(if accepted then Accepted else Failed), l)
  {
    hide Reached, Admits, NextPhase, OpenFindings, VerdictOf, InOrder, Inv;
    var k := |h| - 1;
    ReachedMeans(m, boundary, id, h, k, Some(if accepted then ReadyAccept else ReadyFail), l);
    var c, st := ContextOf(m, id), Replay(m, boundary, h, k).machine;
    if accepted {
      AcceptanceIff(m, boundary, c, st, l, h[k]);
    } else {
      EndIff(m, boundary, c, st, h[k]);
    }
    Advance(m, boundary, id, h, k, Some(if accepted then ReadyAccept else ReadyFail), l);
  }

  // ---- The raw log -----------------------------------------------------------------------

  /** A log of one block without corrections or invalidations. */
  ghost predicate PlainLog(log: seq<Event>, id: string) {
    && id != "" && SameBlock(log, id)
    && forall i | 0 <= i < |log| :: log[i].supersedes.None? && !log[i].body.EventInvalidated?
  }

  /** Such a log is its own history, and no workspace is attested for two blocks. */
  lemma PlainHistory(log: seq<Event>, id: string)
    requires PlainLog(log, id) && forall i | 0 <= i < |log| :: log[i].sequence == i + 1
    ensures History(log, id) == log && !WorkspaceReused(E.ActiveOf(log))
  {
    PlainActive(log, |log|);
    AllOfBlock(log, id);
    hide Sort, E.ActiveOf, OfBlock;
    ByNumber(log);
  }

  lemma {:induction false} PlainActive(log: seq<Event>, n: nat)
    requires n <= |log| && forall i | 0 <= i < |log| :: log[i].supersedes.None? && !log[i].body.EventInvalidated?
    ensures E.ActiveUpTo(log, n) == log[..n]
    ensures E.ActiveOf(log) == E.ActiveUpTo(log, |log|) && log[..|log|] == log
  {
    if n > 0 {
      PlainActive(log, n - 1);
      assert E.Active(log, n - 1);
      assert log[..n] == log[..n - 1] + [log[n - 1]];
    }
  }

  lemma {:induction false} AllOfBlock(events: seq<Event>, id: string)
    requires SameBlock(events, id)
    ensures OfBlock(events, id) == events
  {
    if events != [] {
      AllOfBlock(events[..|events| - 1], id);
      assert events == events[..|events| - 1] + [events[|events| - 1]];
    }
  }

  lemma ByNumber(log: seq<Event>)
    requires forall i | 0 <= i < |log| :: log[i].sequence == i + 1
    ensures Sort(log, SequenceLe) == log
  {
    hide Sort;
    forall x, y | x in log && y in log && SequenceLe(x, y) && SequenceLe(y, x) ensures x == y {
      var i :| 0 <= i < |log| && log[i] == x;
      var j :| 0 <= j < |log| && log[j] == y;
    }
    SortFixed(log, SequenceLe);
  }

  /**
   A block planned by its contract's hash, assigned its arm, attested, and taken through one to three attempts of which the
   last is accepted, is reported as accepted with that attempt's revision, tree and review and nothing open; one rejected
   three times is reported as failed. This under every arm, the adaptive one escalating before its third attempt.
   */
  lemma TaleIsReported(
    m: Manifest, boundary: Event -> string, k: E.Checks, log: seq<Event>, id: string, turns: seq<Turn>, accepted: bool)
    requires E.ValidLog(k, log) && PlainLog(log, id) && InOrder(m, id, log) && FindBlock(m.blocks, id).Some?
    requires Tale(m, boundary, ContextOf(m, id), log, turns, accepted)
    ensures var done := turns[|turns| - 1].done.body;
            BlockOutcome(m, boundary, k, log) ==
            if accepted
            then Valid(Accepted, id, Some(done.outputRevision), Some(done.outputTreeHash),
                       Some(turns[|turns| - 1].review.body.review.reviewId), {})
            else Valid(Failed, id, None, None, None, {})
  {
    hide E.ValidLog, Tale, Replay, Finish, Reached, Tells;
    TaleShape(m, boundary, ContextOf(m, id), log, turns, accepted);
    PlainHistory(log, id);
    var l := TaleReplays(m, boundary, id, log, turns, accepted);
    FinishIs(m, boundary, id, log, turns, l, accepted);
    hide History, E.ActiveOf, WorkspaceReused, InOrder, FindBlock;
  }

  lemma TaleShape(m: Manifest, boundary: Event -> string, c: Context, h: seq<Event>, turns: seq<Turn>, accepted: bool)
    requires Tale(m, boundary, c, h, turns, accepted)
    ensures 1 <= |turns| <= 3 && AllShaped(turns) && h != []
    ensures var t := turns[|turns| - 1]; t.verdict.body.review == t.review.body.review
  {
    hide TurnsFit, OpeningFits, EscalationFits;
    LastFits(m, boundary, c, turns, accepted);
  }

  lemma LastFits(m: Manifest, boundary: Event -> string, c: Context, turns: seq<Turn>, accepted: bool)
    requires turns != [] && AllShaped(turns) && TurnsFit(m, boundary, c, turns, accepted)
    ensures var t := turns[|turns| - 1]; t.verdict.body.review == t.review.body.review
  {
    hide AttemptFits, CompletionFits, ReviewFits;
    var i := |turns| - 1;
    assert TurnFits(m, boundary, c, turns[..i], turns[i], accepted && i == |turns| - 1);
  }

  lemma FinishIs(m: Manifest, boundary: Event -> string, id: string, h: seq<Event>, turns: seq<Turn>, l: Ledger, accepted: bool)
    requires 1 <= |turns| && AllShaped(turns) && Tells(l, turns)
    requires var t := turns[|turns| - 1]; t.verdict.body.review == t.review.body.review
    requires Reached(m, boundary, id, h, |h|, Some(if accepted then Accepted else Failed), l)
    ensures var done := turns[|turns| - 1].done.body;
            Finish(Replay(m, boundary, h, |h|), id) ==
            if accepted
            then Valid(Accepted, id, Some(done.outputRevision), Some(done.outputTreeHash),
                       Some(turns[|turns| - 1].review.body.review.reviewId), {})
            else Valid(Failed, id, None, None, None, {})
  {
    hide Reached, Replay, OpenFindings, Inv, InOrder;
    ReachedMeans(m, boundary, id, h, |h|, Some(if accepted then Accepted else Failed), l);
    var st := Replay(m, boundary, h, |h|).machine;
    NothingOpen(m, boundary, ContextOf(m, id), st, l);
    if accepted { AcceptedMirrored(m, boundary, ContextOf(m, id), st, l); }
  }

  lemma NothingOpen(m: Manifest, boundary: Event -> string, c: Context, st: Machine, l: Ledger)
    requires Inv(m, boundary, c, st, l)
    ensures st.unresolved == OpenFindings(l.verdicts)
  {
    hide Rules, Reaches;
  }
}
