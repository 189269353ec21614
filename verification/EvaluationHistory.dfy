/**
 The evaluation history (src/pilot/evaluate.ts): what may be appended, and what every history built by
 appending keeps from its first report to its last.
 */
module EvaluationHistory {
  import opened Prelude

  datatype Decision = Continue | Reject | InsufficientEvidence | Inconclusive | PromoteBounded

  datatype Report = Report(
    evaluationId: string, pilotId: string, manifestHash: string, version: int,
    supersedesId: Option<string>, supersedesVersion: Option<int>, expectedHash: Option<string>,
    gatePolicyHash: string, stage: int, decision: Decision, promoted: seq<string>, lateCount: nat, qualityCount: nat,
    qualityHash: string, inputHash: string, rest: string)

  /** The decisions each stage's report may carry; a promotion names the strata it promotes, and nothing else does. */
  predicate DecisionFits(r: Report) {
    (r.decision.PromoteBounded? <==> r.promoted != []) &&
    match r.stage
    case 1 => r.decision.Continue? || r.decision.Reject?
    case 2 => !r.decision.Inconclusive?
    case 3 => r.decision.Reject? || r.decision.Inconclusive? || r.decision.PromoteBounded?
    case _ => false
  }

  /** The content hash of a report, and the rest of the report contract. */
  datatype Checks = Checks(hash: Report -> string, valid: Report -> bool)

  predicate ReportOk(k: Checks, r: Report) { DecisionFits(r) && k.valid(r) }

  /** One report and another claim the same place. */
  predicate SameIdentity(a: Report, b: Report) {
    a.evaluationId == b.evaluationId || (a.pilotId == b.pilotId && a.version == b.version)
  }

  predicate Supersedes(k: Checks, prior: Report, r: Report) {
    && r.pilotId == prior.pilotId && r.manifestHash == prior.manifestHash && r.version == prior.version + 1
    && r.supersedesId == Some(prior.evaluationId) && r.supersedesVersion == Some(prior.version)
    && r.expectedHash == Some(k.hash(prior))
  }

  predicate Terminal(d: Decision) { d.Reject? || d.PromoteBounded? }

  /** `validateHistoryTransition` accepts. */
  predicate TransitionOk(k: Checks, prior: Report, r: Report) {
    && Supersedes(k, prior, r)
    && r.gatePolicyHash == prior.gatePolicyHash
    && prior.stage <= r.stage <= prior.stage + 1
    && !(Terminal(prior.decision) && r.stage > prior.stage)
    && r.lateCount >= prior.lateCount && r.qualityCount >= prior.qualityCount
    && !(r.stage == prior.stage && r.qualityCount <= prior.qualityCount)
    && !(r.stage == prior.stage && r.inputHash != prior.inputHash)
    && !(r.stage == prior.stage && r.decision.PromoteBounded?
         && (prior.decision.Reject? || (prior.stage == 3 && !prior.decision.PromoteBounded?)))
  }

  predicate FirstOk(r: Report) {
    r.version == 1 && r.stage == 1 && r.supersedesId.None? && r.supersedesVersion.None? && r.expectedHash.None?
  }

  predicate Extends(k: Checks, history: seq<Report>, r: Report) {
    && (forall i | 0 <= i < |history| :: !SameIdentity(history[i], r))
    && ReportOk(k, r)
    && if history == [] then FirstOk(r) else TransitionOk(k, history[|history| - 1], r)
  }

  /**
   What may be appended, written out. Nothing before it has its identifier, or its pilot and version. Its decision is one
   of its stage's, naming strata exactly when it promotes, and the rest of its contract holds. A first report is version
   one of stage one and supersedes nothing; any other supersedes the last one by identifier, version and hash, keeps pilot,
   manifest and gate policy, stays in the stage or goes to the next (which a rejection or promotion closes), takes no
   evidence back, within a stage adds some on the same input, and promotes there only after an open decision.
   */
  lemma ExtendsIff(k: Checks, history: seq<Report>, r: Report)
    ensures Extends(k, history, r) <==>
              && (forall h | h in history :: h.evaluationId != r.evaluationId && (h.pilotId != r.pilotId || h.version != r.version))
              && k.valid(r) && (r.promoted == [] <==> r.decision != PromoteBounded)
              && (|| (r.stage == 1 && r.decision in {Continue, Reject})
                  || (r.stage == 2 && r.decision in {Continue, Reject, InsufficientEvidence, PromoteBounded})
                  || (r.stage == 3 && r.decision in {Reject, Inconclusive, PromoteBounded}))
              && (history == [] ==>
                    r.version == 1 && r.stage == 1 && r.supersedesId == None && r.supersedesVersion == None && r.expectedHash == None)
              && (history != [] ==>
                    var last := history[|history| - 1];
                    && r.version == last.version + 1 && r.supersedesId == Some(last.evaluationId)
                    && r.supersedesVersion == Some(last.version) && r.expectedHash == Some(k.hash(last))
                    && r.pilotId == last.pilotId && r.manifestHash == last.manifestHash && r.gatePolicyHash == last.gatePolicyHash
                    && (r.stage == last.stage || (r.stage == last.stage + 1 && last.decision != Reject && last.decision != PromoteBounded))
                    && r.lateCount >= last.lateCount && r.qualityCount >= last.qualityCount
                    && (r.stage == last.stage ==>
                          && r.qualityCount > last.qualityCount && r.inputHash == last.inputHash
                          && (r.decision == PromoteBounded ==> last.decision != Reject && (last.stage == 3 ==> last.decision == PromoteBounded))))
  {
    NoClash(history, r);
    hide SameIdentity;
  }

  lemma NoClash(history: seq<Report>, r: Report)
    ensures (forall i | 0 <= i < |history| :: !SameIdentity(history[i], r)) <==>
              forall h | h in history :: h.evaluationId != r.evaluationId && (h.pilotId != r.pilotId || h.version != r.version)
  {
    if forall h | h in history :: h.evaluationId != r.evaluationId && (h.pilotId != r.pilotId || h.version != r.version) {
      forall i | 0 <= i < |history| ensures !SameIdentity(history[i], r) {
        assert history[i] in history;
      }
    } else {
      var h :| h in history && !(h.evaluationId != r.evaluationId && (h.pilotId != r.pilotId || h.version != r.version));
      var i :| 0 <= i < |history| && history[i] == h;
      assert SameIdentity(history[i], r);
    }
  }

  /**
   `appendEvaluation`: an identical report already there is accepted without change, any other report
   claiming a taken place is refused, and a new one must extend the last.
   */
  method AppendEvaluation(k: Checks, history: seq<Report>, report: Report) returns (r: Result<seq<Report>>)
    ensures (forall i | 0 <= i < |history| :: !SameIdentity(history[i], report)) ==>
              if Extends(k, history, report) then r == Ok(history + [report]) else r.Err?
    ensures forall i | 0 <= i < |history| && SameIdentity(history[i], report) && (forall j | 0 <= j < i :: !SameIdentity(history[j], report)) ::
              if history[i] == report then r == Ok(history) else r.Err?
  {
    var i := 0;
    while i < |history|
      invariant 0 <= i <= |history|
      invariant forall j | 0 <= j < i :: !SameIdentity(history[j], report)
    {
      if SameIdentity(history[i], report) {
        if k.hash(history[i]) == k.hash(report) && history[i] == report { return Ok(history); }
        return Err("EVALUATION_IDENTITY_COLLISION");
      }
      i := i + 1;
    }
    if !ReportOk(k, report) { return Err("EVALUATION_REPORT_INVALID"); }
    if history == [] {
      if !FirstOk(report) { return Err("EVALUATION_SUPERSESSION_INVALID"); }
    } else {
      var code := ValidateTransition(k, history[|history| - 1], report);
      if code.Some? { return Err(code.value); }
    }
    r := Ok(history + [report]);
  }

  /** `validateHistoryTransition`, with the first failing check's code. */
  function ValidateTransition(k: Checks, prior: Report, r: Report): (code: Option<string>)
    ensures code.None? <==> TransitionOk(k, prior, r)
  {
    if !Supersedes(k, prior, r) then Some("EVALUATION_SUPERSESSION_INVALID")
    else if r.gatePolicyHash != prior.gatePolicyHash then Some("GATE_POLICY_CHANGED")
    else if r.stage < prior.stage || r.stage > prior.stage + 1 then Some("EVALUATION_STAGE_SEQUENCE_INVALID")
    else if Terminal(prior.decision) && r.stage > prior.stage then Some("TERMINAL_DECISION_CANNOT_ADVANCE")
    else if r.lateCount < prior.lateCount then Some("LATE_QUALITY_EVIDENCE_DECREASED")
    else if r.qualityCount < prior.qualityCount then Some("QUALITY_EVIDENCE_DECREASED")
    else if r.stage == prior.stage && r.qualityCount <= prior.qualityCount then
      if r.qualityHash != prior.qualityHash then Some("QUALITY_EVIDENCE_DECREASED") else Some("QUALITY_EVIDENCE_NOT_INCREASED")
    else if r.stage == prior.stage && r.inputHash != prior.inputHash then Some("DECISION_INPUT_CHANGED")
    else if r.stage == prior.stage && r.decision.PromoteBounded? &&
            (prior.decision.Reject? || (prior.stage == 3 && !prior.decision.PromoteBounded?))
    then Some("TERMINAL_DECISION_CANNOT_PROMOTE")
    else None
  }

  // ---- Histories built by appending --------------------------------------------------------

  /** The history grew report by report from nothing. */
  predicate Grown(k: Checks, history: seq<Report>)
    decreases |history|
  {
    history == [] || (Grown(k, history[..|history| - 1]) && Extends(k, history[..|history| - 1], history[|history| - 1]))
  }

  lemma {:induction false} GrownAt(k: Checks, history: seq<Report>, i: nat)
    requires Grown(k, history) && i < |history|
    ensures ReportOk(k, history[i])
    ensures i == 0 ==> FirstOk(history[i])
    ensures i > 0 ==> TransitionOk(k, history[i - 1], history[i])
    ensures forall j | 0 <= j < i :: !SameIdentity(history[j], history[i])
  {
    var before := history[..|history| - 1];
    if i < |history| - 1 {
      GrownAt(k, before, i);
      assert forall j | 0 <= j <= i :: before[j] == history[j];
    }
  }

  /**
   In every history built by appending: versions count up from one, starting in stage one; of any two reports
   the later one has the same pilot, manifest and gate policy, its own id, and a strictly larger stage or, in
   the same stage on the same decision input, strictly more quality evidence.
   */
  lemma {:induction false} HistoryOrdered(k: Checks, history: seq<Report>, i: nat, j: nat)
    requires Grown(k, history) && i < j < |history|
    ensures history[i].version == i + 1 && history[j].version == j + 1 && history[0].stage == 1
    ensures 1 <= history[i].stage <= history[j].stage <= 3
    ensures var a, b := history[i], history[j];
            && a.pilotId == b.pilotId && a.manifestHash == b.manifestHash && a.gatePolicyHash == b.gatePolicyHash
            && a.evaluationId != b.evaluationId
            && a.lateCount <= b.lateCount && a.qualityCount <= b.qualityCount
            && (a.stage < b.stage || a.qualityCount < b.qualityCount)
            && (a.stage == b.stage ==> a.inputHash == b.inputHash)
    decreases j
  {
    GrownAt(k, history, i);
    GrownAt(k, history, j);
    VersionsCount(k, history, i);
    VersionsCount(k, history, j);
    GrownAt(k, history, 0);
    if i < j - 1 {
      HistoryOrdered(k, history, i, j - 1);
    }
  }

  lemma {:induction false} VersionsCount(k: Checks, history: seq<Report>, i: nat)
    requires Grown(k, history) && i < |history|
    ensures history[i].version == i + 1
  {
    GrownAt(k, history, i);
    if i > 0 {
      VersionsCount(k, history, i - 1);
    }
  }

  /** The history goes from a report of this stage to a later stage, the report being neither a rejection nor a promotion. */
  ghost predicate LeftOpenly(history: seq<Report>, m: nat, stage: int) {
    m + 1 < |history| && history[m].stage == stage && history[m + 1].stage > stage && !Terminal(history[m].decision)
  }

  /** A stage is left only from a report that neither rejects nor promotes. */
  lemma {:induction false} TerminalStays(k: Checks, history: seq<Report>, i: nat, j: nat)
    requires Grown(k, history) && i < j < |history| && history[j].stage > history[i].stage
    ensures exists m: nat | i <= m < j :: LeftOpenly(history, m, history[i].stage)
    decreases j
  {
    GrownAt(k, history, j);
    if history[j - 1].stage > history[i].stage {
      if i < j - 1 { TerminalStays(k, history, i, j - 1); }
    } else {
      if i < j - 1 { HistoryOrdered(k, history, i, j - 1); }
      assert LeftOpenly(history, j - 1, history[i].stage);
    }
  }

  /** Once a stage-three report does not promote, no later report does. */
  lemma {:induction false} StageThreeFinal(k: Checks, history: seq<Report>, i: nat, j: nat)
    requires Grown(k, history) && i < j < |history|
    requires history[i].stage == 3 && !history[i].decision.PromoteBounded?
    ensures history[j].stage == 3 && !history[j].decision.PromoteBounded?
    decreases j
  {
    GrownAt(k, history, j);
    if i < j - 1 {
      StageThreeFinal(k, history, i, j - 1);
    }
  }

  /** Growing is exactly appending: a history is grown iff appending its reports one by one, each new, rebuilds it. */
  lemma GrownIff(k: Checks, history: seq<Report>, r: Report)
    ensures Grown(k, history + [r]) <==> Grown(k, history) && Extends(k, history, r)
  {
    assert (history + [r])[..|history|] == history;
  }

  // ---- What a rejection still allows -------------------------------------------------------

  /** What a new evaluation brings, besides the fields its place in the history fixes. */
  datatype Content = Content(evaluationId: string, promoted: seq<string>, lateCount: nat, qualityCount: nat, qualityHash: string,
                             inputHash: string, rest: string)

  /** The report with this content that follows `prior`. */
  function Following(k: Checks, prior: Report, stage: int, d: Decision, x: Content): Report {
    Report(x.evaluationId, prior.pilotId, prior.manifestHash, prior.version + 1, Some(prior.evaluationId), Some(prior.version),
           Some(k.hash(prior)), prior.gatePolicyHash, stage, d, x.promoted, x.lateCount, x.qualityCount, x.qualityHash,
           x.inputHash, x.rest)
  }

  /** Content `x` takes no evidence back, and within a stage brings more of it on the same decision input. */
  predicate Brings(prior: Report, stage: int, x: Content) {
    && x.lateCount >= prior.lateCount && x.qualityCount >= prior.qualityCount
    && (stage == prior.stage ==> x.qualityCount > prior.qualityCount && x.inputHash == prior.inputHash)
  }

  /** Two valid reports to come: one that continues in the rejected stage, and one that promotes in stage two. */
  predicate CanReopen(k: Checks, history: seq<Report>, x: Content, y: Content)
    requires history != []
  {
    var last := history[|history| - 1];
    var next := Following(k, last, last.stage, Continue, x);
    && (forall i | 0 <= i < |history| :: history[i].evaluationId != x.evaluationId && history[i].evaluationId != y.evaluationId)
    && x.evaluationId != y.evaluationId
    && Brings(last, last.stage, x) && x.promoted == [] && k.valid(next)
    && Brings(next, 2, y) && y.promoted != [] && k.valid(Following(k, next, 2, PromoteBounded, y))
  }

  /** Some continuation of the history ends in a promotion. */
  ghost predicate Promotable(k: Checks, history: seq<Report>) {
    exists more: seq<Report> :: more != [] && Grown(k, history + more) && more[|more| - 1].decision.PromoteBounded?
  }

  /** A new report that the last one allows is accepted. */
  lemma FollowingGrows(k: Checks, history: seq<Report>, r: Report)
    requires Grown(k, history) && history != [] && ReportOk(k, r) && TransitionOk(k, history[|history| - 1], r)
    requires forall i | 0 <= i < |history| :: history[i].evaluationId != r.evaluationId
    ensures Grown(k, history + [r])
  {
    forall i | 0 <= i < |history| ensures !SameIdentity(history[i], r) {
      VersionsCount(k, history, i);
      VersionsCount(k, history, |history| - 1);
    }
    GrownIff(k, history, r);
  }

  /**
   A rejection is not final by itself. A history that ends in one can still come to a promotion exactly when the
   rejected stage is below three, given two further valid reports: a first that continues in that stage, and a
   second that promotes in stage two.
   */
  lemma RejectionPromotableIff(k: Checks, history: seq<Report>, x: Content, y: Content)
    requires Grown(k, history) && history != [] && history[|history| - 1].decision.Reject?
    requires history[|history| - 1].stage < 3 ==> CanReopen(k, history, x, y)
    ensures Promotable(k, history) <==> history[|history| - 1].stage < 3
  {
    hide Grown, CanReopen;
    if history[|history| - 1].stage < 3 {
      Reopens(k, history, x, y);
    } else {
      forall more: seq<Report> | more != [] && Grown(k, history + more)
        ensures !more[|more| - 1].decision.PromoteBounded?
      {
        StageThreeStays(k, history, more);
      }
    }
  }

  lemma Reopens(k: Checks, history: seq<Report>, x: Content, y: Content)
    requires Grown(k, history) && history != [] && history[|history| - 1].decision.Reject?
    requires history[|history| - 1].stage < 3 && CanReopen(k, history, x, y)
    ensures Promotable(k, history)
  {
    var last := history[|history| - 1];
    GrownAt(k, history, |history| - 1);
    hide Grown;
    var next := Following(k, last, last.stage, Continue, x);
    var promotion := Following(k, next, 2, PromoteBounded, y);
    FollowingGrows(k, history, next);
    FollowingGrows(k, history + [next], promotion);
    var more := [next] + [promotion];
    assert history + more == history + [next] + [promotion];
    assert more[|more| - 1] == promotion;
  }

  lemma StageThreeStays(k: Checks, history: seq<Report>, more: seq<Report>)
    requires history != [] && more != [] && Grown(k, history + more)
    requires history[|history| - 1].stage >= 3 && history[|history| - 1].decision.Reject?
    ensures !more[|more| - 1].decision.PromoteBounded?
  {
    hide Grown;
    var all := history + more;
    assert all[|history| - 1] == history[|history| - 1] && all[|all| - 1] == more[|more| - 1];
    GrownAt(k, all, |history| - 1);
    StageThreeFinal(k, all, |history| - 1, |all| - 1);
  }

  /** The first report of a history may be such a rejection: from nothing, three reports lead through it to a promotion. */
  lemma RejectionReopened(k: Checks, a: Report, x: Content, y: Content)
    requires FirstOk(a) && ReportOk(k, a) && a.decision.Reject? && CanReopen(k, [a], x, y)
    ensures Grown(k, [a]) && Promotable(k, [a])
  {
    GrownIff(k, [], a);
    assert [] + [a] == [a];
    RejectionPromotableIff(k, [a], x, y);
  }

  /** The report after a rejection, in any history, does not promote and stays in its stage. */
  lemma RejectionHolds(k: Checks, history: seq<Report>, i: nat)
    requires Grown(k, history) && i + 1 < |history| && history[i].decision.Reject?
    ensures history[i + 1].stage == history[i].stage && !history[i + 1].decision.PromoteBounded?
  {
    GrownAt(k, history, i + 1);
  }
}
