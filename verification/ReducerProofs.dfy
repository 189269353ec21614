/** What the reducer's observation of an accepted block says about the replayed history. */
module ReducerProofs {
  import opened Prelude
  import opened PilotEvents
  import opened Sorting
  import opened StateMachine
  import opened ReplayInvariants
  import opened ReplayTheorems
  import opened AuditOrder
  import opened Reducer
  import E = EventStore

  // ---- The active events are the history ---------------------------------------------

  ghost predicate Below(s: seq<Event>, n: nat) { forall i | 0 <= i < |s| :: s[i].sequence <= n }

  lemma {:induction false} ActiveRises(k: E.Checks, log: seq<Event>, n: nat, id: string)
    requires E.ValidLog(k, log) && n <= |log|
    ensures SequenceRises(OfBlock(E.ActiveUpTo(log, n), id))
    ensures Below(OfBlock(E.ActiveUpTo(log, n), id), E.BlockCount(log[..n], id))
  {
    hide E.Active, E.ValidLog, E.Follows, SequenceRises, Below, OfBlock;
    if n == 0 {
      NothingRises(id);
      assert log[..0] == [];
    } else {
      ActiveRises(k, log, n - 1, id);
      NextSequence(k, log, n - 1);
      CountNext(log, n, id);
      ActiveNext(log, n);
      OfBlockNext(E.ActiveUpTo(log, n - 1), log[n - 1], id);
      RisesNext(OfBlock(E.ActiveUpTo(log, n - 1), id), log[n - 1], E.BlockCount(log[..n - 1], id));
    }
  }

  lemma NothingRises(id: string)
    ensures SequenceRises(OfBlock([], id)) && forall n: nat :: Below(OfBlock([], id), n)
  {
  }

  lemma CountNext(log: seq<Event>, n: nat, id: string)
    requires 0 < n <= |log|
    ensures E.BlockCount(log[..n], id) == E.BlockCount(log[..n - 1], id) + if log[n - 1].blockId == id then 1 else 0
  {
    assert log[..n][..n - 1] == log[..n - 1];
  }

  lemma OfBlockNext(s: seq<Event>, e: Event, id: string)
    ensures OfBlock(s + [e], id) == if e.blockId == id then OfBlock(s, id) + [e] else OfBlock(s, id)
  {
    assert (s + [e])[..|s|] == s;
  }

  lemma ActiveNext(log: seq<Event>, n: nat)
    requires 0 < n <= |log|
    ensures || E.ActiveUpTo(log, n) == E.ActiveUpTo(log, n - 1)
            || E.ActiveUpTo(log, n) == E.ActiveUpTo(log, n - 1) + [log[n - 1]]
  {
    hide E.Active;
    assert E.ActiveUpTo(log, n - 1) + [] == E.ActiveUpTo(log, n - 1);
  }

  lemma RisesNext(s: seq<Event>, e: Event, n: nat)
    requires SequenceRises(s) && Below(s, n)
    ensures Below(s, n + 1)
    ensures e.sequence == n + 1 ==> SequenceRises(s + [e]) && Below(s + [e], n + 1)
  {
  }

  lemma NextSequence(k: E.Checks, log: seq<Event>, n: nat)
    requires E.ValidLog(k, log) && n < |log|
    ensures log[n].sequence == E.BlockCount(log[..n], log[n].blockId) + 1
  {
    assert E.Follows(k, log[..n], log[n]);
  }

  /** In a valid log a block's active events already are in sequence order. */
  lemma HistoryIsActive(k: E.Checks, log: seq<Event>, id: string)
    requires E.ValidLog(k, log)
    ensures History(log, id) == OfBlock(E.ActiveOf(log), id)
  {
    hide E.ValidLog, E.ActiveOf, OfBlock, SequenceRises, Below, Sort;
    var s := OfBlock(E.ActiveOf(log), id);
    ActiveUpToAll(log);
    ActiveRises(k, log, |log|, id);
    RisingIsSorted(s);
  }

  lemma ActiveUpToAll(log: seq<Event>)
    ensures E.ActiveUpTo(log, |log|) == E.ActiveOf(log)
  {
  }

  lemma RisingIsSorted(s: seq<Event>)
    requires SequenceRises(s)
    ensures Sort(s, SequenceLe) == s
  {
    forall x, y | x in s && y in s && SequenceLe(x, y) && SequenceLe(y, x) ensures x == y {
      var i :| 0 <= i < |s| && s[i] == x;
      var j :| 0 <= j < |s| && s[j] == y;
    }
    SortFixed(s, SequenceLe);
  }

  // ---- Filters read the ledger ---------------------------------------------------------

  /** Starts of repair attempts. */
  function RepairCount(starts: seq<AttemptOwner>): nat {
    if starts == [] then 0
    else RepairCount(starts[..|starts| - 1]) + if starts[|starts| - 1].kind.Repair? then 1 else 0
  }

  ghost predicate VerdictsOf(reviews: seq<Event>, verdicts: seq<Verdict>) {
    |reviews| == |verdicts| && forall i | 0 <= i < |reviews| :: reviews[i].body.ReviewCompleted? && VerdictOf(reviews[i]) == verdicts[i]
  }

  ghost predicate FiltersMatch(h: seq<Event>, l: Ledger) {
    && |Filter(h, CompletesExecution)| == |l.dones|
    && |Filter(h, StartsRepair)| == RepairCount(l.starts)
    && |Filter(h, DecidesEscalation)| == |l.escalations|
    && VerdictsOf(Filter(h, CompletesReview), l.verdicts)
  }

  lemma {:induction false} FiltersRead(h: seq<Event>)
    ensures FiltersMatch(h, LedgerOf(h))
  {
    if h != [] {
      FiltersRead(h[..|h| - 1]);
      hide FiltersMatch, Filter, Add;
      FiltersReadOne(h, LedgerOf(h[..|h| - 1]));
    }
  }

  lemma FiltersReadOne(h: seq<Event>, l: Ledger)
    requires h != [] && FiltersMatch(h[..|h| - 1], l)
    ensures FiltersMatch(h, Add(l, h[|h| - 1]))
  {
    hide Filter, VerdictOf, DoneOf, RepairCount, VerdictsOf;
    FilterLast(h, CompletesExecution);
    FilterLast(h, StartsRepair);
    FilterLast(h, DecidesEscalation);
    FilterLast(h, CompletesReview);
    var e := h[|h| - 1];
    if e.body.ExecutionStarted? { RepairAdded(l.starts, e.body.attempt); }
    if e.body.ReviewCompleted? { VerdictAdded(Filter(h[..|h| - 1], CompletesReview), l.verdicts, e); }
  }

  lemma FilterLast(h: seq<Event>, keep: Event -> bool)
    requires h != []
    ensures keep(h[|h| - 1]) ==> Filter(h, keep) == Filter(h[..|h| - 1], keep) + [h[|h| - 1]]
    ensures !keep(h[|h| - 1]) ==> Filter(h, keep) == Filter(h[..|h| - 1], keep)
  {
  }

  lemma RepairAdded(starts: seq<AttemptOwner>, a: AttemptOwner)
    ensures RepairCount(starts + [a]) == RepairCount(starts) + if a.kind.Repair? then 1 else 0
  {
    assert (starts + [a])[..|starts|] == starts;
  }

  lemma VerdictAdded(reviews: seq<Event>, verdicts: seq<Verdict>, e: Event)
    requires VerdictsOf(reviews, verdicts) && e.body.ReviewCompleted?
    ensures VerdictsOf(reviews + [e], verdicts + [VerdictOf(e)])
  {
  }

  // ---- The observation of an accepted block ----------------------------------------------

  /** One acceptance, by the last verdict; verdict `i` is for round `i + 1`. */
  ghost predicate AcceptedLast(verdicts: seq<Verdict>) {
    && 1 <= |verdicts| <= 3
    && (forall i | 0 <= i < |verdicts| :: verdicts[i].owner.round == i + 1)
    && (forall i | 0 <= i < |verdicts| - 1 :: verdicts[i].decision.Reject?)
    && verdicts[|verdicts| - 1].decision.Accept?
  }

  lemma RoundsAccepted(reviews: seq<Event>, verdicts: seq<Verdict>)
    requires VerdictsOf(reviews, verdicts) && AcceptedLast(verdicts)
    ensures FirstOfRoundAccepts(reviews, 1) <==> |verdicts| == 1
    ensures (exists e :: e in reviews && AcceptsInRound(e, 2)) <==> |verdicts| == 2
  {
    forall i | 0 <= i < |reviews|
      ensures AcceptsInRound(reviews[i], i + 1) <==> i == |verdicts| - 1
      ensures reviews[i].body.ReviewCompleted? && reviews[i].body.review.round == i + 1
    {
      assert VerdictOf(reviews[i]) == verdicts[i];
    }
    if |verdicts| == 1 {
      assert AcceptsInRound(reviews[0], 1);
    }
    if |verdicts| == 2 {
      assert reviews[1] in reviews && AcceptsInRound(reviews[1], 2);
    }
  }

  lemma RepairsCounted(c: Context, starts: seq<AttemptOwner>, dones: seq<Done>)
    requires RevisionChain(c, starts, dones)
    ensures RepairCount(starts) == if |starts| >= 2 then 1 else 0
  {
    if |starts| >= 1 {
      assert starts[0].kind == Implementation;
      RepairPrefix(starts, 1);
    }
    if |starts| >= 2 { RepairPrefix(starts, 2); }
    if |starts| == 3 { RepairPrefix(starts, 3); }
  }

  lemma RepairPrefix(starts: seq<AttemptOwner>, n: nat)
    requires 0 < n <= |starts|
    ensures RepairCount(starts[..n]) == RepairCount(starts[..n - 1]) + if starts[n - 1].kind.Repair? then 1 else 0
    ensures n == |starts| ==> starts[..n] == starts
    ensures RepairCount(starts[..0]) == 0
  {
    assert starts[..n][..n - 1] == starts[..n - 1];
  }

  /** A final acceptance is an accepted valid replay that nothing overrode. */
  lemma AcceptanceUnwound(id: string, r: Reading, usageOk: seq<Event> -> bool)
    requires Observed(id, r, usageOk).finalAccepted
    ensures r.replay.Valid? && r.replay.phase.Accepted? && FinalError(r, usageOk).None?
  {
    hide Filter, Total, FinalError, FirstOfRoundAccepts;
  }

  lemma TargetFirst(events: seq<Event>, id: string)
    requires exists e :: e in OrderedAudit(events, id) && e.blockId == id
    ensures OrderedAudit(events, id)[0].blockId == id
  {
    var s := OrderedAudit(events, id);
    AuditOrders(id);
    SortSorts(events, Audit(id));
    var i :| 0 <= i < |s| && s[i].blockId == id;
    assert i == 0 || Audit(id)(s[0], s[i]);
  }

  lemma ValidReading(m: Manifest, boundary: Event -> string, k: E.Checks, events: seq<Event>, id: string)
    requires Read(m, boundary, k, events, id).replay.Valid?
    ensures var ordered := OrderedAudit(events, id);
            && E.ValidLog(k, ordered) && ordered != [] && ordered[0].blockId == id
            && Read(m, boundary, k, events, id) ==
               Reading(OfBlock(E.ActiveOf(ordered), id), BlockOutcome(m, boundary, k, ordered), None)
  {
    hide E.ValidLog, E.ActiveOf, OrderedAudit, BlockOutcome, OfBlock;
    var ordered := OrderedAudit(events, id);
    EmptyNeverValid(m, boundary, k);
    assert exists e :: e in ordered && e.blockId == id;
    TargetFirst(events, id);
  }

  lemma EmptyNeverValid(m: Manifest, boundary: Event -> string, k: E.Checks)
    ensures BlockOutcome(m, boundary, k, []).Invalid?
  {
  }

  lemma AcceptedCounts(m: Manifest, boundary: Event -> string, c: Context, l: Ledger)
    requires RevisionChain(c, l.starts, l.dones) && ReviewOrder(m, l.starts, l.reviewStarts) && Verdicts(boundary, l)
    requires Reaches(Some(Accepted), c, l) && Escalated(m, c, l.starts, l.verdicts, l.escalations)
    ensures |l.starts| == |l.dones| == |l.verdicts| && AcceptedLast(l.verdicts)
    ensures l.escalations != [] <==> |l.starts| == 3 && c.route == Some(AdaptiveEscalation)
    ensures |l.escalations| <= 1
  {
    forall i | 0 <= i < |l.verdicts| ensures l.verdicts[i].owner.round == i + 1 {
      assert VerdictOk(boundary, l, i);
    }
  }

  lemma FiguresFollow(m: Manifest, c: Context, id: string, r: Reading, usageOk: seq<Event> -> bool, l: Ledger)
    requires FiltersMatch(r.active, l) && AcceptedLast(l.verdicts) && RevisionChain(c, l.starts, l.dones)
    requires |l.starts| == |l.dones| == |l.verdicts|
    requires Observed(id, r, usageOk).finalAccepted
    ensures var o := Observed(id, r, usageOk);
            && o.attempts == |l.starts| && o.repairs == (if o.attempts >= 2 then 1 else 0)
            && (o.firstPassAccept <==> o.attempts == 1) && (o.acceptAfterOneRepair <==> o.attempts <= 2)
            && (o.escalated <==> l.escalations != [])
  {
    hide FinalError, Total, FirstOfRoundAccepts, AcceptsInRound, Filter;
    RepairsCounted(c, l.starts, l.dones);
    RoundsAccepted(Filter(r.active, CompletesReview), l.verdicts);
  }

  /**
   A block observed as accepted was executed, completed and reviewed one to three times; it passed first time
   exactly when there was one attempt, after at most one repair exactly when there were two at most; an escalation
   is reported exactly for a third attempt of the adaptive arm; and every other figure counts the replayed history.
   */
  lemma ObservedAcceptance(m: Manifest, boundary: Event -> string, k: E.Checks, usageOk: seq<Event> -> bool,
                           events: seq<Event>, id: string)
    requires Observed(id, Read(m, boundary, k, events, id), usageOk).finalAccepted
    ensures var o := Observed(id, Read(m, boundary, k, events, id), usageOk);
            var ordered := OrderedAudit(events, id);
            var l := LedgerOf(History(ordered, id));
            && BlockOutcome(m, boundary, k, ordered).Valid? && BlockOutcome(m, boundary, k, ordered).phase.Accepted?
            && 1 <= o.attempts == |l.starts| == |l.dones| == |l.verdicts| <= 3
            && o.repairs == (if o.attempts >= 2 then 1 else 0)
            && (o.firstPassAccept <==> o.attempts == 1)
            && (o.acceptAfterOneRepair <==> o.attempts <= 2)
            && FindBlock(m.blocks, id).Some?
            && (o.escalated <==> o.attempts == 3 && FindArm(m.assignments, id) == Some(AdaptiveEscalation))
  {
    hide Observed, Read, BlockOutcome, History, OrderedAudit, FiltersMatch, RevisionChain, Independent, Capabilities;
    hide DistinctAttempts, Sort, FinalError;
    var r := Read(m, boundary, k, events, id);
    var ordered := OrderedAudit(events, id);
    AcceptanceUnwound(id, r, usageOk);
    ValidReading(m, boundary, k, events, id);
    ValidReplayObeysRules(m, boundary, k, ordered);
    AcceptanceIsEarned(m, boundary, k, ordered);
    HistoryIsActive(k, ordered, id);
    var l := LedgerOf(History(ordered, id));
    FiltersRead(History(ordered, id));
    AcceptedCounts(m, boundary, ContextOf(m, id), l);
    FiguresFollow(m, ContextOf(m, id), id, r, usageOk, l);
  }

  /** An observation gives reasons exactly when it is invalid; a phase and an outcome are reported only for a valid history. */
  lemma ReasonsExplain(id: string, r: Reading, usageOk: seq<Event> -> bool)
    ensures var o := Observed(id, r, usageOk);
            && (o.validHistory <==> o.reasons == {}) && (o.validHistory <==> o.phase.Some?)
            && (o.finalAccepted <==> o.validHistory && o.phase.value.Accepted?)
            && (!o.validHistory ==> o.outcome.OutInvalid?)
            && (r.error.Some? || r.replay.Invalid? ==> !o.validHistory)
            && (o.firstPassAccept ==> o.acceptAfterOneRepair) && (o.acceptAfterOneRepair ==> o.finalAccepted)
  {
    hide Filter, Total, FirstOfRoundAccepts, AcceptsInRound, MaterialCounts, NonMaterialCounts, TestCountWrong;
    var o := Observed(id, r, usageOk);
    if r.replay.Invalid? { assert r.replay.code in o.reasons; }
    if FinalError(r, usageOk).Some? { assert FinalError(r, usageOk).value in o.reasons; }
  }
}
