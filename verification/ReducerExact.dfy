/** What the reducer's observation of a block (src/pilot/reducer.ts) says of the events it was read from, field by field. */
module ReducerExact {
  import opened Prelude
  import opened PilotEvents
  import opened StateMachine
  import opened Sorting
  import opened Reducer

  /** Filtering keeps the events that qualify, in order. */
  lemma {:induction false} FilterPositions(events: seq<Event>, keep: Event -> bool) returns (at: seq<nat>)
    ensures |at| == |Filter(events, keep)|
    ensures forall i | 0 <= i < |at| :: at[i] < |events| && events[at[i]] == Filter(events, keep)[i]
    ensures forall i, j | 0 <= i < j < |at| :: at[i] < at[j]
    ensures forall i: nat | i < |events| :: i in at <==> keep(events[i])
  {
    if events == [] {
      at := [];
    } else {
      var n := |events| - 1;
      var before := FilterPositions(events[..n], keep);
      at := before + if keep(events[n]) then [n] else [];
      forall i: nat | i < |events| ensures i in at <==> keep(events[i]) {
        if i < n {
          assert events[..n][i] == events[i];
        }
      }
    }
  }

  /** How many of the events qualify. */
  ghost function Count(events: seq<Event>, keep: Event -> bool): nat { |set i: nat | i < |events| && keep(events[i])| }

  lemma {:induction false} FilterCounts(events: seq<Event>, keep: Event -> bool)
    ensures |Filter(events, keep)| == Count(events, keep)
    ensures forall e :: e in Filter(events, keep) <==> e in events && keep(e)
  {
    if events != [] {
      var n := |events| - 1;
      var before := events[..n];
      FilterCounts(before, keep);
      CountLast(events, keep);
      hide Count;
      assert events == before + [events[n]];
    }
  }

  lemma CountLast(events: seq<Event>, keep: Event -> bool)
    requires events != []
    ensures var n := |events| - 1; Count(events, keep) == Count(events[..n], keep) + if keep(events[n]) then 1 else 0
  {
    var n := |events| - 1;
    var small := set i: nat | i < |events[..n]| && keep(events[..n][i]);
    assert (set i: nat | i < |events| && keep(events[i])) == small + if keep(events[n]) then {n} else {};
  }

  /** The findings of each kind, added over the completed reviews. */
  lemma FindingsAdd(reviews: seq<Event>, e: Event)
    requires e.body.ReviewCompleted?
    ensures Total(MaterialCounts([])) == 0 && Total(MaterialCounts(reviews + [e])) == Total(MaterialCounts(reviews)) + |e.body.material|
    ensures Total(NonMaterialCounts([])) == 0
            && Total(NonMaterialCounts(reviews + [e])) == Total(NonMaterialCounts(reviews)) + |e.body.nonMaterial|
  {
    LastAdds(MaterialCounts(reviews), |e.body.material|);
    LastAdds(NonMaterialCounts(reviews), |e.body.nonMaterial|);
    assert MaterialCounts(reviews + [e]) == MaterialCounts(reviews) + [|e.body.material|];
    assert NonMaterialCounts(reviews + [e]) == NonMaterialCounts(reviews) + [|e.body.nonMaterial|];
  }

  lemma LastAdds(values: seq<int>, v: int)
    ensures Total(values + [v]) == Total(values) + v
  {
    assert (values + [v])[..|values|] == values;
  }

  /**
   An observation's history counts as valid exactly when the log was read, its replay is valid, usage aggregates, every
   validation passes exactly without failing tests, and the findings of either kind stay within the safe integers. Its
   outcome is then the replay's last state, if that is one of the three last, and its phase the replay's.
   */
  lemma ObservedValidity(id: string, r: Reading, usageOk: seq<Event> -> bool)
    ensures var o := Observed(id, r, usageOk);
            var reviews := Filter(r.active, (e: Event) => e.body.ReviewCompleted?);
            && o.blockId == id
            && (o.validHistory <==>
                  && r.error.None? && r.replay.Valid? && usageOk(Filter(r.active, (e: Event) => e.body.UsageRecorded?))
                  && (forall e | e in r.active && e.body.ValidationRecorded? :: e.body.passed <==> e.body.testsFailing == 0)
                  && Total(MaterialCounts(reviews)) <= 9007199254740991 && Total(NonMaterialCounts(reviews)) <= 9007199254740991)
            && (!o.validHistory ==> o.outcome == OutInvalid && o.phase == None)
            && (o.validHistory ==>
                  && o.phase == Some(r.replay.phase)
                  && (o.outcome == OutAccepted <==> r.replay.phase == Accepted)
                  && (o.outcome == OutFailed <==> r.replay.phase == Failed)
                  && (o.outcome == OutBlocked <==> r.replay.phase == Blocked))
  {
    hide Total, MaterialCounts, NonMaterialCounts, FirstOfRoundAccepts, AcceptsInRound;
    SameFilter(r.active, CompletesReview, (e: Event) => e.body.ReviewCompleted?);
    SameFilter(r.active, RecordsUsage, (e: Event) => e.body.UsageRecorded?);
    hide Filter;
  }

  lemma {:induction false} SameFilter(events: seq<Event>, keep: Event -> bool, other: Event -> bool)
    requires forall e :: keep(e) == other(e)
    ensures Filter(events, keep) == Filter(events, other)
  {
    if events != [] { SameFilter(events[..|events| - 1], keep, other); }
  }

  /**
   The error an observation reports besides the replay's own: unsafe findings before wrong test counts before unpriceable
   usage before an unreadable log.
   */
  lemma ObservedReasons(id: string, r: Reading, usageOk: seq<Event> -> bool)
    ensures var o := Observed(id, r, usageOk);
            var reviews := Filter(r.active, (e: Event) => e.body.ReviewCompleted?);
            var unsafe := Total(MaterialCounts(reviews)) > 9007199254740991 || Total(NonMaterialCounts(reviews)) > 9007199254740991;
            var miscounted := exists e :: e in r.active && e.body.ValidationRecorded? && (e.body.passed != (e.body.testsFailing == 0));
            var unpriced := !usageOk(Filter(r.active, (e: Event) => e.body.UsageRecorded?));
            o.reasons ==
            (if r.replay.Invalid? then {r.replay.code} else {})
            + (if unsafe then {"SAFE_ARITHMETIC_INVALID"}
               else if miscounted then {"VALIDATION_TEST_COUNT_INVALID"}
               else if unpriced then {"USAGE_AGGREGATION_INVALID"}
               else if r.error.Some? then {r.error.value} else {})
  {
    hide Total, MaterialCounts, NonMaterialCounts, FirstOfRoundAccepts, AcceptsInRound, OutcomeOf, Capped;
    SameFilter(r.active, CompletesReview, (e: Event) => e.body.ReviewCompleted?);
    SameFilter(r.active, RecordsUsage, (e: Event) => e.body.UsageRecorded?);
    hide Filter;
    Miscounts(r.active);
    hide TestCountWrong;
  }

  lemma Miscounts(active: seq<Event>)
    ensures (exists e :: e in active && TestCountWrong(e)) <==>
              exists e :: e in active && e.body.ValidationRecorded? && (e.body.passed != (e.body.testsFailing == 0))
  {
    if e :| e in active && TestCountWrong(e) {
      assert e.body.ValidationRecorded? && (e.body.passed != (e.body.testsFailing == 0));
    }
    if e :| e in active && e.body.ValidationRecorded? && (e.body.passed != (e.body.testsFailing == 0)) {
      assert TestCountWrong(e);
    }
  }

  /** The figures: attempts completed, repairs started, whether it was escalated, and the findings of either kind. */
  lemma ObservedFigures(id: string, r: Reading, usageOk: seq<Event> -> bool)
    ensures var o := Observed(id, r, usageOk);
            var reviews := Filter(r.active, (e: Event) => e.body.ReviewCompleted?);
            && o.attempts == Count(r.active, (e: Event) => e.body.ExecutionCompleted?)
            && o.repairs == Count(r.active, (e: Event) => e.body.ExecutionStarted? && e.body.attempt.kind == Repair)
            && (o.escalated <==> exists e :: e in r.active && e.body.EscalationDecided?)
            && (Total(MaterialCounts(reviews)) <= 9007199254740991 ==> o.findingsMaterial == Total(MaterialCounts(reviews)))
            && (Total(NonMaterialCounts(reviews)) <= 9007199254740991 ==> o.findingsNonMaterial == Total(NonMaterialCounts(reviews)))
            && (Total(MaterialCounts(reviews)) > 9007199254740991 ==> o.findingsMaterial == 0)
            && (Total(NonMaterialCounts(reviews)) > 9007199254740991 ==> o.findingsNonMaterial == 0)
  {
    var reviews := Filter(r.active, CompletesReview);
    CountsNonNegative(reviews);
    hide Total, MaterialCounts, NonMaterialCounts, FirstOfRoundAccepts, AcceptsInRound, OutcomeOf, FinalError;
    SameFilter(r.active, CompletesReview, (e: Event) => e.body.ReviewCompleted?);
    SameFilter(r.active, CompletesExecution, (e: Event) => e.body.ExecutionCompleted?);
    SameFilter(r.active, StartsRepair, (e: Event) => e.body.ExecutionStarted? && e.body.attempt.kind == Repair);
    FilterCounts(r.active, (e: Event) => e.body.ExecutionCompleted?);
    FilterCounts(r.active, (e: Event) => e.body.ExecutionStarted? && e.body.attempt.kind == Repair);
    FilterCounts(r.active, DecidesEscalation);
    hide Filter, Count;
    if Filter(r.active, DecidesEscalation) != [] {
      var e := Filter(r.active, DecidesEscalation)[0];
      assert e in Filter(r.active, DecidesEscalation);
    }
  }

  /**
   The acceptance flags, for an accepted block: on the first pass when the first verdict of round one accepts, and after
   at most one repair when that does or some verdict of round two.
   */
  lemma ObservedFlags(id: string, r: Reading, usageOk: seq<Event> -> bool)
    ensures var o := Observed(id, r, usageOk);
            && (o.finalAccepted <==> o.outcome == OutAccepted)
            && (o.firstPassAccept <==>
                  && o.outcome == OutAccepted
                  && exists i :: 0 <= i < |r.active| && r.active[i].body.ReviewCompleted? && r.active[i].body.review.round == 1
                                 && r.active[i].body.decision == Accept
                                 && forall j | 0 <= j < i && r.active[j].body.ReviewCompleted? :: r.active[j].body.review.round != 1)
            && (o.acceptAfterOneRepair <==>
                  && o.outcome == OutAccepted
                  && (|| o.firstPassAccept
                      || exists e :: e in r.active && e.body.ReviewCompleted? && e.body.review.round == 2 && e.body.decision == Accept))
  {
    hide Total, MaterialCounts, NonMaterialCounts, OutcomeOf, FinalError, Capped;
    var reviews := Filter(r.active, CompletesReview);
    var at := FilterPositions(r.active, CompletesReview);
    FilterCounts(r.active, CompletesReview);
    FirstAmong(r.active, reviews, at);
    hide Filter, Count, FirstOfRoundAccepts;
  }

  /** The first verdict of round one among the reviews is the first among the events. */
  lemma FirstAmong(active: seq<Event>, reviews: seq<Event>, at: seq<nat>)
    requires |at| == |reviews| && forall i | 0 <= i < |at| :: at[i] < |active| && active[at[i]] == reviews[i]
    requires forall i, j | 0 <= i < j < |at| :: at[i] < at[j]
    requires forall i: nat | i < |active| :: i in at <==> active[i].body.ReviewCompleted?
    ensures FirstOfRoundAccepts(reviews, 1) <==>
              exists i :: 0 <= i < |active| && active[i].body.ReviewCompleted? && active[i].body.review.round == 1
                          && active[i].body.decision == Accept
                          && forall j | 0 <= j < i && active[j].body.ReviewCompleted? :: active[j].body.review.round != 1
  {
    if FirstOfRoundAccepts(reviews, 1) {
      var i :| 0 <= i < |reviews| && AcceptsInRound(reviews[i], 1)
               && forall j | 0 <= j < i :: reviews[j].body.ReviewCompleted? ==> reviews[j].body.review.round != 1;
      forall j: nat | j < at[i] && active[j].body.ReviewCompleted? ensures active[j].body.review.round != 1 {
        assert j in at;
        var k :| 0 <= k < |at| && at[k] == j;
        assert k < i && reviews[k] == active[j];
      }
      assert active[at[i]] == reviews[i];
    }
    if i: nat :|
      && i < |active| && active[i].body.ReviewCompleted? && active[i].body.review.round == 1 && active[i].body.decision == Accept
      && forall j | 0 <= j < i && active[j].body.ReviewCompleted? :: active[j].body.review.round != 1
    {
      assert i in at;
      var k :| 0 <= k < |at| && at[k] == i;
      assert AcceptsInRound(reviews[k], 1);
      forall j | 0 <= j < k ensures reviews[j].body.ReviewCompleted? ==> reviews[j].body.review.round != 1 {
        assert at[j] < i;
      }
    }
  }
}
