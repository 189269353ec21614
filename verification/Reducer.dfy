/**
 The reducer (src/pilot/reducer.ts): one observation per block from a raw log. What an accepted
 observation says about the block's attempts, and that the log's order never matters.
 */
module Reducer {
  import opened Prelude
  import opened PilotEvents
  import opened Sorting
  import opened StateMachine
  import opened AuditOrder
  import E = EventStore

  // ---- Safe sums -----------------------------------------------------------------------

  function Total(values: seq<int>): int {
    if values == [] then 0 else Total(values[..|values| - 1]) + values[|values| - 1]
  }

  predicate NonNegative(values: seq<int>) { forall i | 0 <= i < |values| :: values[i] >= 0 }

  lemma {:induction false} TotalRises(values: seq<int>, n: nat)
    requires NonNegative(values) && n <= |values|
    ensures 0 <= Total(values[..n]) <= Total(values)
  {
    if n < |values| {
      var before := values[..|values| - 1];
      TotalRises(before, n);
      assert before[..n] == values[..n];
    } else {
      assert values[..n] == values;
      if n > 0 { TotalRises(values[..n - 1], n - 1); }
    }
  }

  /** `safeSum`: the exact total, or nothing when a value is negative or the total is no safe integer. */
  method SafeSum(values: seq<int>) returns (r: Option<nat>)
    ensures r.Some? <==> NonNegative(values) && Total(values) <= MAX_SAFE_INTEGER
    ensures r.Some? ==> r.value == Total(values)
  {
    var total: nat := 0;
    var i := 0;
    while i < |values|
      invariant 0 <= i <= |values| && NonNegative(values[..i])
      invariant total == Total(values[..i]) <= MAX_SAFE_INTEGER
    {
      var value := values[i];
      assert values[..i + 1][..i] == values[..i];
      if value > MAX_SAFE_INTEGER || value < 0 || total > MAX_SAFE_INTEGER - value {
        if NonNegative(values) {
          TotalRises(values, i + 1);
        }
        return None;
      }
      total := total + value;
      i := i + 1;
    }
    assert values[..i] == values;
    r := Some(total);
  }

  // ---- Observations --------------------------------------------------------------------

  datatype Outcome = OutAccepted | OutFailed | OutBlocked | OutInvalid

  datatype Observation = Observation(
    blockId: string, phase: Option<Phase>, validHistory: bool, reasons: set<string>, attempts: nat, repairs: nat,
    escalated: bool, firstPassAccept: bool, acceptAfterOneRepair: bool, finalAccepted: bool,
    findingsMaterial: nat, findingsNonMaterial: nat, outcome: Outcome)

  /** `filter`. */
  function Filter(events: seq<Event>, keep: Event -> bool): seq<Event> {
    if events == [] then []
    else Filter(events[..|events| - 1], keep) + if keep(events[|events| - 1]) then [events[|events| - 1]] else []
  }

  predicate CompletesExecution(e: Event) { e.body.ExecutionCompleted? }
  predicate CompletesReview(e: Event) { e.body.ReviewCompleted? }
  predicate DecidesEscalation(e: Event) { e.body.EscalationDecided? }
  predicate StartsRepair(e: Event) { e.body.ExecutionStarted? && e.body.attempt.kind.Repair? }
  predicate RecordsUsage(e: Event) { e.body.UsageRecorded? }

  predicate TestCountWrong(e: Event) {
    e.body.ValidationRecorded? && (if e.body.passed then e.body.testsFailing != 0 else e.body.testsFailing == 0)
  }

  predicate AcceptsInRound(e: Event, round: int) {
    e.body.ReviewCompleted? && e.body.review.round == round && e.body.decision.Accept?
  }

  /** The first completed review of a round accepts. */
  predicate FirstOfRoundAccepts(reviews: seq<Event>, round: int) {
    exists i | 0 <= i < |reviews| ::
      AcceptsInRound(reviews[i], round) && forall j | 0 <= j < i :: reviews[j].body.ReviewCompleted? ==> reviews[j].body.review.round != round
  }

  function MaterialCounts(reviews: seq<Event>): seq<int> {
    Map((e: Event) => if e.body.ReviewCompleted? then |e.body.material| else 0, reviews)
  }

  function NonMaterialCounts(reviews: seq<Event>): seq<int> {
    Map((e: Event) => if e.body.ReviewCompleted? then |e.body.nonMaterial| else 0, reviews)
  }

  /** What reading the log for a block gives: its active events, their replay, and the error that stopped it. */
  datatype Reading = Reading(active: seq<Event>, replay: BlockReplay, error: Option<string>)

  const Unread := Reading([], Invalid("EMPTY_HISTORY", None, {}), Some("AUDIT_LOG_INVALID"))

  ghost function Read(m: Manifest, boundary: Event -> string, k: E.Checks, events: seq<Event>, id: string): Reading {
    var ordered := OrderedAudit(events, id);
    if !E.ValidLog(k, ordered) then Unread
    else
      Reading(OfBlock(E.ActiveOf(ordered), id),
              BlockOutcome(m, boundary, k, if exists e :: e in ordered && e.blockId == id then ordered else []), None)
  }

  /** The error the observation reports, later ones over earlier ones. */
  function FinalError(r: Reading, usageOk: seq<Event> -> bool): Option<string> {
    var reviews := Filter(r.active, CompletesReview);
    if Total(MaterialCounts(reviews)) > MAX_SAFE_INTEGER || Total(NonMaterialCounts(reviews)) > MAX_SAFE_INTEGER
    then Some("SAFE_ARITHMETIC_INVALID")
    else if exists e :: e in r.active && TestCountWrong(e) then Some("VALIDATION_TEST_COUNT_INVALID")
    else if !usageOk(Filter(r.active, RecordsUsage)) then Some("USAGE_AGGREGATION_INVALID")
    else r.error
  }

  function OutcomeOf(r: BlockReplay, invalid: bool): Outcome {
    if invalid || r.Invalid? then OutInvalid
    else if r.phase.Accepted? then OutAccepted
    else if r.phase.Failed? then OutFailed
    else if r.phase.Blocked? then OutBlocked
    else OutInvalid
  }

  function Capped(total: int): nat { if 0 <= total <= MAX_SAFE_INTEGER then total else 0 }

  function Observed(id: string, r: Reading, usageOk: seq<Event> -> bool): Observation {
    var reviews := Filter(r.active, CompletesReview);
    var error := FinalError(r, usageOk);
    var invalid := error.Some? || r.replay.Invalid?;
    var outcome := OutcomeOf(r.replay, invalid);
    var first := FirstOfRoundAccepts(reviews, 1);
    var repaired := exists e :: e in reviews && AcceptsInRound(e, 2);
    Observation(id, if invalid then None else Some(r.replay.phase), !invalid,
                (if r.replay.Invalid? then {r.replay.code} else {}) + (if error.Some? then {error.value} else {}),
                |Filter(r.active, CompletesExecution)|, |Filter(r.active, StartsRepair)|, Filter(r.active, DecidesEscalation) != [],
                outcome.OutAccepted? && first, outcome.OutAccepted? && (first || repaired), outcome.OutAccepted?,
                Capped(Total(MaterialCounts(reviews))), Capped(Total(NonMaterialCounts(reviews))), outcome)
  }

  lemma CountsNonNegative(reviews: seq<Event>)
    ensures NonNegative(MaterialCounts(reviews)) && NonNegative(NonMaterialCounts(reviews))
    ensures Total(MaterialCounts(reviews)) >= 0 && Total(NonMaterialCounts(reviews)) >= 0
  {
    var a, b := MaterialCounts(reviews), NonMaterialCounts(reviews);
    TotalRises(a, 0);
    TotalRises(b, 0);
  }

  /** `observationFor`, without usage, quality-window and timing figures. */
  method ObservationFor(m: Manifest, boundary: Event -> string, k: E.Checks, usageOk: seq<Event> -> bool,
                        events: seq<Event>, id: string) returns (o: Observation)
    ensures o == Observed(id, Read(m, boundary, k, events, id), usageOk)
  {
    hide BlockOutcome, E.ValidLog, E.ActiveOf, OfBlock, OrderedAudit, Observed;
    var active: seq<Event> := [];
    var replay := Invalid("EMPTY_HISTORY", None, {});
    var reducerError: Option<string> := None;
    var ordered := OrderedAudit(events, id);
    var projected := E.ActiveEvents(k, ordered);
    if projected.Ok? {
      active := OfBlock(projected.value, id);
      var present := exists e | e in ordered :: e.blockId == id;
      replay := ReplayBlock(m, boundary, k, if present then ordered else []);
    } else {
      reducerError := Some("AUDIT_LOG_INVALID");
    }
    assert Read(m, boundary, k, events, id) == Reading(active, replay, reducerError);
    o := Summarize(id, active, replay, reducerError, usageOk);
  }

  /** The later checks, each overriding the error, and the figures, summed safely. */
  method LaterChecks(active: seq<Event>, reviews: seq<Event>, error: Option<string>, usageOk: seq<Event> -> bool, replay: BlockReplay)
    returns (reducerError: Option<string>, material: nat, nonMaterial: nat)
    requires reviews == Filter(active, CompletesReview)
    ensures reducerError == FinalError(Reading(active, replay, error), usageOk)
    ensures material == Capped(Total(MaterialCounts(reviews))) && nonMaterial == Capped(Total(NonMaterialCounts(reviews)))
  {
    CountsNonNegative(reviews);
    hide Filter, TestCountWrong, MaterialCounts, NonMaterialCounts, Total, NonNegative;
    reducerError := error;
    if !usageOk(Filter(active, RecordsUsage)) { reducerError := Some("USAGE_AGGREGATION_INVALID"); }
    if exists e | e in active :: TestCountWrong(e) { reducerError := Some("VALIDATION_TEST_COUNT_INVALID"); }
    var first := SafeSum(MaterialCounts(reviews));
    var second := SafeSum(NonMaterialCounts(reviews));
    if first.None? || second.None? { reducerError := Some("SAFE_ARITHMETIC_INVALID"); }
    material := if first.Some? then first.value else 0;
    nonMaterial := if second.Some? then second.value else 0;
  }

  /** The rest of `observationFor`. */
  method Summarize(id: string, active: seq<Event>, replay: BlockReplay, error: Option<string>, usageOk: seq<Event> -> bool)
    returns (o: Observation)
    ensures o == Observed(id, Reading(active, replay, error), usageOk)
  {
    hide Filter, FirstOfRoundAccepts, MaterialCounts, NonMaterialCounts, Total, AcceptsInRound, OutcomeOf, FinalError, Capped;
    var reviews := Filter(active, CompletesReview);
    var reducerError, material, nonMaterial := LaterChecks(active, reviews, error, usageOk, replay);
    var invalid := reducerError.Some? || replay.Invalid?;
    var terminal := OutcomeOf(replay, invalid);
    var firstPass := FirstOfRoundAccepts(reviews, 1);
    var repaired := exists e | e in reviews :: AcceptsInRound(e, 2);
    var reasons := (if replay.Invalid? then {replay.code} else {}) + (if reducerError.Some? then {reducerError.value} else {});
    o := Observation(id, if invalid then None else Some(replay.phase), !invalid, reasons,
                     |Filter(active, CompletesExecution)|, |Filter(active, StartsRepair)|, Filter(active, DecidesEscalation) != [],
                     terminal.OutAccepted? && firstPass, terminal.OutAccepted? && (firstPass || repaired), terminal.OutAccepted?,
                     material, nonMaterial, terminal);
  }

  // ---- Order never matters -----------------------------------------------------------

  /** Two arrangements of one raw log read the same for every block, even when event ids repeat. */
  lemma ReadForgetsOrder(m: Manifest, boundary: Event -> string, k: E.Checks, s: seq<Event>, t: seq<Event>, id: string)
    requires multiset(s) == multiset(t)
    ensures Read(m, boundary, k, s, id) == Read(m, boundary, k, t, id)
  {
    hide BlockOutcome, E.ActiveOf, OfBlock, E.Follows;
    if E.DistinctIds(s) {
      AuditForgetsOrder(id, s, t);
    } else {
      RepeatedIdsUnread(k, s, s, id);
      RepeatedIdsUnread(k, s, t, id);
    }
  }

  lemma RepeatedIdsUnread(k: E.Checks, s: seq<Event>, t: seq<Event>, id: string)
    requires multiset(s) == multiset(t) && !E.DistinctIds(s)
    ensures !E.ValidLog(k, OrderedAudit(t, id))
  {
    SortPermutes(t, Audit(id));
    if E.ValidLog(k, OrderedAudit(t, id)) {
      E.ValidDistinct(k, OrderedAudit(t, id));
      DistinctIdsPermute(OrderedAudit(t, id), s);
      assert false;
    }
  }

  /** `assertRawIdentity`: every event matches its block and the block's assignment. */
  predicate IdentityOk(m: Manifest, e: Event) {
    var b := FindBlock(m.blocks, e.blockId);
    && b.Some? && e.pilotId == m.pilotId && e.manifestHash == m.manifestHash && SameIdentity(b.value, e)
    && match FindArm(m.assignments, e.blockId)
       case Some(arm) => e.arm == Some(arm)
       case None => !b.value.comparative && e.arm.None?
  }

  function BlocksById(m: Manifest): seq<Block> { Sort(m.blocks, (a: Block, b: Block) => StringLe(a.blockId, b.blockId)) }

  ghost function Observations(m: Manifest, boundary: Event -> string, k: E.Checks, usageOk: seq<Event> -> bool,
                              events: seq<Event>, blocks: seq<Block>): (r: seq<Observation>)
    ensures |r| == |blocks|
    ensures forall i | 0 <= i < |r| :: r[i] == Observed(blocks[i].blockId, Read(m, boundary, k, events, blocks[i].blockId), usageOk)
  {
    Map((b: Block) => Observed(b.blockId, Read(m, boundary, k, events, b.blockId), usageOk), blocks)
  }

  predicate IdentitiesOk(m: Manifest, events: seq<Event>) { forall e | e in events :: IdentityOk(m, e) }

  /** The observations of a raw log, or nothing when some event is not the manifest's. */
  ghost function Reduced(m: Manifest, boundary: Event -> string, k: E.Checks, usageOk: seq<Event> -> bool, events: seq<Event>)
    : Option<seq<Observation>>
  {
    if !IdentitiesOk(m, events) then None
    else Some(Observations(m, boundary, k, usageOk, events, BlocksById(m)))
  }

  /** `reduceEvents`, for a manifest that verifies. */
  method ReduceEvents(m: Manifest, boundary: Event -> string, k: E.Checks, usageOk: seq<Event> -> bool, events: seq<Event>)
    returns (r: Option<seq<Observation>>)
    ensures r == Reduced(m, boundary, k, usageOk, events)
  {
    hide Observed, Read, IdentitiesOk, BlocksById;
    if !IdentitiesOk(m, events) { return None; }
    var blocks := BlocksById(m);
    var observations: seq<Observation> := [];
    var i := 0;
    while i < |blocks|
      invariant 0 <= i == |observations| <= |blocks|
      invariant forall j | 0 <= j < i ::
                  observations[j] == Observed(blocks[j].blockId, Read(m, boundary, k, events, blocks[j].blockId), usageOk)
    {
      var o := ObservationFor(m, boundary, k, usageOk, events, blocks[i].blockId);
      observations := observations + [o];
      i := i + 1;
    }
    assert observations == Observations(m, boundary, k, usageOk, events, blocks);
    r := Some(observations);
  }

  /** Reordering a raw log changes neither the observations nor whether there are any. */
  lemma ReduceForgetsOrder(m: Manifest, boundary: Event -> string, k: E.Checks, usageOk: seq<Event> -> bool,
                           s: seq<Event>, t: seq<Event>)
    requires multiset(s) == multiset(t)
    ensures Reduced(m, boundary, k, usageOk, s) == Reduced(m, boundary, k, usageOk, t)
  {
    hide Observed, Read, IdentityOk, BlocksById;
    SameMembers(s, t);
    forall id ensures Read(m, boundary, k, s, id) == Read(m, boundary, k, t, id) {
      ReadForgetsOrder(m, boundary, k, s, t, id);
    }
    assert Observations(m, boundary, k, usageOk, s, BlocksById(m)) == Observations(m, boundary, k, usageOk, t, BlocksById(m));
  }
}
