/**
 The run-set verifier (src/pilot/dogfood-manifest.ts): when the recorded runs of an experiment, and the
 event that stopped it early if any, are accepted.
 */
module DogfoodRunSet {
  import opened Prelude
  import opened Sorting
  import opened DogfoodSchedule

  datatype Condition = CriticalFalseAcceptance | CrossRunContamination | UnreconstructableEvidence | Operational(code: string)

  /** `sound` stands for the schema, hash, binding, baseline, cost and semantic checks of one record. */
  datatype Record = Record(
    runId: string, ordinal: int, caseId: string, strategy: Strategy,
    startedAt: Option<int>, completedAt: Option<int>, recordedAt: Option<int>, durationMs: int,
    falseAcceptance: bool, criticalDefect: bool, contamination: bool, reconstructible: bool, recordHash: string, sound: bool)

  /** `bound` stands for the event's schema, its own hash and its manifest. */
  datatype StopEvent = StopEvent(lastOrdinal: nat, condition: Condition, triggeringRunId: Option<string>, observedAt: Option<int>,
                                 evidence: seq<string>, bound: bool)

  /** `hash` is canonical hashing; `sound` stands for the manifest checks other than the schedule's; execution is strictly serial. */
  datatype Manifest = Manifest(cases: seq<string>, schedule: seq<Slot>, hash: seq<Slot> -> string, scheduleHash: string,
                               maxConsecutive: nat, windowSeconds: nat, sound: bool)

  ghost predicate ManifestOk(m: Manifest) {
    m.sound && Passes(m.cases, m.schedule, m.maxConsecutive) && m.scheduleHash == m.hash(m.schedule)
  }

  // ---- One record ------------------------------------------------------------------------

  /** `timingErrors` finds nothing. */
  predicate TimingOk(m: Manifest, r: Record) {
    && r.startedAt.Some? && r.completedAt.Some? && r.recordedAt.Some?
    && r.startedAt.value <= r.completedAt.value <= r.recordedAt.value
    && r.durationMs == r.completedAt.value - r.startedAt.value
    && m.windowSeconds * 1000 <= MAX_SAFE_INTEGER && r.recordedAt.value - r.completedAt.value >= m.windowSeconds * 1000
  }

  function FindSlot(schedule: seq<Slot>, ordinal: int): Option<Slot> {
    if schedule == [] then None
    else if schedule[0].ordinal == ordinal then Some(schedule[0])
    else FindSlot(schedule[1..], ordinal)
  }

  predicate SlotMatches(slot: Option<Slot>, r: Record) {
    slot.Some? && slot.value.caseId == r.caseId && slot.value.strategy == r.strategy
  }

  /** `verifyDogfoodRunRecordV1` accepts. */
  predicate RecordOk(m: Manifest, r: Record) {
    && r.sound && r.caseId in m.cases && TimingOk(m, r)
    && SlotMatches(FindSlot(m.schedule, r.ordinal), r)
  }

  function DerivedStop(r: Record): Option<Condition> {
    if r.falseAcceptance && r.criticalDefect then Some(CriticalFalseAcceptance)
    else if r.contamination then Some(CrossRunContamination)
    else if !r.reconstructible then Some(UnreconstructableEvidence)
    else None
  }

  /** The triggering run shows the condition that a stop event claims. */
  predicate Shows(r: Record, c: Condition) {
    match c
    case CriticalFalseAcceptance => r.falseAcceptance && r.criticalDefect
    case CrossRunContamination => r.contamination
    case UnreconstructableEvidence => !r.reconstructible
    case Operational(_) => true
  }

  /** `verifyDogfoodStopEventV1` accepts. */
  predicate StopEventOk(m: Manifest, stop: StopEvent, trigger: Option<Record>) {
    && stop.bound && stop.lastOrdinal <= |m.schedule|
    && if stop.lastOrdinal == 0 then
         !stop.condition.CriticalFalseAcceptance? && !stop.condition.CrossRunContamination? && stop.triggeringRunId.None?
       else
         && trigger.Some? && RecordOk(m, trigger.value)
         && stop.triggeringRunId == Some(trigger.value.runId) && trigger.value.ordinal == stop.lastOrdinal
         && trigger.value.recordHash in stop.evidence
         && (stop.observedAt.Some? && trigger.value.completedAt.Some? ==> stop.observedAt.value >= trigger.value.completedAt.value)
         && Shows(trigger.value, stop.condition)
  }

  // ---- The set ---------------------------------------------------------------------------

  function LastOrdinal(m: Manifest, stop: Option<StopEvent>): nat {
    if stop.None? then |m.schedule| else if stop.value.lastOrdinal < |m.schedule| then stop.value.lastOrdinal else |m.schedule|
  }

  predicate OrdinalLe(a: Record, b: Record) { a.ordinal <= b.ordinal }

  function InOrder(records: seq<Record>): seq<Record> { Sort(records, OrdinalLe) }

  /** Runs are exactly ordinals one to `k`, each by a run of its own, one after another in time. */
  ghost predicate SerialPrefix(m: Manifest, ordered: seq<Record>, k: nat) {
    && |ordered| == k
    && (forall i | 0 <= i < k :: ordered[i].ordinal == i + 1 && RecordOk(m, ordered[i]))
    && (forall i, j | 0 <= i < j < k :: ordered[i].runId != ordered[j].runId)
    && (forall i, j | 0 <= i < j < k :: ordered[i].completedAt.value <= ordered[j].startedAt.value)
  }

  /** No run before the last calls for a stop, and when the last does, it is the one the stop event names. */
  ghost predicate StopsRight(ordered: seq<Record>, stop: Option<StopEvent>) {
    && (forall i | 0 <= i < |ordered| - 1 :: DerivedStop(ordered[i]).None?)
    && (ordered != [] && DerivedStop(ordered[|ordered| - 1]).Some? ==>
          && stop.Some? && stop.value.condition == DerivedStop(ordered[|ordered| - 1]).value)
  }

  /** The stop event names the last run. */
  ghost predicate StopNamesLast(m: Manifest, ordered: seq<Record>, stop: StopEvent) {
    stop.lastOrdinal == |ordered| && StopEventOk(m, stop, if ordered == [] then None else Some(ordered[|ordered| - 1]))
  }

  ghost predicate RunSetOk(m: Manifest, records: seq<Record>, stop: Option<StopEvent>) {
    var ordered := InOrder(records);
    && ManifestOk(m) && SerialPrefix(m, ordered, LastOrdinal(m, stop)) && StopsRight(ordered, stop)
    && (stop.Some? ==> StopNamesLast(m, ordered, stop.value))
  }

  // ---- The verifier's passes ---------------------------------------------------------------

  predicate OrdinalsDistinct(s: seq<Record>) { forall i, j | 0 <= i < j < |s| :: s[i].ordinal != s[j].ordinal }
  predicate IdsDistinct(s: seq<Record>) { forall i, j | 0 <= i < j < |s| :: s[i].runId != s[j].runId }
  predicate AllOk(m: Manifest, s: seq<Record>) { forall i | 0 <= i < |s| :: RecordOk(m, s[i]) }
  predicate OrdinalsWithin(s: seq<Record>, k: nat) { forall i | 0 <= i < |s| :: 1 <= s[i].ordinal <= k }
  predicate HasOrdinal(s: seq<Record>, v: int) { exists i | 0 <= i < |s| :: s[i].ordinal == v }
  predicate OrdinalsSeen(s: seq<Record>, k: nat) { forall v | 1 <= v <= k :: HasOrdinal(s, v) }

  predicate OkBefore(m: Manifest, s: seq<Record>, n: nat)
    requires n <= |s|
  {
    forall i | 0 <= i < n :: RecordOk(m, s[i])
  }

  predicate OnceBefore<T(==)>(s: seq<Record>, key: Record -> T, n: nat)
    requires n <= |s|
  {
    forall i, j | 0 <= i < j < n :: key(s[i]) != key(s[j])
  }

  predicate SeenBefore<T(==)>(s: seq<Record>, key: Record -> T, n: nat, v: T)
    requires n <= |s|
  {
    exists i | 0 <= i < n :: key(s[i]) == v
  }

  lemma KeysNext<T(!new)>(s: seq<Record>, key: Record -> T, n: nat)
    requires n < |s|
    ensures OnceBefore(s, key, n + 1) <==> OnceBefore(s, key, n) && !SeenBefore(s, key, n, key(s[n]))
    ensures forall v :: SeenBefore(s, key, n + 1, v) <==> SeenBefore(s, key, n, v) || v == key(s[n])
  {
    assert SeenBefore(s, key, n + 1, key(s[n]));
  }

  function OrdinalOf(r: Record): int { r.ordinal }
  function RunIdOf(r: Record): string { r.runId }

  /** The pass over the records. */
  method CheckRecords(m: Manifest, records: seq<Record>) returns (ok: bool, seenOrdinals: set<int>)
    ensures ok <==> AllOk(m, records) && OrdinalsDistinct(records) && IdsDistinct(records)
    ensures forall v :: v in seenOrdinals <==> HasOrdinal(records, v)
  {
    hide RecordOk, OnceBefore, SeenBefore;
    ok := true;
    seenOrdinals := {};
    var seenRunIds: set<string> := {};
    NothingSeen(records, OrdinalOf);
    NothingSeen(records, RunIdOf);
    var index := 0;
    while index < |records|
      invariant 0 <= index <= |records|
      invariant ok <==> OkBefore(m, records, index) && OnceBefore(records, OrdinalOf, index) && OnceBefore(records, RunIdOf, index)
      invariant forall v :: v in seenOrdinals <==> SeenBefore(records, OrdinalOf, index, v)
      invariant forall v :: v in seenRunIds <==> SeenBefore(records, RunIdOf, index, v)
    {
      var record := records[index];
      KeysNext(records, OrdinalOf, index);
      KeysNext(records, RunIdOf, index);
      if !RecordOk(m, record) { ok := false; }
      if record.ordinal in seenOrdinals { ok := false; }
      seenOrdinals := seenOrdinals + {record.ordinal};
      if record.runId in seenRunIds { ok := false; }
      seenRunIds := seenRunIds + {record.runId};
      index := index + 1;
    }
    AllSeen(m, records);
  }

  lemma NothingSeen<T(!new)>(s: seq<Record>, key: Record -> T)
    ensures OnceBefore(s, key, 0) && forall v :: !SeenBefore(s, key, 0, v)
  {
  }

  lemma AllSeen(m: Manifest, s: seq<Record>)
    ensures OkBefore(m, s, |s|) <==> AllOk(m, s)
    ensures OnceBefore(s, OrdinalOf, |s|) <==> OrdinalsDistinct(s)
    ensures OnceBefore(s, RunIdOf, |s|) <==> IdsDistinct(s)
    ensures forall v :: SeenBefore(s, OrdinalOf, |s|, v) <==> HasOrdinal(s, v)
  {
    hide RecordOk;
  }

  method CheckOrdinals(records: seq<Record>, seen: set<int>, k: nat) returns (ok: bool)
    requires forall v :: v in seen <==> HasOrdinal(records, v)
    ensures ok <==> OrdinalsSeen(records, k) && OrdinalsWithin(records, k)
  {
    hide HasOrdinal;
    ok := true;
    for ordinal := 1 to k + 1
      invariant ok <==> forall v | 1 <= v < ordinal :: HasOrdinal(records, v)
    {
      if ordinal !in seen { ok := false; }
    }
    var i := 0;
    while i < |records|
      invariant 0 <= i <= |records|
      invariant ok <==> OrdinalsSeen(records, k) && forall j | 0 <= j < i :: 1 <= records[j].ordinal <= k
    {
      if !(1 <= records[i].ordinal <= k) { ok := false; }
      i := i + 1;
    }
  }

  lemma InOrderFacts(records: seq<Record>)
    ensures multiset(InOrder(records)) == multiset(records) && |InOrder(records)| == |records|
    ensures (forall r | r in InOrder(records) :: r in records) && (forall r | r in records :: r in InOrder(records))
    ensures Sorted(InOrder(records), OrdinalLe)
  {
    OrdinalOrders();
    SortPermutes(records, OrdinalLe);
    SortSorts(records, OrdinalLe);
  }

  lemma OrdinalOrders()
    ensures TotalPreorder(OrdinalLe)
  {
  }

  /** Sorted, distinct ordinals that cover exactly one to `k` are one to `k`. */
  ghost predicate Consecutive(ordered: seq<Record>, k: nat) {
    |ordered| == k && forall i | 0 <= i < k :: ordered[i].ordinal == i + 1
  }

  lemma {:induction false} PrefixConsecutive(ordered: seq<Record>, k: nat, n: nat)
    requires Sorted(ordered, OrdinalLe) && OrdinalsDistinct(ordered) && OrdinalsWithin(ordered, k) && OrdinalsSeen(ordered, k)
    requires n <= |ordered|
    ensures n <= k && forall i | 0 <= i < n :: ordered[i].ordinal == i + 1
  {
    if n > 0 {
      PrefixConsecutive(ordered, k, n - 1);
      var at := ordered[n - 1].ordinal;
      if n > 1 { assert OrdinalLe(ordered[n - 2], ordered[n - 1]); }
      assert n <= at <= k;
      assert HasOrdinal(ordered, n);
      forall q | n - 1 < q < |ordered| ensures ordered[q].ordinal > at {
        assert OrdinalLe(ordered[n - 1], ordered[q]);
      }
      var p :| 0 <= p < |ordered| && ordered[p].ordinal == n;
    }
  }

  lemma CoveredIff(ordered: seq<Record>, k: nat)
    requires Sorted(ordered, OrdinalLe)
    ensures OrdinalsDistinct(ordered) && OrdinalsWithin(ordered, k) && OrdinalsSeen(ordered, k) <==> Consecutive(ordered, k)
  {
    if OrdinalsDistinct(ordered) && OrdinalsWithin(ordered, k) && OrdinalsSeen(ordered, k) {
      PrefixConsecutive(ordered, k, |ordered|);
      if k > 0 {
        assert HasOrdinal(ordered, k);
        var p :| 0 <= p < |ordered| && ordered[p].ordinal == k;
        assert p == k - 1;
      }
    }
    if Consecutive(ordered, k) {
      forall v | 1 <= v <= k ensures HasOrdinal(ordered, v) { assert ordered[v - 1].ordinal == v; }
    }
  }

  /** What does not depend on the order of the records. */
  lemma ChecksPermute(m: Manifest, s: seq<Record>, t: seq<Record>, k: nat)
    requires multiset(s) == multiset(t)
    requires AllOk(m, s) && OrdinalsDistinct(s) && IdsDistinct(s) && OrdinalsWithin(s, k) && OrdinalsSeen(s, k)
    ensures AllOk(m, t) && OrdinalsDistinct(t) && IdsDistinct(t) && OrdinalsWithin(t, k) && OrdinalsSeen(t, k)
  {
    hide RecordOk;
    SameMembers(s, t);
    assert Distinct(s) by { forall i, j | 0 <= i < j < |s| ensures s[i] != s[j] { assert s[i].runId != s[j].runId; } }
    DistinctUnderPermutation(s, t);
    forall i | 0 <= i < |t| ensures RecordOk(m, t[i]) && 1 <= t[i].ordinal <= k { assert t[i] in s; }
    forall i, j | 0 <= i < j < |t| ensures t[i].ordinal != t[j].ordinal && t[i].runId != t[j].runId {
      assert t[i] in s && t[j] in s;
      var a :| 0 <= a < |s| && s[a] == t[i];
      var b :| 0 <= b < |s| && s[b] == t[j];
      assert if a < b then s[a].ordinal != s[b].ordinal && s[a].runId != s[b].runId
             else s[b].ordinal != s[a].ordinal && s[b].runId != s[a].runId;
    }
    forall v | 1 <= v <= k ensures HasOrdinal(t, v) {
      assert HasOrdinal(s, v);
      var a :| 0 <= a < |s| && s[a].ordinal == v;
      assert s[a] in t;
    }
  }

  lemma ChecksOrdered(m: Manifest, records: seq<Record>, k: nat)
    ensures AllOk(m, records) && OrdinalsDistinct(records) && IdsDistinct(records) && OrdinalsWithin(records, k) && OrdinalsSeen(records, k)
            <==> AllOk(m, InOrder(records)) && IdsDistinct(InOrder(records)) && Consecutive(InOrder(records), k)
  {
    hide AllOk, OrdinalsDistinct, IdsDistinct, OrdinalsWithin, OrdinalsSeen, Consecutive;
    var ordered := InOrder(records);
    InOrderFacts(records);
    CoveredIff(ordered, k);
    if AllOk(m, records) && OrdinalsDistinct(records) && IdsDistinct(records) && OrdinalsWithin(records, k) && OrdinalsSeen(records, k) {
      ChecksPermute(m, records, ordered, k);
    }
    if AllOk(m, ordered) && IdsDistinct(ordered) && Consecutive(ordered, k) {
      ChecksPermute(m, ordered, records, k);
    }
  }

  // ---- Time --------------------------------------------------------------------------------

  /** Neighbours do not overlap. */
  predicate NeighboursSerial(ordered: seq<Record>) {
    forall i | 1 <= i < |ordered| ::
      ordered[i - 1].completedAt.Some? && ordered[i].startedAt.Some? ==> ordered[i].startedAt.value >= ordered[i - 1].completedAt.value
  }

  method CheckSerial(ordered: seq<Record>) returns (ok: bool)
    ensures ok <==> NeighboursSerial(ordered)
  {
    ok := true;
    var index := 1;
    while index < |ordered|
      invariant 1 <= index && (|ordered| >= 1 ==> index <= |ordered|)
      invariant ok <==> forall i | 1 <= i < index && i < |ordered| ::
                          ordered[i - 1].completedAt.Some? && ordered[i].startedAt.Some? ==>
                            ordered[i].startedAt.value >= ordered[i - 1].completedAt.value
    {
      var prior, current := ordered[index - 1].completedAt, ordered[index].startedAt;
      if prior.Some? && current.Some? && current.value < prior.value { ok := false; }
      index := index + 1;
    }
  }

  lemma {:induction false} NeighboursApart(m: Manifest, ordered: seq<Record>, i: nat, j: nat)
    requires AllOk(m, ordered) && NeighboursSerial(ordered) && i < j < |ordered|
    ensures ordered[i].completedAt.Some? && ordered[j].startedAt.Some?
    ensures ordered[i].completedAt.value <= ordered[j].startedAt.value
  {
    assert RecordOk(m, ordered[i]) && RecordOk(m, ordered[j]) && RecordOk(m, ordered[j - 1]);
    if i < j - 1 {
      NeighboursApart(m, ordered, i, j - 1);
    }
  }

  lemma SerialIff(m: Manifest, ordered: seq<Record>, k: nat)
    ensures AllOk(m, ordered) && IdsDistinct(ordered) && Consecutive(ordered, k) && NeighboursSerial(ordered)
            <==> SerialPrefix(m, ordered, k)
  {
    if AllOk(m, ordered) && IdsDistinct(ordered) && Consecutive(ordered, k) && NeighboursSerial(ordered) {
      forall i, j | 0 <= i < j < k ensures ordered[i].completedAt.Some? && ordered[j].startedAt.Some?
                                           && ordered[i].completedAt.value <= ordered[j].startedAt.value
      {
        NeighboursApart(m, ordered, i, j);
      }
    }
  }

  // ---- Pairs -------------------------------------------------------------------------------

  function RecordPair(r: Record): Pair { (r.caseId, r.strategy) }

  predicate PairsDistinct(s: seq<Record>) { forall i, j | 0 <= i < j < |s| :: RecordPair(s[i]) != RecordPair(s[j]) }

  /** Every scheduled pair up to ordinal `k` was run. */
  predicate PairsCovered(schedule: seq<Slot>, s: seq<Record>, k: nat)
    requires k <= |schedule|
  {
    forall i | 0 <= i < k :: PairRun(s, PairOf(schedule[i]))
  }

  predicate PairRun(s: seq<Record>, p: Pair) { exists j | 0 <= j < |s| :: RecordPair(s[j]) == p }

  method CheckPairs(records: seq<Record>) returns (ok: bool, actual: set<Pair>)
    ensures ok <==> PairsDistinct(records)
    ensures forall p :: p in actual <==> PairRun(records, p)
  {
    hide RecordPair, OnceBefore, SeenBefore;
    actual := {};
    NothingSeen(records, RecordPair);
    var i := 0;
    while i < |records|
      invariant 0 <= i <= |records| && |actual| <= i
      invariant forall p :: p in actual <==> SeenBefore(records, RecordPair, i, p)
      invariant |actual| == i <==> OnceBefore(records, RecordPair, i)
    {
      KeysNext(records, RecordPair, i);
      var pair := RecordPair(records[i]);
      AddedSize(actual, pair);
      actual := actual + {pair};
      i := i + 1;
    }
    ok := |actual| == |records|;
    AllPairs(records);
  }

  lemma AllPairs(s: seq<Record>)
    ensures OnceBefore(s, RecordPair, |s|) <==> PairsDistinct(s)
    ensures forall p :: SeenBefore(s, RecordPair, |s|, p) <==> PairRun(s, p)
  {
    hide RecordPair;
  }

  lemma {:induction false} FindSlotAt(schedule: seq<Slot>, v: int, from: int)
    requires forall i | 0 <= i < |schedule| :: schedule[i].ordinal == from + i
    ensures FindSlot(schedule, v) == if from <= v < from + |schedule| then Some(schedule[v - from]) else None
  {
    if schedule != [] {
      FindSlotAt(schedule[1..], v, from + 1);
    }
  }

  /** A verified run of a passing schedule is the slot of its ordinal. */
  lemma RunIsSlot(m: Manifest, ordered: seq<Record>, k: nat, i: nat)
    requires ManifestOk(m) && AllOk(m, ordered) && Consecutive(ordered, k) && i < k <= |m.schedule|
    ensures RecordPair(ordered[i]) == PairOf(m.schedule[i])
  {
    hide Passes;
    FindSlotAt(m.schedule, i + 1, 1) by { OrdinalsFrom(m); }
    assert RecordOk(m, ordered[i]);
  }

  lemma OrdinalsFrom(m: Manifest)
    requires ManifestOk(m)
    ensures forall i | 0 <= i < |m.schedule| :: m.schedule[i].ordinal == 1 + i
    ensures forall i, j | 0 <= i < j < |m.schedule| :: PairOf(m.schedule[i]) != PairOf(m.schedule[j])
  {
  }

  /** The pair checks follow from the others. */
  lemma PairsFollow(m: Manifest, records: seq<Record>, k: nat)
    requires ManifestOk(m) && AllOk(m, InOrder(records)) && Consecutive(InOrder(records), k) && k <= |m.schedule|
    ensures PairsDistinct(records) && PairsCovered(m.schedule, records, k)
  {
    var ordered := InOrder(records);
    hide RecordOk, RecordPair, PairOf;
    InOrderFacts(records);
    hide InOrder;
    forall i | 0 <= i < k ensures RecordPair(ordered[i]) == PairOf(m.schedule[i]) { RunIsSlot(m, ordered, k, i); }
    OrdinalsFrom(m);
    hide ManifestOk;
    forall i, j | 0 <= i < j < k ensures RecordPair(ordered[i]) != RecordPair(ordered[j]) {
      assert PairOf(m.schedule[i]) != PairOf(m.schedule[j]);
    }
    PairsPermute(ordered, records);
    forall i | 0 <= i < k ensures PairRun(records, PairOf(m.schedule[i])) {
      assert ordered[i] in records;
      var j :| 0 <= j < |records| && records[j] == ordered[i];
      assert RecordPair(records[j]) == PairOf(m.schedule[i]);
    }
  }

  lemma PairsPermute(s: seq<Record>, t: seq<Record>)
    requires multiset(s) == multiset(t) && PairsDistinct(s)
    ensures PairsDistinct(t)
  {
    hide RecordPair;
    SameMembers(s, t);
    assert Distinct(s) by { forall i, j | 0 <= i < j < |s| ensures s[i] != s[j] { assert RecordPair(s[i]) != RecordPair(s[j]); } }
    DistinctUnderPermutation(s, t);
    forall i, j | 0 <= i < j < |t| ensures RecordPair(t[i]) != RecordPair(t[j]) {
      assert t[i] in s && t[j] in s;
      var a :| 0 <= a < |s| && s[a] == t[i];
      var b :| 0 <= b < |s| && s[b] == t[j];
      assert if a < b then RecordPair(s[a]) != RecordPair(s[b]) else RecordPair(s[b]) != RecordPair(s[a]);
    }
  }

  // ---- Stopping ----------------------------------------------------------------------------

  ghost predicate FirstDerived(ordered: seq<Record>, f: Option<nat>) {
    match f
    case None => forall i | 0 <= i < |ordered| :: DerivedStop(ordered[i]).None?
    case Some(n) => n < |ordered| && DerivedStop(ordered[n]).Some? && forall i | 0 <= i < n :: DerivedStop(ordered[i]).None?
  }

  method FindDerived(ordered: seq<Record>) returns (f: Option<nat>)
    ensures FirstDerived(ordered, f)
  {
    var i := 0;
    while i < |ordered|
      invariant 0 <= i <= |ordered| && forall j | 0 <= j < i :: DerivedStop(ordered[j]).None?
    {
      if DerivedStop(ordered[i]).Some? { return Some(i); }
      i := i + 1;
    }
    return None;
  }

  /** The first derived stop, if any, is the one the stop event names. */
  predicate DerivedFits(ordered: seq<Record>, f: Option<nat>, stop: Option<StopEvent>)
    requires f.Some? ==> f.value < |ordered|
  {
    f.Some? ==>
      && stop.Some? && stop.value.lastOrdinal == ordered[f.value].ordinal
      && Some(stop.value.condition) == DerivedStop(ordered[f.value])
      && stop.value.triggeringRunId == Some(ordered[f.value].runId)
  }

  function FindRun(records: seq<Record>, id: Option<string>): Option<Record> {
    if records == [] then None
    else if Some(records[0].runId) == id then Some(records[0])
    else FindRun(records[1..], id)
  }

  lemma {:induction false} FindRunIn(records: seq<Record>, id: Option<string>)
    ensures FindRun(records, id).Some? ==> FindRun(records, id).value in records && Some(FindRun(records, id).value.runId) == id
    ensures FindRun(records, id).None? ==> forall r | r in records :: Some(r.runId) != id
  {
    if records != [] {
      FindRunIn(records[1..], id);
      assert records == [records[0]] + records[1..];
    }
  }

  predicate TriggerOk(m: Manifest, records: seq<Record>, stop: StopEvent) {
    var trigger := FindRun(records, stop.triggeringRunId);
    (stop.lastOrdinal > 0 ==> trigger.Some?) && StopEventOk(m, stop, trigger)
  }

  lemma TriggerIsLast(m: Manifest, records: seq<Record>, ordered: seq<Record>, stop: StopEvent)
    requires IdsDistinct(ordered) && Consecutive(ordered, LastOrdinal(m, Some(stop)))
    requires (forall r | r in ordered :: r in records) && (forall r | r in records :: r in ordered)
    ensures TriggerOk(m, records, stop) <==> StopNamesLast(m, ordered, stop)
  {
    hide RecordOk, Shows, FindRun;
    FindRunIn(records, stop.triggeringRunId);
    var trigger := FindRun(records, stop.triggeringRunId);
    if stop.lastOrdinal > 0 && trigger.Some? && ordered != [] {
      var i :| 0 <= i < |ordered| && ordered[i] == trigger.value;
      assert ordered[i].ordinal == i + 1;
      assert i == |ordered| - 1 || ordered[i].runId != ordered[|ordered| - 1].runId;
    }
  }

  lemma DerivedIff(m: Manifest, ordered: seq<Record>, f: Option<nat>, stop: Option<StopEvent>)
    requires FirstDerived(ordered, f) && Consecutive(ordered, |ordered|)
    requires stop.Some? ==> StopNamesLast(m, ordered, stop.value)
    ensures DerivedFits(ordered, f, stop) <==> StopsRight(ordered, stop)
  {
    hide DerivedStop, RecordOk, Shows;
  }

  // ---- `verifyDogfoodRunSetV1` ----------------------------------------------------------------

  /** The candidates that parse. */
  function Parsed(candidates: seq<Option<Record>>): seq<Record> {
    if candidates == [] then []
    else Parsed(candidates[..|candidates| - 1]) +
         if candidates[|candidates| - 1].Some? then [candidates[|candidates| - 1].value] else []
  }

  datatype Verdict = Verdict(ok: bool, stopped: bool, expected: nat, actual: nat)

  /**
   The verifier accepts exactly the run sets that are ordinals one to `k` of a passing schedule, each verified
   and run by a run of its own, in sequence without overlap, with no hard stop due before `k`; where `k` is the
   whole schedule, or the ordinal of a stop event that names run `k` and the condition that run shows.
   */
  method VerifyRunSet(m: Manifest, candidates: seq<Option<Record>>, stop: Option<StopEvent>) returns (v: Verdict)
    ensures v.ok <==> (forall i | 0 <= i < |candidates| :: candidates[i].Some?) && RunSetOk(m, Parsed(candidates), stop)
    ensures v.expected == LastOrdinal(m, stop) && v.actual == |candidates|
    ensures v.ok ==> (v.stopped <==> stop.Some?)
    ensures v.stopped <==> stop.Some? || exists r :: r in Parsed(candidates) && DerivedStop(r) != None
  {
    hide RecordOk, AllOk, OrdinalsDistinct, IdsDistinct, OrdinalsWithin, OrdinalsSeen, PairsDistinct, PairsCovered, NeighboursSerial;
    hide Passes, Consecutive, SerialPrefix, StopsRight, StopNamesLast, TriggerOk, DerivedFits, Parsed, InOrder, RecordPair, PairOf;
    var k := LastOrdinal(m, stop);
    var scheduled := CheckSchedule(m.cases, m.schedule, m.maxConsecutive, m.hash, m.scheduleHash);
    var manifestOk := m.sound && scheduled;
    var records := Parsed(candidates);
    ParsedAll(candidates);
    var verified, seen := CheckRecords(m, records);
    var covered := CheckOrdinals(records, seen, k);
    var ordered := InOrder(records);
    InOrderFacts(records);
    var f := FindDerived(ordered);
    DerivedSome(records, ordered, f);
    var derivedOk := DerivedFits(ordered, f, stop);
    var serial := CheckSerial(ordered);
    var distinctPairs, actualPairs := CheckPairs(records);
    var pairsOk := stop.Some? || forall i | 0 <= i < k :: PairOf(m.schedule[i]) in actualPairs;
    var stopOk := stop.None? || TriggerOk(m, records, stop.value);
    var allParsed := |records| == |candidates|;
    var ok := manifestOk && allParsed && |candidates| == k && verified && covered && derivedOk && serial && distinctPairs && pairsOk && stopOk;
    ChecksOrdered(m, records, k);
    SerialIff(m, ordered, k);
    if manifestOk && AllOk(m, ordered) && Consecutive(ordered, k) {
      PairsFollow(m, records, k);
      CoveredPairs(m, records, k, actualPairs);
    }
    if IdsDistinct(ordered) && Consecutive(ordered, k) {
      ConsecutiveSize(ordered, k);
      if stop.Some? { TriggerIsLast(m, records, ordered, stop.value); }
      if stop.Some? ==> StopNamesLast(m, ordered, stop.value) { DerivedIff(m, ordered, f, stop); }
    }
    if ok && stop.None? { DerivedNone(ordered, f); }
    v := Verdict(ok, stop.Some? || f.Some?, k, |candidates|);
  }

  lemma ParsedAll(candidates: seq<Option<Record>>)
    ensures |Parsed(candidates)| <= |candidates|
    ensures |Parsed(candidates)| == |candidates| <==> forall i | 0 <= i < |candidates| :: candidates[i].Some?
  {
    if candidates != [] {
      var before := candidates[..|candidates| - 1];
      ParsedAll(before);
      assert forall i | 0 <= i < |before| :: before[i] == candidates[i];
    }
  }

  lemma CoveredPairs(m: Manifest, records: seq<Record>, k: nat, actual: set<Pair>)
    requires k <= |m.schedule| && PairsCovered(m.schedule, records, k)
    requires forall p :: p in actual <==> PairRun(records, p)
    ensures forall i | 0 <= i < k :: PairOf(m.schedule[i]) in actual
  {
  }

  lemma ConsecutiveSize(ordered: seq<Record>, k: nat)
    requires Consecutive(ordered, k)
    ensures |ordered| == k
  {
  }

  lemma DerivedNone(ordered: seq<Record>, f: Option<nat>)
    requires FirstDerived(ordered, f) && DerivedFits(ordered, f, None)
    ensures f.None?
  {
  }

  lemma DerivedSome(records: seq<Record>, ordered: seq<Record>, f: Option<nat>)
    requires FirstDerived(ordered, f)
    requires (forall r | r in ordered :: r in records) && (forall r | r in records :: r in ordered)
    ensures f.Some? <==> exists r :: r in records && DerivedStop(r) != None
  {
    if f.Some? { assert ordered[f.value] in records; }
  }

  // ---- Acceptance, written out -------------------------------------------------------------

  lemma {:induction false} SlotFound(schedule: seq<Slot>, i: nat)
    requires i < |schedule| && OrdinalsContiguous(schedule)
    ensures FindSlot(schedule, i + 1) == Some(schedule[i])
  {
    SlotFoundFrom(schedule, 0, i);
  }

  lemma {:induction false} SlotFoundFrom(schedule: seq<Slot>, from: nat, i: nat)
    requires i < |schedule| && forall k | 0 <= k < |schedule| :: schedule[k].ordinal == from + k + 1
    ensures FindSlot(schedule, from + i + 1) == Some(schedule[i])
  {
    if i > 0 {
      forall k | 0 <= k < |schedule[1..]| ensures schedule[1..][k].ordinal == from + 1 + k + 1 { }
      SlotFoundFrom(schedule[1..], from + 1, i - 1);
    }
  }

  /**
   When a recorded run is good: sound, of a case of the manifest, of the case and strategy scheduled at its place, with
   its times in order, its duration right, and recorded no sooner than the observation window after it was completed.
   */
  lemma RecordOkIff(m: Manifest, r: Record, i: nat)
    requires i < |m.schedule| && OrdinalsContiguous(m.schedule) && r.ordinal == i + 1
    ensures RecordOk(m, r) <==>
              && r.sound && r.caseId in m.cases && m.schedule[i].caseId == r.caseId && m.schedule[i].strategy == r.strategy
              && r.startedAt.Some? && r.completedAt.Some? && r.recordedAt.Some?
              && r.completedAt.value >= r.startedAt.value && r.recordedAt.value >= r.completedAt.value
              && r.startedAt.value + r.durationMs == r.completedAt.value
              && 1000 * m.windowSeconds <= 9007199254740991 && r.completedAt.value + 1000 * m.windowSeconds <= r.recordedAt.value
  {
    SlotFound(m.schedule, i);
    hide FindSlot;
  }

  /** What a run calls for by itself: the first of three conditions that it shows. */
  lemma DerivedStopIs(r: Record)
    ensures DerivedStop(r) == Some(CriticalFalseAcceptance) <==> r.falseAcceptance && r.criticalDefect
    ensures DerivedStop(r) == Some(CrossRunContamination) <==> r.contamination && !(r.falseAcceptance && r.criticalDefect)
    ensures DerivedStop(r) == Some(UnreconstructableEvidence) <==>
              !r.reconstructible && !r.contamination && !(r.falseAcceptance && r.criticalDefect)
    ensures DerivedStop(r).None? <==> r.reconstructible && !r.contamination && !(r.falseAcceptance && r.criticalDefect)
  {
  }

  /**
   When a stop event is good, after runs one to `k` of which the last is `run`: before any run it names none and claims
   neither of the conditions that need one; otherwise it names that run, which shows the condition, has its record hash
   among its evidence, and was not observed before the run was completed.
   */
  lemma StopEventOkIff(m: Manifest, stop: StopEvent, run: Option<Record>)
    ensures StopEventOk(m, stop, run) <==>
              && stop.bound && stop.lastOrdinal <= |m.schedule|
              && (stop.lastOrdinal == 0 ==>
                    && stop.condition != CriticalFalseAcceptance && stop.condition != CrossRunContamination
                    && stop.triggeringRunId == None)
              && (stop.lastOrdinal > 0 ==>
                    && run.Some? && RecordOk(m, run.value) && stop.triggeringRunId == Some(run.value.runId)
                    && run.value.ordinal == stop.lastOrdinal && run.value.recordHash in stop.evidence
                    && (stop.observedAt.Some? ==> run.value.completedAt.value <= stop.observedAt.value)
                    && (stop.condition == CriticalFalseAcceptance ==> run.value.falseAcceptance && run.value.criticalDefect)
                    && (stop.condition == CrossRunContamination ==> run.value.contamination)
                    && (stop.condition == UnreconstructableEvidence ==> !run.value.reconstructible))
  {
    hide FindSlot;
  }

  /** The last ordinal asked for: the whole schedule's, or the stop event's as far as the schedule goes. */
  lemma LastOrdinalIs(m: Manifest, stop: Option<StopEvent>)
    ensures stop.None? ==> LastOrdinal(m, stop) == |m.schedule|
    ensures stop.Some? ==>
              && LastOrdinal(m, stop) <= stop.value.lastOrdinal && LastOrdinal(m, stop) <= |m.schedule|
              && (LastOrdinal(m, stop) == stop.value.lastOrdinal || LastOrdinal(m, stop) == |m.schedule|)
  {
  }

  /**
   In an accepted set hard stops are exactly the named ones: no run before the last calls for one; without a stop
   event none does; and a stop event for a hard condition names the condition the last run itself derives.
   */
  lemma HardStopsExact(m: Manifest, records: seq<Record>, stop: Option<StopEvent>, i: nat)
    requires RunSetOk(m, records, stop) && i < |InOrder(records)|
    ensures var run := InOrder(records)[i];
            && (i < |InOrder(records)| - 1 || stop.None? ==> DerivedStop(run).None?)
            && (i == |InOrder(records)| - 1 && stop.Some? && !stop.value.condition.Operational? ==>
                  DerivedStop(run) == Some(stop.value.condition) && stop.value.triggeringRunId == Some(run.runId))
  {
    hide InOrder, RecordOk, ManifestOk;
  }
}
