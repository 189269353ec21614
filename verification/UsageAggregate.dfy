/**
 Aggregating usage records (src/pilot/usage-cost.ts): replays are dropped, conflicts refused, and every
 total is the exact sum over the distinct records, or absent as soon as one of them is incomplete.
 */
module UsageAggregate {
  import opened Prelude
  import opened Sorting
  import opened UsageCost

  // ---- Measures ------------------------------------------------------------------------

  datatype Measure = Measure(value: Option<nat>, complete: nat, total: nat)

  /** Sum of the values that are present. */
  function Sum(values: seq<Option<int>>): int {
    if values == [] then 0
    else Sum(values[..|values| - 1]) + if values[|values| - 1].Some? then values[|values| - 1].value else 0
  }

  function Present(values: seq<Option<int>>): (n: nat)
    ensures n <= |values|
    ensures n == |values| <==> AllPresent(values)
  {
    if values == [] then 0
    else
      assert forall i | 0 <= i < |values| - 1 :: values[..|values| - 1][i] == values[i];
      Present(values[..|values| - 1]) + if values[|values| - 1].Some? then 1 else 0
  }

  predicate AllPresent(values: seq<Option<int>>) { forall i | 0 <= i < |values| :: values[i].Some? }

  predicate AllSafe(values: seq<Option<int>>) { forall i | 0 <= i < |values| :: Safe(values[i]) }

  lemma {:induction false} SumNonNegative(values: seq<Option<int>>)
    requires AllSafe(values)
    ensures Sum(values) >= 0
  {
    if values != [] {
      var before := values[..|values| - 1];
      assert forall i | 0 <= i < |before| :: before[i] == values[i];
      SumNonNegative(before);
      assert Safe(values[|values| - 1]);
    }
  }

  /** The measure of a column, or nothing when a value or the exact total is no safe integer. */
  function MeasureOf(values: seq<Option<int>>): Option<Measure> {
    if !AllSafe(values) || (AllPresent(values) && Sum(values) > MAX_SAFE_INTEGER) then None
    else
      SumNonNegative(values);
      Some(Measure(if AllPresent(values) then Some(Sum(values)) else None, Present(values), |values|))
  }

  /** `aggregateMeasure`. */
  method AggregateMeasure(values: seq<Option<int>>) returns (r: Option<Measure>)
    ensures r == MeasureOf(values)
  {
    var sum: nat := 0;
    var complete: nat := 0;
    var i := 0;
    while i < |values|
      invariant 0 <= i <= |values| && AllSafe(values[..i])
      invariant sum == Sum(values[..i]) && complete == Present(values[..i])
    {
      var value := values[i];
      assert values[..i + 1][..i] == values[..i];
      i := i + 1;
      if value.None? { continue; }
      if value.value < 0 || value.value > MAX_SAFE_INTEGER { return None; }
      sum := sum + value.value;
      complete := complete + 1;
    }
    assert values[..i] == values;
    if complete == |values| && sum > MAX_SAFE_INTEGER { return None; }
    r := Some(Measure(if complete == |values| then Some(sum) else None, complete, |values|));
  }

  // ---- Replays ---------------------------------------------------------------------------

  /** Among the first `n`, records with one usage id are byte-identical. */
  ghost predicate ConsistentTo(events: seq<Usage>, n: nat)
    requires n <= |events|
  {
    forall i, j | 0 <= i < j < n && events[i].usageId == events[j].usageId :: events[i] == events[j]
  }

  ghost predicate Consistent(events: seq<Usage>) { ConsistentTo(events, |events|) }

  predicate SeenBefore(events: seq<Usage>, i: nat)
    requires i < |events|
  {
    exists j | 0 <= j < i :: events[j] == events[i]
  }

  /** Each of the first `n` records where it first occurs. */
  function FirstSeen(events: seq<Usage>, n: nat): seq<Usage>
    requires n <= |events|
  {
    if n == 0 then []
    else if SeenBefore(events, n - 1) then FirstSeen(events, n - 1)
    else FirstSeen(events, n - 1) + [events[n - 1]]
  }

  function Records(events: seq<Usage>): seq<Usage> { FirstSeen(events, |events|) }

  ghost function UsageIds(events: seq<Usage>, n: nat): set<string>
    requires n <= |events|
  {
    set i: nat | i < n :: events[i].usageId
  }

  ghost predicate DistinctUsage(s: seq<Usage>) { forall i, j | 0 <= i < j < |s| :: s[i].usageId != s[j].usageId }

  ghost predicate Occurs(events: seq<Usage>, n: nat, u: Usage)
    requires n <= |events|
  {
    exists i | 0 <= i < n :: events[i] == u
  }

  lemma IdsNext(events: seq<Usage>, n: nat)
    requires n < |events| && ConsistentTo(events, n + 1)
    ensures ConsistentTo(events, n)
    ensures UsageIds(events, n + 1) == UsageIds(events, n) + {events[n].usageId}
    ensures events[n].usageId in UsageIds(events, n) <==> SeenBefore(events, n)
    ensures |UsageIds(events, n + 1)| == |UsageIds(events, n)| + if SeenBefore(events, n) then 0 else 1
  {
    assert UsageIds(events, n + 1) == UsageIds(events, n) + {events[n].usageId};
  }

  lemma OccursNext(events: seq<Usage>, n: nat)
    requires n < |events|
    ensures forall u :: Occurs(events, n + 1, u) <==> Occurs(events, n, u) || u == events[n]
  {
    assert Occurs(events, n + 1, events[n]);
  }

  lemma {:induction false} FirstSeenFacts(events: seq<Usage>, n: nat)
    requires n <= |events| && ConsistentTo(events, n)
    ensures DistinctUsage(FirstSeen(events, n))
    ensures forall u :: u in FirstSeen(events, n) <==> Occurs(events, n, u)
    ensures |FirstSeen(events, n)| == |UsageIds(events, n)| <= n
  {
    hide ConsistentTo, UsageIds, Occurs, SeenBefore;
    if n == 0 {
      NothingOccurs(events);
    } else {
      IdsNext(events, n - 1);
      OccursNext(events, n - 1);
      FirstSeenFacts(events, n - 1);
      IdsMeaning(events, n - 1);
      SeenOccurs(events, n - 1);
    }
  }

  lemma NothingOccurs(events: seq<Usage>)
    ensures UsageIds(events, 0) == {} && forall u :: !Occurs(events, 0, u)
  {
  }

  lemma SeenOccurs(events: seq<Usage>, n: nat)
    requires n < |events|
    ensures SeenBefore(events, n) <==> Occurs(events, n, events[n])
  {
  }

  lemma IdsMeaning(events: seq<Usage>, n: nat)
    requires n <= |events|
    ensures forall u | Occurs(events, n, u) :: u.usageId in UsageIds(events, n)
  {
  }

  /** What the records of a consistent log are: its members, one per usage id. */
  lemma RecordsFacts(events: seq<Usage>)
    requires Consistent(events)
    ensures DistinctUsage(Records(events)) && forall u :: u in Records(events) <==> u in events
    ensures |Records(events)| == |UsageIds(events, |events|)| <= |events|
  {
    FirstSeenFacts(events, |events|);
    forall u ensures Occurs(events, |events|, u) <==> u in events {
    }
  }

  /** `unique` after the first `n` events. */
  ghost predicate Indexed(events: seq<Usage>, n: nat, unique: map<string, Usage>)
    requires n <= |events|
  {
    && (forall i | 0 <= i < n :: events[i].usageId in unique && unique[events[i].usageId] == events[i])
    && (forall id | id in unique :: unique[id].usageId == id && Occurs(events, n, unique[id]))
  }

  /** The loop that drops replays; nothing when two records with one id differ. */
  method Dedupe(events: seq<Usage>) returns (r: Option<(seq<Usage>, nat)>)
    ensures r.Some? <==> Consistent(events)
    ensures r.Some? ==> r.value.0 == Records(events) && r.value.1 + |Records(events)| == |events|
  {
    hide Indexed, ConsistentTo, SeenBefore;
    var unique: map<string, Usage> := map[];
    var order: seq<Usage> := [];
    var replays: nat := 0;
    NothingIndexed(events);
    var i := 0;
    while i < |events|
      invariant 0 <= i <= |events| && Indexed(events, i, unique) && ConsistentTo(events, i)
      invariant order == FirstSeen(events, i) && replays + |order| == i
    {
      var event := events[i];
      IndexDecides(events, i, unique);
      if event.usageId in unique {
        if unique[event.usageId] != event { return None; }
        replays := replays + 1;
      } else {
        IndexNew(events, i, unique);
        unique := unique[event.usageId := event];
        order := order + [event];
      }
      i := i + 1;
    }
    r := Some((order, replays));
  }

  lemma NothingIndexed(events: seq<Usage>)
    ensures Indexed(events, 0, map[]) && ConsistentTo(events, 0)
  {
  }

  lemma IndexNew(events: seq<Usage>, i: nat, unique: map<string, Usage>)
    requires i < |events| && Indexed(events, i, unique) && ConsistentTo(events, i) && events[i].usageId !in unique
    ensures Indexed(events, i + 1, unique[events[i].usageId := events[i]]) && ConsistentTo(events, i + 1)
    ensures !SeenBefore(events, i)
  {
    OccursNext(events, i);
    hide Occurs;
  }

  lemma IndexDecides(events: seq<Usage>, i: nat, unique: map<string, Usage>)
    requires i < |events| && Indexed(events, i, unique) && ConsistentTo(events, i)
    ensures var e := events[i];
            e.usageId in unique ==>
              if unique[e.usageId] == e then
                SeenBefore(events, i) && Indexed(events, i + 1, unique) && ConsistentTo(events, i + 1)
              else !Consistent(events)
  {
    var e := events[i];
    OccursNext(events, i);
    if e.usageId in unique {
      var j :| 0 <= j < i && events[j] == unique[e.usageId];
      assert events[j].usageId == events[i].usageId;
      hide Occurs;
    }
  }

  // ---- `aggregateUsage` ------------------------------------------------------------------

  datatype Binding = Binding(bindingRef: string, strong: bool)

  predicate DistinctBindings(registry: seq<Binding>) {
    forall i, j | 0 <= i < j < |registry| :: registry[i].bindingRef != registry[j].bindingRef
  }

  predicate Registered(registry: seq<Binding>, ref: string) { exists b | b in registry :: b.bindingRef == ref }

  predicate RegisteredStrong(registry: seq<Binding>, ref: string) { exists b | b in registry :: b.bindingRef == ref && b.strong }

  function Unregistered(registry: seq<Binding>, s: Snapshot): set<Reason> {
    set t | t in s.tariffs && !Registered(registry, t.bindingRef) :: TariffUnregistered(t.bindingRef)
  }

  /** A record as aggregated: costs are withheld for unknown bindings and unregistered tariffs. */
  datatype Line = Line(usage: Usage, costObserved: Option<int>, costEstimated: Option<int>, reasons: set<Reason>)

  function LineOf(registry: seq<Binding>, s: Snapshot, u: Usage): Option<Line> {
    match PriceOf(u, s)
    case None => None
    case Some(p) =>
      var unknown := !Registered(registry, u.bindingRef);
      var withheld := unknown || Unregistered(registry, s) != {};
      var observed := if withheld then None else p.costObserved;
      var estimated := if withheld then None else p.costEstimated;
      Some(Line(u, observed, estimated,
                p.reasons + Unregistered(registry, s) + (if unknown then {UnknownBinding} else {})
                + (if observed.None? then {ObservedIncomplete} else {}) + (if estimated.None? then {EstimatedIncomplete} else {})))
  }

  function Settled(registry: seq<Binding>, s: Snapshot, u: Usage): (l: Line)
    ensures l.usage == u
  {
    var l := LineOf(registry, s, u);
    if l.Some? then l.value else Line(u, None, None, {})
  }

  predicate LineLe(a: Line, b: Line) { StringLe(a.usage.usageId, b.usage.usageId) }

  function LinesOf(registry: seq<Binding>, s: Snapshot, records: seq<Usage>): seq<Line> {
    Sort(Map((u: Usage) => Settled(registry, s, u), records), LineLe)
  }

  function Column(lines: seq<Line>, value: Line -> Option<int>): seq<Option<int>> { Map(value, lines) }

  function Strong(registry: seq<Binding>, lines: seq<Line>): seq<Line> {
    if lines == [] then []
    else Strong(registry, lines[..|lines| - 1]) +
         if RegisteredStrong(registry, lines[|lines| - 1].usage.bindingRef) then [lines[|lines| - 1]] else []
  }

  /** A record's tokens of one kind count only when they are attributed. */
  function TokensOf(l: Line, kind: Kind): PerDimension {
    if kind.ObservedKind? then l.usage.observed
    else if l.usage.estimatorId.None? || l.usage.estimatorVersion.None? then PerDimension(None, None, None, None)
    else l.usage.estimated
  }

  function AllTokens(p: PerDimension): Option<int> {
    if p.input.None? || p.output.None? || p.cachedInput.None? || p.reasoning.None? then None
    else Some(p.input.value + p.output.value + p.cachedInput.value + p.reasoning.value)
  }

  datatype StrongTokens = StrongTokens(input: Measure, output: Measure, cachedInput: Measure, reasoning: Measure, total: Measure)

  /** `strongTokenAggregate`; a record's own total must be a safe integer too. */
  function StrongTokensOf(lines: seq<Line>, kind: Kind): Option<StrongTokens> {
    var totals := Column(lines, (l: Line) => AllTokens(TokensOf(l, kind)));
    var input := MeasureOf(Column(lines, (l: Line) => TokensOf(l, kind).input));
    var output := MeasureOf(Column(lines, (l: Line) => TokensOf(l, kind).output));
    var cachedInput := MeasureOf(Column(lines, (l: Line) => TokensOf(l, kind).cachedInput));
    var reasoning := MeasureOf(Column(lines, (l: Line) => TokensOf(l, kind).reasoning));
    var total := MeasureOf(totals);
    if input.None? || output.None? || cachedInput.None? || reasoning.None? || total.None? then None
    else Some(StrongTokens(input.value, output.value, cachedInput.value, reasoning.value, total.value))
  }

  /** A record that is not fully priced, with the reasons. */
  datatype Noted = Noted(usageId: string, reasons: set<Reason>)

  predicate NotedLe(a: Noted, b: Noted) { StringLe(a.usageId, b.usageId) }

  datatype Aggregate = Aggregate(operations: nat, replays: nat, lines: seq<Line>, unknown: seq<string>, incomplete: seq<Noted>,
                                 costObserved: Measure, costEstimated: Measure,
                                 strongObserved: StrongTokens, strongEstimated: StrongTokens)

  function IsUnknown(registry: seq<Binding>): Line -> bool { (l: Line) => !Registered(registry, l.usage.bindingRef) }

  predicate IsIncomplete(l: Line) { l.reasons != {} }
  function IdOf(l: Line): string { l.usage.usageId }
  function NoteOf(l: Line): Noted { Noted(l.usage.usageId, l.reasons) }

  function CostObservedOf(l: Line): Option<int> { l.costObserved }
  function CostEstimatedOf(l: Line): Option<int> { l.costEstimated }

  /** The aggregate of the sorted lines, or nothing when a total leaves the safe integers. */
  function Assemble(registry: seq<Binding>, lines: seq<Line>, replays: nat): Option<Aggregate> {
    var observed := MeasureOf(Column(lines, CostObservedOf));
    var estimated := MeasureOf(Column(lines, CostEstimatedOf));
    var strongObserved := StrongTokensOf(Strong(registry, lines), ObservedKind);
    var strongEstimated := StrongTokensOf(Strong(registry, lines), EstimatedKind);
    if observed.None? || estimated.None? || strongObserved.None? || strongEstimated.None? then None
    else Some(Aggregate(|lines|, replays, lines, Pick(IsUnknown(registry), IdOf, lines), Pick(IsIncomplete, NoteOf, lines), observed.value,
                        estimated.value, strongObserved.value, strongEstimated.value))
  }

  ghost predicate AllPriced(registry: seq<Binding>, s: Snapshot, events: seq<Usage>) {
    forall u | u in events :: LineOf(registry, s, u).Some?
  }

  /** The aggregate of a usage log, or nothing when aggregation throws. */
  ghost function AggregateOf(registry: seq<Binding>, s: Snapshot, events: seq<Usage>): Option<Aggregate> {
    if !Consistent(events) || !DistinctBindings(registry) || !AllPriced(registry, s, events) then None
    else
      FirstSeenFacts(events, |events|);
      Assemble(registry, LinesOf(registry, s, Records(events)), |events| - |Records(events)|)
  }

  method CheckBindings(registry: seq<Binding>) returns (ok: bool)
    ensures ok <==> DistinctBindings(registry)
  {
    var seen: set<string> := {};
    var i := 0;
    while i < |registry|
      invariant 0 <= i <= |registry|
      invariant forall j, k | 0 <= j < k < i :: registry[j].bindingRef != registry[k].bindingRef
      invariant forall b :: b in seen <==> exists j | 0 <= j < i :: registry[j].bindingRef == b
    {
      if registry[i].bindingRef in seen { return false; }
      seen := seen + {registry[i].bindingRef};
      i := i + 1;
    }
    return true;
  }

  /** The pricing pass over the distinct records. */
  method PriceAll(registry: seq<Binding>, s: Snapshot, records: seq<Usage>)
    returns (r: Option<seq<Line>>, unknown: seq<string>, incomplete: seq<Noted>)
    ensures r.Some? <==> forall i | 0 <= i < |records| :: LineOf(registry, s, records[i]).Some?
    ensures r.Some? ==> r.value == Map((u: Usage) => Settled(registry, s, u), records)
    ensures r.Some? ==> unknown == Pick(IsUnknown(registry), IdOf, r.value) && incomplete == Pick(IsIncomplete, NoteOf, r.value)
  {
    hide PriceOf, Registered, Unregistered, Pick;
    var unregistered := Unregistered(registry, s);
    var lines: seq<Line> := [];
    unknown, incomplete := [], [];
    PickNone(IsUnknown(registry), IdOf);
    PickNone(IsIncomplete, NoteOf);
    var i := 0;
    while i < |records|
      invariant 0 <= i == |lines| <= |records|
      invariant forall j | 0 <= j < i :: LineOf(registry, s, records[j]) == Some(lines[j])
      invariant unknown == Pick(IsUnknown(registry), IdOf, lines) && incomplete == Pick(IsIncomplete, NoteOf, lines)
    {
      var line, known := PriceOne(registry, s, unregistered, records[i]);
      if line.None? { return None, [], []; }
      PickAppend(IsUnknown(registry), IdOf, lines, line.value);
      PickAppend(IsIncomplete, NoteOf, lines, line.value);
      if !known { unknown := unknown + [records[i].usageId]; }
      if line.value.reasons != {} { incomplete := incomplete + [NoteOf(line.value)]; }
      lines := lines + [line.value];
      i := i + 1;
    }
    assert lines == Map((u: Usage) => Settled(registry, s, u), records);
    r := Some(lines);
  }

  /** One record's pricing, withheld when a binding is not registered. */
  method PriceOne(registry: seq<Binding>, s: Snapshot, unregistered: set<Reason>, u: Usage) returns (r: Option<Line>, known: bool)
    requires unregistered == Unregistered(registry, s)
    ensures r == LineOf(registry, s, u) && (r.Some? ==> known == Registered(registry, u.bindingRef))
  {
    hide PriceOf, Registered, Unregistered;
    known := Registered(registry, u.bindingRef);
    var priced := PriceUsage(u, s);
    if priced.None? { return None, known; }
    var observed, estimated := priced.value.costObserved, priced.value.costEstimated;
    var reasons := priced.value.reasons + unregistered;
    if !known { reasons := reasons + {UnknownBinding}; }
    if !known || unregistered != {} { observed, estimated := None, None; }
    if observed.None? { reasons := reasons + {ObservedIncomplete}; }
    if estimated.None? { reasons := reasons + {EstimatedIncomplete}; }
    assert reasons == priced.value.reasons + unregistered + (if known then {} else {UnknownBinding})
                      + (if observed.None? then {ObservedIncomplete} else {}) + (if estimated.None? then {EstimatedIncomplete} else {});
    r := Some(Line(u, observed, estimated, reasons));
  }

  lemma ListsSort(registry: seq<Binding>, lines: seq<Line>)
    ensures Sort(Pick(IsUnknown(registry), IdOf, lines), StringLe) == Pick(IsUnknown(registry), IdOf, Sort(lines, LineLe))
    ensures Sort(Pick(IsIncomplete, NoteOf, lines), NotedLe) == Pick(IsIncomplete, NoteOf, Sort(lines, LineLe))
  {
    hide Sort, Pick, StringLe;
    StringOrder();
    PickSorts(IsUnknown(registry), IdOf, lines, LineLe, StringLe);
    PickSorts(IsIncomplete, NoteOf, lines, LineLe, NotedLe);
  }

  /** `aggregateUsage`. */
  method AggregateUsage(registry: seq<Binding>, s: Snapshot, events: seq<Usage>) returns (r: Option<Aggregate>)
    ensures r == AggregateOf(registry, s, events)
  {
    hide Consistent, DistinctBindings, LineOf, Sort, MeasureOf, StrongTokensOf, Strong, FirstSeen, Pick;
    var deduped := Dedupe(events);
    if deduped.None? { return None; }
    var records, replays := deduped.value.0, deduped.value.1;
    RecordsFacts(events);
    hide DistinctUsage, UsageIds;
    var registered := CheckBindings(registry);
    if !registered { return None; }
    var priced, unknown, incomplete := PriceAll(registry, s, records);
    AllPricedIff(registry, s, events, records);
    if priced.None? { return None; }
    var lines := Sort(priced.value, LineLe);
    assert lines == LinesOf(registry, s, records);
    ListsSort(registry, priced.value);
    var observed := AggregateMeasure(Column(lines, CostObservedOf));
    var estimated := AggregateMeasure(Column(lines, CostEstimatedOf));
    var strong := Strong(registry, lines);
    var strongObserved := StrongTokensOf(strong, ObservedKind);
    var strongEstimated := StrongTokensOf(strong, EstimatedKind);
    if observed.None? || estimated.None? || strongObserved.None? || strongEstimated.None? { return None; }
    r := Some(Aggregate(|lines|, replays, lines, Sort(unknown, StringLe), Sort(incomplete, NotedLe), observed.value, estimated.value, strongObserved.value, strongEstimated.value));
  }

  lemma AllPricedIff(registry: seq<Binding>, s: Snapshot, events: seq<Usage>, records: seq<Usage>)
    requires forall u :: u in records <==> u in events
    ensures AllPriced(registry, s, events) <==> forall i | 0 <= i < |records| :: LineOf(registry, s, records[i]).Some?
  {
    hide LineOf;
    forall u | u in events ensures exists i | 0 <= i < |records| :: records[i] == u {
      assert u in records;
    }
  }

  // ---- What aggregation promises ---------------------------------------------------------

  lemma {:induction false} SumJoins(a: seq<Option<int>>, b: seq<Option<int>>)
    ensures Sum(a + b) == Sum(a) + Sum(b)
  {
    if b == [] {
      assert a + b == a;
    } else {
      SumJoins(a, b[..|b| - 1]);
      assert (a + b)[..|a + b| - 1] == a + b[..|b| - 1];
    }
  }

  lemma SumWithout(a: seq<Option<int>>, i: nat)
    requires i < |a|
    ensures Sum(a) == Sum(RemoveAt(a, i)) + if a[i].Some? then a[i].value else 0
  {
    hide *;
    var before, one, after := SplitAt(a, i);
    SumJoins(before, after);
    SumJoins(before, one);
    SumJoins(before + one, after);
    SumOne(a[i]);
  }

  lemma SumOne(v: Option<int>)
    ensures Sum([v]) == if v.Some? then v.value else 0
  {
    assert [v][..0] == [];
  }

  /** A sum does not depend on the order of its values. */
  lemma {:induction false} SumPermutes(a: seq<Option<int>>, b: seq<Option<int>>)
    requires multiset(a) == multiset(b)
    ensures Sum(a) == Sum(b)
    decreases |a|
  {
    hide RemoveAt, Sum;
    SameMembers(a, b);
    if a != [] {
      assert a[0] in b;
      var i :| 0 <= i < |b| && b[i] == a[0];
      RemoveFrom(a, b, 0, i);
      SumPermutes(RemoveAt(a, 0), RemoveAt(b, i));
      SumWithout(a, 0);
      SumWithout(b, i);
    } else {
      assert b == [];
    }
  }

  lemma LinesSeparated(registry: seq<Binding>, s: Snapshot, records: seq<Usage>)
    requires DistinctUsage(records)
    ensures var lines := Map((u: Usage) => Settled(registry, s, u), records);
            TotalPreorder(LineLe) && Separates(LineLe, lines)
  {
    StringOrder();
    hide Settled;
    var lines := Map((u: Usage) => Settled(registry, s, u), records);
    forall x, y | x in lines && y in lines && LineLe(x, y) && LineLe(y, x) ensures x == y {
      var i :| 0 <= i < |lines| && lines[i] == x;
      var j :| 0 <= j < |lines| && lines[j] == y;
      assert records[i].usageId == records[j].usageId;
    }
  }

  /** Consistent logs with the same records aggregate to the same lines. */
  lemma SameLines(registry: seq<Binding>, s: Snapshot, a: seq<Usage>, b: seq<Usage>)
    requires Consistent(a) && Consistent(b) && forall u :: u in a <==> u in b
    ensures LinesOf(registry, s, Records(a)) == LinesOf(registry, s, Records(b)) && |Records(a)| == |Records(b)|
  {
    hide Settled;
    RecordsFacts(a);
    RecordsFacts(b);
    assert Distinct(Records(a)) && Distinct(Records(b));
    DistinctPermutation(Records(a), Records(b));
    SameMembers(Records(a), Records(b));
    var f := (u: Usage) => Settled(registry, s, u);
    MapPermutes(f, Records(a), Records(b));
    LinesSeparated(registry, s, Records(a));
    SortCanonical(Map(f, Records(a)), Map(f, Records(b)), LineLe);
  }

  lemma ConsistentMembers(a: seq<Usage>, b: seq<Usage>)
    requires Consistent(a) && forall u | u in b :: u in a
    ensures Consistent(b)
  {
    forall i, j | 0 <= i < j < |b| && b[i].usageId == b[j].usageId ensures b[i] == b[j] {
      assert b[i] in a && b[j] in a;
      var k :| 0 <= k < |a| && a[k] == b[i];
      var l :| 0 <= l < |a| && a[l] == b[j];
    }
  }

  /** The order of the events decides nothing. */
  lemma OrderIndependent(registry: seq<Binding>, s: Snapshot, a: seq<Usage>, b: seq<Usage>)
    requires multiset(a) == multiset(b)
    ensures AggregateOf(registry, s, a) == AggregateOf(registry, s, b)
  {
    hide Assemble, LinesOf, LineOf, Consistent;
    SameMembers(a, b);
    if Consistent(a) || Consistent(b) {
      if Consistent(a) { ConsistentMembers(a, b); } else { ConsistentMembers(b, a); }
      SameLines(registry, s, a, b);
    }
  }

  /** A byte-identical replay adds one to the replays and changes nothing else. */
  lemma ReplayIgnored(registry: seq<Binding>, s: Snapshot, events: seq<Usage>, u: Usage)
    requires u in events
    ensures var a, b := AggregateOf(registry, s, events), AggregateOf(registry, s, events + [u]);
            if a.None? then b.None? else b == Some(a.value.(replays := a.value.replays + 1))
  {
    hide LinesOf, LineOf, Consistent, MeasureOf, StrongTokensOf;
    assert forall v :: v in events + [u] <==> v in events;
    if Consistent(events) || Consistent(events + [u]) {
      if Consistent(events) { ConsistentMembers(events, events + [u]); } else { ConsistentMembers(events + [u], events); }
      SameLines(registry, s, events, events + [u]);
      RecordsFacts(events);
    }
  }

  ghost predicate LinesAre(registry: seq<Binding>, s: Snapshot, events: seq<Usage>, lines: seq<Line>) {
    && (forall u | u in events :: Settled(registry, s, u) in lines)
    && (forall l | l in lines :: l.usage in events && l == Settled(registry, s, l.usage))
  }

  lemma AggregateLines(registry: seq<Binding>, s: Snapshot, events: seq<Usage>)
    requires AggregateOf(registry, s, events).Some?
    ensures var a := AggregateOf(registry, s, events).value;
            && LinesAre(registry, s, events, a.lines) && AllPriced(registry, s, events)
            && a.unknown == Pick(IsUnknown(registry), IdOf, a.lines) && a.incomplete == Pick(IsIncomplete, NoteOf, a.lines)
  {
    hide Settled, StrongTokensOf, Strong, Consistent, LineOf, Pick, MeasureOf;
    RecordsFacts(events);
    hide DistinctUsage, UsageIds, FirstSeen;
    var lines := Map((u: Usage) => Settled(registry, s, u), Records(events));
    SortPermutes(lines, LineLe);
    hide Sort;
    MapMembers(registry, s, Records(events), Sort(lines, LineLe));
  }

  lemma UnknownExact(registry: seq<Binding>, s: Snapshot, events: seq<Usage>, lines: seq<Line>, id: string)
    requires LinesAre(registry, s, events, lines)
    ensures id in Pick(IsUnknown(registry), IdOf, lines) <==>
              exists u :: u in events && u.usageId == id && !Registered(registry, u.bindingRef)
  {
    hide LineOf, Registered, Pick;
    PickFrom(IsUnknown(registry), IdOf, lines, id);
    if u :| u in events && u.usageId == id && !Registered(registry, u.bindingRef) {
      assert IsUnknown(registry)(Settled(registry, s, u)) && IdOf(Settled(registry, s, u)) == id;
    }
  }

  lemma IncompleteExact(registry: seq<Binding>, s: Snapshot, events: seq<Usage>, lines: seq<Line>, n: Noted)
    requires LinesAre(registry, s, events, lines)
    ensures n in Pick(IsIncomplete, NoteOf, lines) <==>
              exists u :: u in events && n == NoteOf(Settled(registry, s, u)) && n.reasons != {}
  {
    hide Settled, Pick;
    PickFrom(IsIncomplete, NoteOf, lines, n);
  }

  lemma NoneIncomplete(registry: seq<Binding>, s: Snapshot, events: seq<Usage>, lines: seq<Line>)
    requires LinesAre(registry, s, events, lines) && AllPriced(registry, s, events) && Pick(IsIncomplete, NoteOf, lines) == []
    ensures forall u | u in events ::
              Settled(registry, s, u).costObserved.Some? && Settled(registry, s, u).costEstimated.Some?
  {
    hide PriceOf, Pick;
    forall u | u in events
      ensures Settled(registry, s, u).costObserved.Some? && Settled(registry, s, u).costEstimated.Some?
    {
      IncompleteExact(registry, s, events, lines, NoteOf(Settled(registry, s, u)));
      assert Settled(registry, s, u).reasons == {};
    }
  }

  /** With nothing incomplete both totals are there. */
  lemma NoneIncompleteTotals(registry: seq<Binding>, s: Snapshot, events: seq<Usage>)
    requires AggregateOf(registry, s, events).Some? && AggregateOf(registry, s, events).value.incomplete == []
    ensures var a := AggregateOf(registry, s, events).value; a.costObserved.value.Some? && a.costEstimated.value.Some?
  {
    hide *;
    AggregateLines(registry, s, events);
    NoneIncomplete(registry, s, events, AggregateOf(registry, s, events).value.lines);
    TotalsExact(registry, s, events);
  }

  /**
   The lists name exactly the usage ids whose binding is not registered, and exactly the records that are not fully
   priced, with their reasons.
   */
  lemma ListsExact(registry: seq<Binding>, s: Snapshot, events: seq<Usage>)
    requires AggregateOf(registry, s, events).Some?
    ensures var a := AggregateOf(registry, s, events).value;
            && (forall id :: id in a.unknown <==> exists u :: u in events && u.usageId == id && !Registered(registry, u.bindingRef))
            && (forall n :: n in a.incomplete <==>
                  exists u :: u in events && n == NoteOf(Settled(registry, s, u)) && n.reasons != {})
  {
    hide *;
    AggregateLines(registry, s, events);
    var lines := AggregateOf(registry, s, events).value.lines;
    forall id { UnknownExact(registry, s, events, lines, id); }
    forall n { IncompleteExact(registry, s, events, lines, n); }
  }

  /** Two different records under one usage id make aggregation fail, wherever they stand. */
  lemma ConflictFails(registry: seq<Binding>, s: Snapshot, events: seq<Usage>, u: Usage, v: Usage)
    requires u in events && v in events && u.usageId == v.usageId && u != v
    ensures AggregateOf(registry, s, events).None?
  {
    var i :| 0 <= i < |events| && events[i] == u;
    var j :| 0 <= j < |events| && events[j] == v;
    assert !Consistent(events) by { assert i < j || j < i; }
  }

  /**
   One line per usage id, and the rest counted as replays; the observed total is present exactly when every
   record has an observed cost, and then is the exact sum over the distinct records. So for the estimate.
   */
  lemma TotalsExact(registry: seq<Binding>, s: Snapshot, events: seq<Usage>)
    requires AggregateOf(registry, s, events).Some?
    ensures var a := AggregateOf(registry, s, events).value;
            var lines := Map((u: Usage) => Settled(registry, s, u), Records(events));
            && a.operations == |UsageIds(events, |events|)| && a.replays == |events| - a.operations
            && (a.costObserved.value.Some? <==> forall u | u in events :: Settled(registry, s, u).costObserved.Some?)
            && (a.costObserved.value.Some? ==> a.costObserved.value.value == Sum(Column(lines, CostObservedOf)))
            && (a.costEstimated.value.Some? <==> forall u | u in events :: Settled(registry, s, u).costEstimated.Some?)
            && (a.costEstimated.value.Some? ==> a.costEstimated.value.value == Sum(Column(lines, CostEstimatedOf)))
  {
    hide Settled, StrongTokensOf, Strong, Consistent, LineOf;
    RecordsFacts(events);
    hide DistinctUsage, UsageIds, FirstSeen;
    var records := Records(events);
    var lines := Map((u: Usage) => Settled(registry, s, u), records);
    var sorted := Sort(lines, LineLe);
    SortPermutes(lines, LineLe);
    hide Sort;
    MapPermutes(CostObservedOf, sorted, lines);
    MapPermutes(CostEstimatedOf, sorted, lines);
    SumPermutes(Column(sorted, CostObservedOf), Column(lines, CostObservedOf));
    SumPermutes(Column(sorted, CostEstimatedOf), Column(lines, CostEstimatedOf));
    MapMembers(registry, s, records, sorted);
    ColumnPresent(sorted, CostObservedOf);
    ColumnPresent(sorted, CostEstimatedOf);
    hide Sum, Present;
  }

  lemma MapMembers(registry: seq<Binding>, s: Snapshot, records: seq<Usage>, sorted: seq<Line>)
    requires var lines := Map((u: Usage) => Settled(registry, s, u), records);
             (forall l | l in sorted :: l in lines) && (forall l | l in lines :: l in sorted)
    ensures forall u | u in records :: Settled(registry, s, u) in sorted
    ensures forall l | l in sorted :: l.usage in records && l == Settled(registry, s, l.usage)
  {
    hide Settled;
    var lines := Map((u: Usage) => Settled(registry, s, u), records);
    forall u | u in records ensures Settled(registry, s, u) in sorted {
      var i :| 0 <= i < |records| && records[i] == u;
      assert lines[i] in lines;
    }
    forall l | l in sorted ensures l.usage in records && l == Settled(registry, s, l.usage) {
      var i :| 0 <= i < |lines| && lines[i] == l;
      assert l == Settled(registry, s, records[i]);
    }
  }

  lemma ColumnPresent(lines: seq<Line>, value: Line -> Option<int>)
    ensures AllPresent(Column(lines, value)) <==> forall l | l in lines :: value(l).Some?
  {
    var c := Column(lines, value);
    if AllPresent(c) {
      forall l | l in lines ensures value(l).Some? {
        var i :| 0 <= i < |lines| && lines[i] == l;
        assert c[i].Some?;
      }
    }
  }

  // ---- Strong tokens -----------------------------------------------------------------------

  lemma {:induction false} TotalsAdd(lines: seq<Line>, kind: Kind)
    requires AllPresent(Column(lines, (l: Line) => AllTokens(TokensOf(l, kind))))
    ensures AllPresent(Column(lines, (l: Line) => TokensOf(l, kind).input))
            && AllPresent(Column(lines, (l: Line) => TokensOf(l, kind).output))
            && AllPresent(Column(lines, (l: Line) => TokensOf(l, kind).cachedInput))
            && AllPresent(Column(lines, (l: Line) => TokensOf(l, kind).reasoning))
    ensures Sum(Column(lines, (l: Line) => AllTokens(TokensOf(l, kind)))) ==
            Sum(Column(lines, (l: Line) => TokensOf(l, kind).input)) + Sum(Column(lines, (l: Line) => TokensOf(l, kind).output))
            + Sum(Column(lines, (l: Line) => TokensOf(l, kind).cachedInput)) + Sum(Column(lines, (l: Line) => TokensOf(l, kind).reasoning))
  {
    var total := (l: Line) => AllTokens(TokensOf(l, kind));
    forall i | 0 <= i < |lines| ensures AllTokens(TokensOf(lines[i], kind)).Some? {
      assert Column(lines, total)[i].Some?;
    }
    hide TokensOf;
    SumOfFour(lines, total, (l: Line) => TokensOf(l, kind).input, (l: Line) => TokensOf(l, kind).output,
              (l: Line) => TokensOf(l, kind).cachedInput, (l: Line) => TokensOf(l, kind).reasoning);
  }

  lemma {:induction false} SumOfFour(lines: seq<Line>, total: Line -> Option<int>, a: Line -> Option<int>, b: Line -> Option<int>,
                                     c: Line -> Option<int>, d: Line -> Option<int>)
    requires forall l | l in lines ::
               && total(l).Some? && a(l).Some? && b(l).Some? && c(l).Some? && d(l).Some?
               && total(l).value == a(l).value + b(l).value + c(l).value + d(l).value
    ensures Sum(Column(lines, total)) ==
            Sum(Column(lines, a)) + Sum(Column(lines, b)) + Sum(Column(lines, c)) + Sum(Column(lines, d))
  {
    if lines != [] {
      SumOfFour(lines[..|lines| - 1], total, a, b, c, d);
      SumOfLast(lines, total);
      SumOfLast(lines, a);
      SumOfLast(lines, b);
      SumOfLast(lines, c);
      SumOfLast(lines, d);
      assert lines[|lines| - 1] in lines;
    }
  }

  lemma SumOfLast(lines: seq<Line>, value: Line -> Option<int>)
    requires lines != []
    ensures var last := value(lines[|lines| - 1]);
            Sum(Column(lines, value)) == Sum(Column(lines[..|lines| - 1], value)) + if last.Some? then last.value else 0
  {
    assert Column(lines, value)[..|lines| - 1] == Column(lines[..|lines| - 1], value);
  }

  /**
   A strong total is reported only when every strong record counts all four dimensions (of an identified
   estimator, for estimates), and then is the sum of the four reported dimension totals.
   */
  lemma StrongTotalsAdd(lines: seq<Line>, kind: Kind)
    requires StrongTokensOf(lines, kind).Some? && StrongTokensOf(lines, kind).value.total.value.Some?
    ensures var s := StrongTokensOf(lines, kind).value;
            && s.input.value.Some? && s.output.value.Some? && s.cachedInput.value.Some? && s.reasoning.value.Some?
            && s.total.value.value == s.input.value.value + s.output.value.value + s.cachedInput.value.value + s.reasoning.value.value
    ensures kind.EstimatedKind? ==>
              forall l | l in lines :: l.usage.estimatorId.Some? && l.usage.estimatorVersion.Some?
  {
    TotalsAdd(lines, kind);
    ColumnPresent(lines, (l: Line) => AllTokens(TokensOf(l, kind)));
    hide Sum, AllSafe, Present;
  }
}
