/**
 The dogfood schedule (src/pilot/dogfood-manifest.ts): how cases and strategies are interleaved, and the
 checks a frozen schedule must pass.
 */
module DogfoodSchedule {
  import opened Prelude
  import opened Sorting

  datatype Strategy = Orchestrated | FrontierExecution

  datatype Slot = Slot(ordinal: int, caseId: string, strategy: Strategy)

  type Pair = (string, Strategy)

  function PairOf(s: Slot): Pair { (s.caseId, s.strategy) }

  ghost predicate DistinctCases(cases: seq<string>) { Distinct(cases) }

  // ---- What a schedule must be -----------------------------------------------------------

  predicate OrdinalsContiguous(schedule: seq<Slot>) { forall i | 0 <= i < |schedule| :: schedule[i].ordinal == i + 1 }

  predicate CasesKnown(cases: seq<string>, schedule: seq<Slot>) { forall i | 0 <= i < |schedule| :: schedule[i].caseId in cases }

  ghost predicate PairsOnce(schedule: seq<Slot>) {
    forall i, j | 0 <= i < j < |schedule| :: PairOf(schedule[i]) != PairOf(schedule[j])
  }

  predicate PairPlanned(schedule: seq<Slot>, p: Pair) { exists i | 0 <= i < |schedule| :: PairOf(schedule[i]) == p }

  ghost predicate EveryPair(cases: seq<string>, schedule: seq<Slot>) {
    forall c, st | c in cases :: PairPlanned(schedule, (c, st))
  }

  /** Positions `i` to `j` all have one strategy. */
  predicate SameStrategy(schedule: seq<Slot>, i: nat, j: nat)
    requires i <= j <= |schedule|
  {
    forall k | i <= k < j :: schedule[k].strategy == schedule[i].strategy
  }

  /** No `max + 1` slots in a row have one strategy. */
  ghost predicate Interleaved(schedule: seq<Slot>, max: nat) {
    forall i: nat, j: nat | i <= j <= |schedule| && j - i > max :: !SameStrategy(schedule, i, j)
  }

  /** Each case with each strategy exactly once, numbered from one, interleaved. */
  ghost predicate Passes(cases: seq<string>, schedule: seq<Slot>, max: nat) {
    && OrdinalsContiguous(schedule) && CasesKnown(cases, schedule)
    && PairsOnce(schedule) && EveryPair(cases, schedule) && Interleaved(schedule, max)
  }

  // ---- The checks ------------------------------------------------------------------------

  /** How many slots at the end of the first `n` have one strategy. */
  function RunLength(schedule: seq<Slot>, n: nat): nat
    requires n <= |schedule|
  {
    if n == 0 then 0
    else if n > 1 && schedule[n - 2].strategy == schedule[n - 1].strategy then RunLength(schedule, n - 1) + 1
    else 1
  }

  lemma {:induction false} RunLengthMeaning(schedule: seq<Slot>, n: nat, i: nat)
    requires i < n <= |schedule|
    ensures RunLength(schedule, n) >= n - i <==> SameStrategy(schedule, i, n)
  {
    if i < n - 1 {
      RunLengthMeaning(schedule, n - 1, i);
      RunLengthBound(schedule, n - 1);
      if SameStrategy(schedule, i, n) {
        assert schedule[n - 2].strategy == schedule[i].strategy;
      } else if SameStrategy(schedule, i, n - 1) {
        assert schedule[n - 2].strategy == schedule[i].strategy;
      }
    }
  }

  lemma {:induction false} RunLengthBound(schedule: seq<Slot>, n: nat)
    requires n <= |schedule|
    ensures n > 0 ==> 1 <= RunLength(schedule, n) <= n
  {
    if n > 1 { RunLengthBound(schedule, n - 1); }
  }

  ghost predicate RunsBounded(schedule: seq<Slot>, n: nat, max: nat)
    requires n <= |schedule|
  {
    forall k: nat | 0 < k <= n :: RunLength(schedule, k) <= max
  }

  lemma InterleavedIff(schedule: seq<Slot>, max: nat)
    ensures RunsBounded(schedule, |schedule|, max) <==> Interleaved(schedule, max)
  {
    if RunsBounded(schedule, |schedule|, max) {
      forall i: nat, j: nat | i <= j <= |schedule| && j - i > max ensures !SameStrategy(schedule, i, j) {
        RunLengthMeaning(schedule, j, i);
      }
    }
    if Interleaved(schedule, max) {
      forall k: nat | 0 < k <= |schedule| ensures RunLength(schedule, k) <= max {
        RunLengthBound(schedule, k);
        if k > max { RunLengthMeaning(schedule, k, k - max - 1); }
      }
    }
  }

  /** The interleaving loop. */
  method CheckInterleaved(schedule: seq<Slot>, max: nat) returns (ok: bool)
    ensures ok <==> Interleaved(schedule, max)
  {
    ok := true;
    var previous: Option<Strategy> := None;
    var consecutive: nat := 0;
    var i := 0;
    while i < |schedule|
      invariant 0 <= i <= |schedule|
      invariant previous == if i == 0 then None else Some(schedule[i - 1].strategy)
      invariant consecutive == RunLength(schedule, i)
      invariant ok <==> RunsBounded(schedule, i, max)
    {
      var entry := schedule[i];
      if Some(entry.strategy) == previous {
        consecutive := consecutive + 1;
      } else {
        previous, consecutive := Some(entry.strategy), 1;
      }
      if consecutive > max { ok := false; }
      i := i + 1;
    }
    InterleavedIff(schedule, max);
  }

  function ExpectedPairs(cases: seq<string>): set<Pair> {
    (set c | c in cases :: (c, Orchestrated)) + (set c | c in cases :: (c, FrontierExecution))
  }

  function ActualPairs(schedule: seq<Slot>, n: nat): set<Pair>
    requires n <= |schedule|
  {
    if n == 0 then {} else ActualPairs(schedule, n - 1) + {PairOf(schedule[n - 1])}
  }

  predicate PlannedBefore(schedule: seq<Slot>, n: nat, p: Pair)
    requires n <= |schedule|
  {
    exists i | 0 <= i < n :: PairOf(schedule[i]) == p
  }

  ghost predicate OnceBefore(schedule: seq<Slot>, n: nat)
    requires n <= |schedule|
  {
    forall i, j | 0 <= i < j < n :: PairOf(schedule[i]) != PairOf(schedule[j])
  }

  lemma PlannedNext(schedule: seq<Slot>, n: nat)
    requires n < |schedule|
    ensures forall p :: PlannedBefore(schedule, n + 1, p) <==> PlannedBefore(schedule, n, p) || p == PairOf(schedule[n])
    ensures OnceBefore(schedule, n + 1) <==> OnceBefore(schedule, n) && !PlannedBefore(schedule, n, PairOf(schedule[n]))
  {
    hide PairOf;
    assert PlannedBefore(schedule, n + 1, PairOf(schedule[n]));
  }

  lemma {:induction false} ActualMembers(schedule: seq<Slot>, n: nat)
    requires n <= |schedule|
    ensures forall p :: p in ActualPairs(schedule, n) <==> PlannedBefore(schedule, n, p)
    ensures |ActualPairs(schedule, n)| <= n
    ensures |ActualPairs(schedule, n)| == n <==> OnceBefore(schedule, n)
  {
    hide PairOf, OnceBefore, PlannedBefore;
    if n == 0 {
      NothingPlanned(schedule);
    } else {
      ActualMembers(schedule, n - 1);
      PlannedNext(schedule, n - 1);
      AddedSize(ActualPairs(schedule, n - 1), PairOf(schedule[n - 1]));
    }
  }

  lemma NothingPlanned(schedule: seq<Slot>)
    ensures OnceBefore(schedule, 0) && forall p :: !PlannedBefore(schedule, 0, p)
  {
  }

  lemma AddedSize<T>(s: set<T>, x: T)
    ensures |s + {x}| == |s| + if x in s then 0 else 1
  {
    if x in s { assert s + {x} == s; }
  }

  /** Within `max` slots after slot `i` the strategy is another. */
  ghost predicate ChangesSoon(schedule: seq<Slot>, i: nat, max: nat)
    requires i < |schedule| - max
  {
    exists k :: i < k <= i + max && schedule[k].strategy != schedule[i].strategy
  }

  /**
   What passes, written out: numbered from one, over known cases, no case twice with one strategy, every case with both,
   and after any slot another strategy within `max` slots.
   */
  lemma PassesIff(cases: seq<string>, schedule: seq<Slot>, max: nat)
    ensures Passes(cases, schedule, max) <==>
              && (forall i | 0 <= i < |schedule| :: schedule[i].ordinal == i + 1 && schedule[i].caseId in cases)
              && (forall i, j | 0 <= i < j < |schedule| ::
                    schedule[i].caseId != schedule[j].caseId || schedule[i].strategy != schedule[j].strategy)
              && (forall c | c in cases ::
                    && (exists i :: 0 <= i < |schedule| && schedule[i].caseId == c && schedule[i].strategy == Orchestrated)
                    && (exists i :: 0 <= i < |schedule| && schedule[i].caseId == c && schedule[i].strategy == FrontierExecution))
              && (forall i | 0 <= i < |schedule| - max :: ChangesSoon(schedule, i, max))
  {
    OncePairs(schedule);
    EveryPairIs(cases, schedule);
    ChangesWithin(schedule, max);
    NumberedKnown(cases, schedule);
    hide OrdinalsContiguous, CasesKnown, PairsOnce, EveryPair, Interleaved;
  }

  lemma NumberedKnown(cases: seq<string>, schedule: seq<Slot>)
    ensures OrdinalsContiguous(schedule) && CasesKnown(cases, schedule) <==>
              forall i | 0 <= i < |schedule| :: schedule[i].ordinal == i + 1 && schedule[i].caseId in cases
  {
  }

  lemma OncePairs(schedule: seq<Slot>)
    ensures PairsOnce(schedule) <==> forall i, j | 0 <= i < j < |schedule| ::
              schedule[i].caseId != schedule[j].caseId || schedule[i].strategy != schedule[j].strategy
  {
  }

  lemma EveryPairIs(cases: seq<string>, schedule: seq<Slot>)
    ensures EveryPair(cases, schedule) <==> forall c | c in cases ::
              && (exists i :: 0 <= i < |schedule| && schedule[i].caseId == c && schedule[i].strategy == Orchestrated)
              && (exists i :: 0 <= i < |schedule| && schedule[i].caseId == c && schedule[i].strategy == FrontierExecution)
  {
    forall c: string, st: Strategy
      ensures PairPlanned(schedule, (c, st)) <==> exists i :: 0 <= i < |schedule| && schedule[i].caseId == c && schedule[i].strategy == st
    {
      PlannedIs(schedule, c, st);
    }
    if forall c | c in cases :: PairPlanned(schedule, (c, Orchestrated)) && PairPlanned(schedule, (c, FrontierExecution)) {
      forall c, st | c in cases ensures PairPlanned(schedule, (c, st)) {
        assert st == Orchestrated || st == FrontierExecution;
      }
    }
    hide PairPlanned;
  }

  lemma PlannedIs(schedule: seq<Slot>, c: string, st: Strategy)
    ensures PairPlanned(schedule, (c, st)) <==> exists i :: 0 <= i < |schedule| && schedule[i].caseId == c && schedule[i].strategy == st
  {
    if i :| 0 <= i < |schedule| && schedule[i].caseId == c && schedule[i].strategy == st {
      assert PairOf(schedule[i]) == (c, st);
    }
  }

  lemma ChangesWithin(schedule: seq<Slot>, max: nat)
    ensures Interleaved(schedule, max) <==> forall i | 0 <= i < |schedule| - max :: ChangesSoon(schedule, i, max)
  {
    hide ChangesSoon, SameStrategy;
    if Interleaved(schedule, max) {
      forall i: nat | i < |schedule| - max ensures ChangesSoon(schedule, i, max) {
        assert !SameStrategy(schedule, i, i + max + 1);
        SoonIff(schedule, i, max);
      }
    } else {
      var i: nat, j: nat :| i <= j <= |schedule| && j - i > max && SameStrategy(schedule, i, j);
      SameShorter(schedule, i, i + max + 1, j);
      SoonIff(schedule, i, max);
      assert i < |schedule| - max && !ChangesSoon(schedule, i, max);
    }
  }

  lemma SoonIff(schedule: seq<Slot>, i: nat, max: nat)
    requires i < |schedule| - max
    ensures ChangesSoon(schedule, i, max) <==> !SameStrategy(schedule, i, i + max + 1)
  {
  }

  lemma SameShorter(schedule: seq<Slot>, i: nat, j: nat, k: nat)
    requires i <= j <= k <= |schedule| && SameStrategy(schedule, i, k)
    ensures SameStrategy(schedule, i, j)
  {
  }

  /** `scheduleErrors` finds nothing; `recorded` is the manifest's hash of its schedule. */
  method CheckSchedule(cases: seq<string>, schedule: seq<Slot>, max: nat, hash: seq<Slot> -> string, recorded: string)
    returns (ok: bool)
    ensures ok <==> Passes(cases, schedule, max) && recorded == hash(schedule)
  {
    var expected := ExpectedPairs(cases);
    var actual := ActualPairs(schedule, |schedule|);
    ActualMembers(schedule, |schedule|);
    if CasesKnown(cases, schedule) && EveryPair(cases, schedule) { ActualIsExpected(cases, schedule); }
    var every := forall c | c in cases :: (c, Orchestrated) in actual && (c, FrontierExecution) in actual;
    EveryPairIff(cases, schedule);
    var interleaved := CheckInterleaved(schedule, max);
    hide ActualPairs, PairOf, Interleaved, SameStrategy, ExpectedPairs;
    ok := |schedule| == |expected| && |actual| == |schedule| && every && OrdinalsContiguous(schedule) && CasesKnown(cases, schedule) && interleaved
          && recorded == hash(schedule);
  }

  lemma ActualIsExpected(cases: seq<string>, schedule: seq<Slot>)
    requires CasesKnown(cases, schedule) && EveryPair(cases, schedule)
    ensures ActualPairs(schedule, |schedule|) == ExpectedPairs(cases)
  {
    hide ExpectedPairs, ActualPairs, PairOf, PlannedBefore;
    var actual, expected := ActualPairs(schedule, |schedule|), ExpectedPairs(cases);
    ActualMembers(schedule, |schedule|);
    ExpectedMembers(cases);
    forall p: Pair ensures p in actual <==> p in expected {
      PlannedIff(cases, schedule, p);
    }
  }

  lemma ExpectedMembers(cases: seq<string>)
    ensures forall p :: p in ExpectedPairs(cases) <==> p.0 in cases
  {
    forall p: Pair ensures p in ExpectedPairs(cases) <==> p.0 in cases {
      assert p.1 == Orchestrated || p.1 == FrontierExecution;
    }
  }

  lemma PlannedIff(cases: seq<string>, schedule: seq<Slot>, p: Pair)
    requires CasesKnown(cases, schedule) && EveryPair(cases, schedule)
    ensures PlannedBefore(schedule, |schedule|, p) <==> p.0 in cases
  {
    if p.0 in cases {
      assert PairPlanned(schedule, (p.0, p.1));
    }
  }

  lemma EveryPairIff(cases: seq<string>, schedule: seq<Slot>)
    ensures EveryPair(cases, schedule) <==>
              forall c | c in cases :: (c, Orchestrated) in ActualPairs(schedule, |schedule|) && (c, FrontierExecution) in ActualPairs(schedule, |schedule|)
  {
    ActualMembers(schedule, |schedule|);
    hide ActualPairs, PairOf;
    var actual := ActualPairs(schedule, |schedule|);
    assert forall p: Pair :: PairPlanned(schedule, p) <==> PlannedBefore(schedule, |schedule|, p);
    if forall c | c in cases :: (c, Orchestrated) in actual && (c, FrontierExecution) in actual {
      forall c, st | c in cases ensures PairPlanned(schedule, (c, st)) {
        assert st == Orchestrated || st == FrontierExecution;
      }
    }
    if EveryPair(cases, schedule) {
      forall c | c in cases ensures (c, Orchestrated) in actual && (c, FrontierExecution) in actual {
        assert PairPlanned(schedule, (c, Orchestrated)) && PairPlanned(schedule, (c, FrontierExecution));
      }
    }
  }

  // ---- The schedule that is made -----------------------------------------------------------

  /** Two adjacent slots per ranked case, one for each strategy. */
  ghost predicate Paired(ranked: seq<string>, schedule: seq<Slot>) {
    && |schedule| == 2 * |ranked|
    && OrdinalsContiguous(schedule)
    && forall k | 0 <= k < |ranked| ::
         && schedule[2 * k].caseId == ranked[k] == schedule[2 * k + 1].caseId
         && schedule[2 * k].strategy != schedule[2 * k + 1].strategy
  }

  lemma PairedAt(ranked: seq<string>, schedule: seq<Slot>, i: nat)
    requires Paired(ranked, schedule) && i < |schedule|
    ensures i / 2 < |ranked| && schedule[i].caseId == ranked[i / 2]
    ensures i % 2 == 0 ==> i + 1 < |schedule| && schedule[i].strategy != schedule[i + 1].strategy
  {
    assert i == 2 * (i / 2) || i == 2 * (i / 2) + 1;
  }

  /** Adjacent pairs of distinct cases make a schedule that passes with a bound of two. */
  lemma PairedPasses(cases: seq<string>, ranked: seq<string>, schedule: seq<Slot>)
    requires Paired(ranked, schedule) && Distinct(ranked) && multiset(ranked) == multiset(cases)
    ensures Passes(cases, schedule, 2)
  {
    SameMembers(ranked, cases);
    PairedCases(cases, ranked, schedule);
    PairedOnce(ranked, schedule);
    PairedEvery(cases, ranked, schedule);
    PairedInterleaved(ranked, schedule);
  }

  lemma PairedCases(cases: seq<string>, ranked: seq<string>, schedule: seq<Slot>)
    requires Paired(ranked, schedule) && forall c | c in ranked :: c in cases
    ensures CasesKnown(cases, schedule)
  {
    forall i | 0 <= i < |schedule| ensures schedule[i].caseId in cases { PairedAt(ranked, schedule, i); }
  }

  lemma PairedOnce(ranked: seq<string>, schedule: seq<Slot>)
    requires Paired(ranked, schedule) && Distinct(ranked)
    ensures PairsOnce(schedule)
  {
    forall i, j | 0 <= i < j < |schedule| ensures PairOf(schedule[i]) != PairOf(schedule[j]) {
      PairedAt(ranked, schedule, i);
      PairedAt(ranked, schedule, j);
      assert i / 2 < j / 2 || (i / 2 == j / 2 && i % 2 == 0 && j == i + 1);
    }
  }

  lemma PairedEvery(cases: seq<string>, ranked: seq<string>, schedule: seq<Slot>)
    requires Paired(ranked, schedule) && forall c | c in cases :: c in ranked
    ensures EveryPair(cases, schedule)
  {
    forall c, st | c in cases ensures PairPlanned(schedule, (c, st)) {
      var k :| 0 <= k < |ranked| && ranked[k] == c;
      assert schedule[2 * k].strategy != schedule[2 * k + 1].strategy;
      var i := if schedule[2 * k].strategy == st then 2 * k else 2 * k + 1;
      assert schedule[i].strategy == st && schedule[i].caseId == c;
      assert PairOf(schedule[i]) == (c, st);
    }
  }

  lemma PairedInterleaved(ranked: seq<string>, schedule: seq<Slot>)
    requires Paired(ranked, schedule)
    ensures Interleaved(schedule, 2)
  {
    forall i: nat, j: nat | i <= j <= |schedule| && j - i > 2 ensures !SameStrategy(schedule, i, j) {
      var e := if i % 2 == 0 then i else i + 1;
      PairedAt(ranked, schedule, e);
      assert schedule[e].strategy != schedule[e + 1].strategy;
    }
  }

  /**
   `scheduleFor`: cases in hash order, both strategies of a case side by side. Whatever the ranking and the
   order within each pair, distinct cases give a schedule that passes every check.
   */
  method ScheduleFor(cases: seq<string>, rankLe: (string, string) -> bool, orchestratedFirst: (string, nat) -> bool)
    returns (schedule: seq<Slot>)
    ensures Paired(Sort(cases, rankLe), schedule)
    ensures forall k | 0 <= k < |Sort(cases, rankLe)| ::
              schedule[2 * k].strategy.Orchestrated? <==> orchestratedFirst(Sort(cases, rankLe)[k], k)
    ensures DistinctCases(cases) ==> Passes(cases, schedule, 2)
  {
    var ranked := Sort(cases, rankLe);
    SortPermutes(cases, rankLe);
    schedule := [];
    var index: nat := 0;
    while index < |ranked|
      invariant 0 <= index <= |ranked| && Paired(ranked[..index], schedule)
      invariant forall k | 0 <= k < index :: schedule[2 * k].strategy.Orchestrated? <==> orchestratedFirst(ranked[k], k)
    {
      var caseId := ranked[index];
      var first, second := FrontierExecution, Orchestrated;
      if orchestratedFirst(caseId, index) { first, second := Orchestrated, FrontierExecution; }
      PairedGrows(ranked, index, schedule, first, second);
      schedule := schedule + [Slot(|schedule| + 1, caseId, first), Slot(|schedule| + 2, caseId, second)];
      index := index + 1;
    }
    assert ranked[..index] == ranked;
    if DistinctCases(cases) {
      DistinctUnderPermutation(cases, ranked);
      PairedPasses(cases, ranked, schedule);
    }
  }

  lemma PairedGrows(ranked: seq<string>, index: nat, schedule: seq<Slot>, first: Strategy, second: Strategy)
    requires index < |ranked| && Paired(ranked[..index], schedule) && first != second
    ensures Paired(ranked[..index + 1],
                   schedule + [Slot(|schedule| + 1, ranked[index], first), Slot(|schedule| + 2, ranked[index], second)])
  {
    var grown := schedule + [Slot(|schedule| + 1, ranked[index], first), Slot(|schedule| + 2, ranked[index], second)];
    var now, before := ranked[..index + 1], ranked[..index];
    forall k | 0 <= k < |now|
      ensures grown[2 * k].caseId == now[k] == grown[2 * k + 1].caseId && grown[2 * k].strategy != grown[2 * k + 1].strategy
    {
      if k < index {
        assert now[k] == before[k] && grown[2 * k] == schedule[2 * k] && grown[2 * k + 1] == schedule[2 * k + 1];
      }
    }
  }
}
