/**
 Pricing one usage record (src/pilot/usage-cost.ts): exact tariff arithmetic, when a cost is reported,
 and when the arithmetic refuses.
 */
module UsageCost {
  import opened Prelude

  datatype Dimension = Input | Output | CachedInput | Reasoning

  const DIMENSIONS := [Input, Output, CachedInput, Reasoning]

  datatype PerDimension = PerDimension(input: Option<int>, output: Option<int>, cachedInput: Option<int>, reasoning: Option<int>) {
    /** Every count given is within the bounds. */
    ghost predicate Within(lo: int, hi: int) {
      && (input.Some? ==> lo <= input.value <= hi) && (output.Some? ==> lo <= output.value <= hi)
      && (cachedInput.Some? ==> lo <= cachedInput.value <= hi) && (reasoning.Some? ==> lo <= reasoning.value <= hi)
    }
  }

  function At(p: PerDimension, d: Dimension): Option<int> {
    match d case Input => p.input case Output => p.output case CachedInput => p.cachedInput case Reasoning => p.reasoning
  }

  datatype Provenance = AuthoritativeBill | TariffReproduced | EstimatedTariff
  datatype Kind = ObservedKind | EstimatedKind

  datatype Usage = Usage(
    usageId: string, bindingRef: string, snapshotId: string, currency: string, observed: PerDimension, estimated: PerDimension,
    providerUsageId: Option<string>, estimatorId: Option<string>, estimatorVersion: Option<string>,
    provenance: Option<Provenance>, costObserved: Option<int>, costEstimated: Option<int>, rest: string)

  datatype Tariff = Tariff(bindingRef: string, rates: PerDimension, authoritative: bool)

  /** `hashMatches` is the outcome of recomputing the snapshot's own hash. */
  datatype Snapshot = Snapshot(id: string, hashMatches: bool, currency: string, unitScale: int, tariffs: seq<Tariff>)

  datatype Reason =
    | SnapshotHashMismatch | SnapshotIdMismatch | CurrencyMismatch | TariffDuplicate(bindingRef: string) | TariffNotFound
    | ChargeNotSupported | ProviderIdMissing | AmountMissing | ReproducedMismatch | ProvenanceMissing
    | RecordedObservedMismatch | DimensionMissing(kind: Kind, dimension: Dimension) | EstimatorIdentityMissing
    | EstimatedProvenanceInvalid | RecordedEstimatedMismatch
    | TariffUnregistered(bindingRef: string) | UnknownBinding | ObservedIncomplete | EstimatedIncomplete

  /** What pricing adds to a usage record. */
  datatype Priced = Priced(costObserved: Option<int>, costEstimated: Option<int>, observedProvenance: Option<Provenance>,
                           estimatedProvenance: Option<Provenance>, reasons: set<Reason>)

  // ---- Safe inputs ---------------------------------------------------------------------

  predicate Safe(value: Option<int>) { value.Some? ==> 0 <= value.value <= MAX_SAFE_INTEGER }

  predicate SafeDimensions(p: PerDimension) { forall d: Dimension :: Safe(At(p, d)) }

  /** `assertArithmeticInputs`. */
  predicate InputsSafe(u: Usage, s: Snapshot) {
    && 1 <= s.unitScale <= MAX_SAFE_INTEGER
    && (forall t | t in s.tariffs :: SafeDimensions(t.rates))
    && SafeDimensions(u.observed) && SafeDimensions(u.estimated) && Safe(u.costObserved) && Safe(u.costEstimated)
  }

  // ---- What a cost is ------------------------------------------------------------------

  predicate DistinctTariffs(s: Snapshot) { forall i, j | 0 <= i < j < |s.tariffs| :: s.tariffs[i].bindingRef != s.tariffs[j].bindingRef }

  function TariffFor(tariffs: seq<Tariff>, ref: string): Option<Tariff> {
    if tariffs == [] then None else if tariffs[0].bindingRef == ref then Some(tariffs[0]) else TariffFor(tariffs[1..], ref)
  }

  /** The snapshot prices this usage with one tariff. */
  predicate Priceable(u: Usage, s: Snapshot) {
    && s.hashMatches && u.snapshotId == s.id && u.currency == s.currency
    && DistinctTariffs(s) && TariffFor(s.tariffs, u.bindingRef).Some?
  }

  /** Tokens times rate, over the listed dimensions that have a rate. */
  function Cost(tokens: PerDimension, rates: PerDimension, ds: seq<Dimension>): int {
    if ds == [] then 0
    else
      var d := ds[|ds| - 1];
      Cost(tokens, rates, ds[..|ds| - 1]) +
      if At(rates, d).Some? && At(tokens, d).Some? then At(tokens, d).value * At(rates, d).value else 0
  }

  predicate Lacks(tokens: PerDimension, rates: PerDimension, d: Dimension) { At(rates, d).Some? && At(tokens, d).None? }

  /** Every dimension with a rate has a token count. */
  predicate Covered(tokens: PerDimension, rates: PerDimension) { forall d: Dimension :: !Lacks(tokens, rates, d) }

  /** The exact cost of all priced dimensions. */
  function ExactCost(tokens: PerDimension, rates: PerDimension): int { Cost(tokens, rates, DIMENSIONS) }

  function MissingDimensions(kind: Kind, tokens: PerDimension, rates: PerDimension): set<Reason> {
    set d: Dimension | Lacks(tokens, rates, d) :: DimensionMissing(kind, d)
  }

  predicate HasTokens(p: PerDimension) { exists d: Dimension :: At(p, d).Some? }

  predicate ObservedEvidence(u: Usage) {
    HasTokens(u.observed) || u.costObserved.Some? || u.providerUsageId.Some? || u.provenance == Some(AuthoritativeBill)
  }

  predicate EstimatedEvidence(u: Usage) {
    || HasTokens(u.estimated) || u.estimatorId.Some? || u.estimatorVersion.Some? || u.costEstimated.Some?
    || u.provenance == Some(EstimatedTariff)
  }

  /** An authoritative bill stands as it is. */
  predicate Billed(u: Usage, t: Tariff) {
    u.provenance == Some(AuthoritativeBill) && t.authoritative && u.providerUsageId.Some? && u.costObserved.Some?
  }

  predicate Agrees(recorded: Option<int>, exact: int) { recorded.Some? ==> recorded.value == exact }

  /** The observed cost reported: a standing bill, or the tariff product, unless a recorded amount contradicts it. */
  function ObservedCost(u: Usage, s: Snapshot): Option<int> {
    if !Priceable(u, s) || !ObservedEvidence(u) then None
    else
      var t := TariffFor(s.tariffs, u.bindingRef).value;
      if Billed(u, t) then u.costObserved
      else if Covered(u.observed, t.rates) && Agrees(u.costObserved, ExactCost(u.observed, t.rates))
      then Some(ExactCost(u.observed, t.rates)) else None
  }

  /** The estimated cost reported: the tariff product of an identified estimator, confirmed by any recorded estimate. */
  function EstimatedCost(u: Usage, s: Snapshot): Option<int> {
    if !Priceable(u, s) || !EstimatedEvidence(u) then None
    else
      var t := TariffFor(s.tariffs, u.bindingRef).value;
      if && Covered(u.estimated, t.rates) && u.estimatorId.Some? && u.estimatorVersion.Some?
         && (u.costEstimated.Some? ==> u.provenance == Some(EstimatedTariff))
         && Agrees(u.costEstimated, ExactCost(u.estimated, t.rates))
      then Some(ExactCost(u.estimated, t.rates)) else None
  }

  /** A tariff product that is computed leaves the safe integers. */
  predicate Overflows(u: Usage, s: Snapshot) {
    Priceable(u, s) &&
    var t := TariffFor(s.tariffs, u.bindingRef).value;
    || (ObservedEvidence(u) && !Billed(u, t) && Covered(u.observed, t.rates) && ExactCost(u.observed, t.rates) > MAX_SAFE_INTEGER)
    || (EstimatedEvidence(u) && Covered(u.estimated, t.rates) && ExactCost(u.estimated, t.rates) > MAX_SAFE_INTEGER)
  }

  // ---- `dimensionalCost` ---------------------------------------------------------------

  datatype Computed = Incomplete | Exactly(cost: nat) | Overflow

  lemma {:induction false} CostNonNegative(tokens: PerDimension, rates: PerDimension, ds: seq<Dimension>)
    requires SafeDimensions(tokens) && SafeDimensions(rates)
    ensures Cost(tokens, rates, ds) >= 0
  {
    if ds != [] {
      var d := ds[|ds| - 1];
      CostNonNegative(tokens, rates, ds[..|ds| - 1]);
      assert Safe(At(tokens, d)) && Safe(At(rates, d));
    }
  }

  /** The cost of the four dimensions, written out. */
  lemma CostWrittenOut(tokens: PerDimension, rates: PerDimension)
    ensures var input := if tokens.input.Some? && rates.input.Some? then tokens.input.value * rates.input.value else 0;
            var output := if tokens.output.Some? && rates.output.Some? then tokens.output.value * rates.output.value else 0;
            var cached := if tokens.cachedInput.Some? && rates.cachedInput.Some?
                          then tokens.cachedInput.value * rates.cachedInput.value else 0;
            var reasoning := if tokens.reasoning.Some? && rates.reasoning.Some?
                             then tokens.reasoning.value * rates.reasoning.value else 0;
            ExactCost(tokens, rates) == input + output + cached + reasoning
    ensures Covered(tokens, rates) <==>
              && (rates.input.Some? ==> tokens.input.Some?) && (rates.output.Some? ==> tokens.output.Some?)
              && (rates.cachedInput.Some? ==> tokens.cachedInput.Some?) && (rates.reasoning.Some? ==> tokens.reasoning.Some?)
  {
    CostOfNext(tokens, rates, 3);
    CostOfNext(tokens, rates, 2);
    CostOfNext(tokens, rates, 1);
    CostOfNext(tokens, rates, 0);
    assert DIMENSIONS[..0] == [] && DIMENSIONS[..4] == DIMENSIONS;
    forall d: Dimension ensures d.Input? || d.Output? || d.CachedInput? || d.Reasoning? { }
    assert Covered(tokens, rates) ==>
        !Lacks(tokens, rates, Input) && !Lacks(tokens, rates, Output) && !Lacks(tokens, rates, CachedInput) && !Lacks(tokens, rates, Reasoning);
  }

  lemma CostOfNext(tokens: PerDimension, rates: PerDimension, i: nat)
    requires i < |DIMENSIONS|
    ensures var d := DIMENSIONS[i];
            Cost(tokens, rates, DIMENSIONS[..i + 1]) == Cost(tokens, rates, DIMENSIONS[..i]) +
            if At(rates, d).Some? && At(tokens, d).Some? then At(tokens, d).value * At(rates, d).value else 0
  {
    assert DIMENSIONS[..i + 1][..i] == DIMENSIONS[..i];
  }

  lemma EveryDimension(d: Dimension)
    ensures d in DIMENSIONS
  {
    assert DIMENSIONS[0] == Input && DIMENSIONS[1] == Output && DIMENSIONS[2] == CachedInput && DIMENSIONS[3] == Reasoning;
  }

  method DimensionalCost(tokens: PerDimension, rates: PerDimension, kind: Kind) returns (r: Computed, errors: set<Reason>)
    requires SafeDimensions(tokens) && SafeDimensions(rates)
    ensures r.Incomplete? <==> !Covered(tokens, rates)
    ensures r.Exactly? ==> r.cost == ExactCost(tokens, rates) <= MAX_SAFE_INTEGER
    ensures r.Overflow? ==> ExactCost(tokens, rates) > MAX_SAFE_INTEGER
    ensures r.Incomplete? <==>
              || (rates.input.Some? && tokens.input.None?) || (rates.output.Some? && tokens.output.None?)
              || (rates.cachedInput.Some? && tokens.cachedInput.None?) || (rates.reasoning.Some? && tokens.reasoning.None?)
    ensures !r.Incomplete? ==>
              var exact := (if rates.input.None? then 0 else tokens.input.value * rates.input.value)
                           + (if rates.output.None? then 0 else tokens.output.value * rates.output.value)
                           + (if rates.cachedInput.None? then 0 else tokens.cachedInput.value * rates.cachedInput.value)
                           + (if rates.reasoning.None? then 0 else tokens.reasoning.value * rates.reasoning.value);
              if exact <= 9007199254740991 then r.Exactly? && r.cost == exact else r.Overflow?
    ensures errors == MissingDimensions(kind, tokens, rates)
  {
    hide SafeDimensions;
    var total := 0;
    var complete := true;
    errors := {};
    var i := 0;
    while i < |DIMENSIONS|
      invariant 0 <= i <= |DIMENSIONS|
      invariant total == Cost(tokens, rates, DIMENSIONS[..i])
      invariant complete <==> errors == {}
      invariant errors == set d: Dimension | d in DIMENSIONS[..i] && Lacks(tokens, rates, d) :: DimensionMissing(kind, d)
    {
      var d := DIMENSIONS[i];
      assert DIMENSIONS[..i + 1] == DIMENSIONS[..i] + [d];
      i := i + 1;
      var rate := At(rates, d);
      if rate.None? { continue; }
      var count := At(tokens, d);
      if count.None? {
        errors := errors + {DimensionMissing(kind, d)};
        complete := false;
        continue;
      }
      total := total + count.value * rate.value;
    }
    assert DIMENSIONS[..i] == DIMENSIONS;
    forall d: Dimension ensures d in DIMENSIONS { EveryDimension(d); }
    CoveredIff(kind, tokens, rates);
    CostNonNegative(tokens, rates, DIMENSIONS);
    CostWrittenOut(tokens, rates);
    hide Cost, Covered;
    r := if !complete then Incomplete else if total > MAX_SAFE_INTEGER then Overflow else Exactly(total);
  }

  // ---- `priceUsage` --------------------------------------------------------------------

  function SnapshotReasons(u: Usage, s: Snapshot): set<Reason> {
    (if s.hashMatches then {} else {SnapshotHashMismatch})
    + (if u.snapshotId == s.id then {} else {SnapshotIdMismatch})
    + (if u.currency == s.currency then {} else {CurrencyMismatch})
    + Duplicates(s.tariffs, |s.tariffs|)
    + (if TariffFor(s.tariffs, u.bindingRef).Some? then {} else {TariffNotFound})
  }

  predicate Repeats(tariffs: seq<Tariff>, j: nat)
    requires j < |tariffs|
  {
    exists i | 0 <= i < j :: tariffs[i].bindingRef == tariffs[j].bindingRef
  }

  /** The refs that a tariff among the first `n` repeats. */
  function Duplicates(tariffs: seq<Tariff>, n: nat): set<Reason>
    requires n <= |tariffs|
  {
    set j: nat | j < n && Repeats(tariffs, j) :: TariffDuplicate(tariffs[j].bindingRef)
  }

  function ObservedReasons(u: Usage, t: Tariff): set<Reason> {
    if !ObservedEvidence(u) || Billed(u, t) then {}
    else
      (if u.provenance == Some(AuthoritativeBill) then
         (if t.authoritative then {} else {ChargeNotSupported})
         + (if u.providerUsageId.Some? then {} else {ProviderIdMissing})
         + (if u.costObserved.Some? then {} else {AmountMissing})
       else if u.provenance.None? then {ProvenanceMissing} else {})
      + MissingDimensions(ObservedKind, u.observed, t.rates)
      + (if Covered(u.observed, t.rates) && !Agrees(u.costObserved, ExactCost(u.observed, t.rates))
         then {if u.provenance == Some(AuthoritativeBill) then ReproducedMismatch else RecordedObservedMismatch} else {})
  }

  function EstimatedReasons(u: Usage, t: Tariff): set<Reason> {
    if !EstimatedEvidence(u) then {}
    else
      (if u.estimatorId.Some? && u.estimatorVersion.Some? then {} else {EstimatorIdentityMissing})
      + MissingDimensions(EstimatedKind, u.estimated, t.rates)
      + (if u.costEstimated.Some? && u.provenance != Some(EstimatedTariff) then {EstimatedProvenanceInvalid}
         else if Covered(u.estimated, t.rates) && !Agrees(u.costEstimated, ExactCost(u.estimated, t.rates))
         then {RecordedEstimatedMismatch} else {})
  }

  function Reasons(u: Usage, s: Snapshot): set<Reason> {
    if !Priceable(u, s) then SnapshotReasons(u, s)
    else
      var t := TariffFor(s.tariffs, u.bindingRef).value;
      ObservedReasons(u, t) + EstimatedReasons(u, t)
  }

  function ObservedProvenance(u: Usage, s: Snapshot): Option<Provenance> {
    if ObservedCost(u, s).None? then None
    else if Billed(u, TariffFor(s.tariffs, u.bindingRef).value) then Some(AuthoritativeBill) else Some(TariffReproduced)
  }

  /** The priced record, or nothing when the arithmetic refuses. */
  function PriceOf(u: Usage, s: Snapshot): Option<Priced> {
    if !InputsSafe(u, s) || Overflows(u, s) then None
    else Some(Priced(ObservedCost(u, s), EstimatedCost(u, s), ObservedProvenance(u, s),
                     if EstimatedCost(u, s).Some? then Some(EstimatedTariff) else None, Reasons(u, s)))
  }

  lemma {:induction false} TariffForIn(tariffs: seq<Tariff>, ref: string)
    ensures TariffFor(tariffs, ref).Some? ==> TariffFor(tariffs, ref).value in tariffs
    ensures TariffFor(tariffs, ref).Some? <==> exists t :: t in tariffs && t.bindingRef == ref
  {
    if tariffs != [] {
      TariffForIn(tariffs[1..], ref);
      assert tariffs == [tariffs[0]] + tariffs[1..];
    }
  }

  lemma ReasonsEmptyIff(u: Usage, s: Snapshot)
    ensures SnapshotReasons(u, s) == {} <==> Priceable(u, s)
  {
    var duplicates := Duplicates(s.tariffs, |s.tariffs|);
    if duplicates == {} {
      forall i, j | 0 <= i < j < |s.tariffs| ensures s.tariffs[i].bindingRef != s.tariffs[j].bindingRef {
        assert TariffDuplicate(s.tariffs[j].bindingRef) !in duplicates;
        assert !Repeats(s.tariffs, j);
      }
    }
  }

  method DuplicateErrors(tariffs: seq<Tariff>) returns (errors: set<Reason>)
    ensures errors == Duplicates(tariffs, |tariffs|)
  {
    errors := {};
    var bindings: set<string> := {};
    var i := 0;
    while i < |tariffs|
      invariant 0 <= i <= |tariffs|
      invariant forall b :: b in bindings <==> exists j | 0 <= j < i :: tariffs[j].bindingRef == b
      invariant errors == Duplicates(tariffs, i)
    {
      var b := tariffs[i].bindingRef;
      assert b in bindings <==> Repeats(tariffs, i);
      DuplicatesNext(tariffs, i);
      if b in bindings { errors := errors + {TariffDuplicate(b)}; }
      bindings := bindings + {b};
      i := i + 1;
    }
  }

  lemma DuplicatesNext(tariffs: seq<Tariff>, i: nat)
    requires i < |tariffs|
    ensures Duplicates(tariffs, i + 1) ==
            Duplicates(tariffs, i) + if Repeats(tariffs, i) then {TariffDuplicate(tariffs[i].bindingRef)} else {}
  {
    hide Repeats;
  }

  method SnapshotErrors(u: Usage, s: Snapshot) returns (errors: set<Reason>)
    ensures errors == SnapshotReasons(u, s)
  {
    hide Duplicates, TariffFor;
    errors := {};
    if !s.hashMatches { errors := errors + {SnapshotHashMismatch}; }
    if u.snapshotId != s.id { errors := errors + {SnapshotIdMismatch}; }
    if u.currency != s.currency { errors := errors + {CurrencyMismatch}; }
    var duplicates := DuplicateErrors(s.tariffs);
    errors := errors + duplicates;
    TariffForIn(s.tariffs, u.bindingRef);
    if !exists t | t in s.tariffs :: t.bindingRef == u.bindingRef { errors := errors + {TariffNotFound}; }
  }

  method PriceObserved(u: Usage, t: Tariff) returns (overflow: bool, cost: Option<int>, provenance: Option<Provenance>, errors: set<Reason>)
    requires SafeDimensions(u.observed) && SafeDimensions(t.rates)
    ensures overflow <==>
              ObservedEvidence(u) && !Billed(u, t) && Covered(u.observed, t.rates) && ExactCost(u.observed, t.rates) > MAX_SAFE_INTEGER
    ensures !overflow ==> errors == ObservedReasons(u, t)
    ensures !overflow ==>
              cost == if !ObservedEvidence(u) then None else if Billed(u, t) then u.costObserved
                      else if Covered(u.observed, t.rates) && Agrees(u.costObserved, ExactCost(u.observed, t.rates))
                      then Some(ExactCost(u.observed, t.rates)) else None
    ensures !overflow ==>
              provenance == if cost.None? then None else if Billed(u, t) then Some(AuthoritativeBill) else Some(TariffReproduced)
  {
    hide ExactCost, Covered, MissingDimensions, HasTokens, SafeDimensions;
    overflow, cost, provenance, errors := false, None, None, {};
    if !ObservedEvidence(u) { return; }
    if u.provenance == Some(AuthoritativeBill) {
      if !t.authoritative { errors := errors + {ChargeNotSupported}; }
      if u.providerUsageId.None? { errors := errors + {ProviderIdMissing}; }
      if u.costObserved.None? { errors := errors + {AmountMissing}; }
      if errors == {} {
        cost, provenance := u.costObserved, Some(AuthoritativeBill);
        return;
      }
    } else if u.provenance.None? {
      errors := errors + {ProvenanceMissing};
    }
    var reproduced, missing := DimensionalCost(u.observed, t.rates, ObservedKind);
    errors := errors + missing;
    if reproduced.Overflow? {
      overflow := true;
    } else if reproduced.Exactly? && u.costObserved.Some? && u.costObserved.value != reproduced.cost {
      errors := errors + {if u.provenance == Some(AuthoritativeBill) then ReproducedMismatch else RecordedObservedMismatch};
    } else if reproduced.Exactly? {
      cost, provenance := Some(reproduced.cost), Some(TariffReproduced);
    }
  }

  method PriceEstimated(u: Usage, t: Tariff) returns (overflow: bool, cost: Option<int>, errors: set<Reason>)
    requires SafeDimensions(u.estimated) && SafeDimensions(t.rates)
    ensures overflow <==> EstimatedEvidence(u) && Covered(u.estimated, t.rates) && ExactCost(u.estimated, t.rates) > MAX_SAFE_INTEGER
    ensures !overflow ==> errors == EstimatedReasons(u, t)
    ensures !overflow ==>
              cost == if && EstimatedEvidence(u) && Covered(u.estimated, t.rates) && u.estimatorId.Some? && u.estimatorVersion.Some?
                         && (u.costEstimated.Some? ==> u.provenance == Some(EstimatedTariff))
                         && Agrees(u.costEstimated, ExactCost(u.estimated, t.rates))
                      then Some(ExactCost(u.estimated, t.rates)) else None
  {
    hide ExactCost, Covered, MissingDimensions, HasTokens, SafeDimensions;
    overflow, cost, errors := false, None, {};
    if !EstimatedEvidence(u) { return; }
    if u.estimatorId.None? || u.estimatorVersion.None? { errors := errors + {EstimatorIdentityMissing}; }
    var reproduced, missing := DimensionalCost(u.estimated, t.rates, EstimatedKind);
    errors := errors + missing;
    if reproduced.Overflow? {
      overflow := true;
    } else if u.costEstimated.Some? && u.provenance != Some(EstimatedTariff) {
      errors := errors + {EstimatedProvenanceInvalid};
    } else if reproduced.Exactly? && u.costEstimated.Some? && u.costEstimated.value != reproduced.cost {
      errors := errors + {RecordedEstimatedMismatch};
    } else if reproduced.Exactly? && u.estimatorId.Some? && u.estimatorVersion.Some? {
      cost := Some(reproduced.cost);
    }
  }

  /** `priceUsage`; nothing stands for the thrown range error. */
  method PriceUsage(u: Usage, s: Snapshot) returns (r: Option<Priced>)
    ensures r == PriceOf(u, s)
  {
    hide ExactCost, Covered, Billed, ObservedEvidence, EstimatedEvidence, Agrees, ObservedReasons, EstimatedReasons;
    hide DistinctTariffs, SafeDimensions;
    if !InputsSafe(u, s) { return None; }
    var errors := SnapshotErrors(u, s);
    ReasonsEmptyIff(u, s);
    if errors != {} {
      return Some(Priced(None, None, None, None, errors));
    }
    TariffForIn(s.tariffs, u.bindingRef);
    hide SnapshotReasons;
    var t := TariffFor(s.tariffs, u.bindingRef).value;
    var o1, costObserved, provenance, e1 := PriceObserved(u, t);
    if o1 { return None; }
    var o2, costEstimated, e2 := PriceEstimated(u, t);
    if o2 { return None; }
    r := Some(Priced(costObserved, costEstimated, provenance, if costEstimated.Some? then Some(EstimatedTariff) else None, e1 + e2));
  }

  // ---- What pricing promises -------------------------------------------------------------

  lemma TariffOf(tariffs: seq<Tariff>, t: Tariff)
    requires t in tariffs && forall i, j | 0 <= i < j < |tariffs| :: tariffs[i].bindingRef != tariffs[j].bindingRef
    ensures TariffFor(tariffs, t.bindingRef) == Some(t)
  {
    TariffForIn(tariffs, t.bindingRef);
    var i :| 0 <= i < |tariffs| && tariffs[i] == t;
    var j :| 0 <= j < |tariffs| && tariffs[j] == TariffFor(tariffs, t.bindingRef).value;
  }

  lemma HasTokensIff(p: PerDimension)
    ensures HasTokens(p) <==> p.input.Some? || p.output.Some? || p.cachedInput.Some? || p.reasoning.Some?
  {
    assert p.input.Some? ==> At(p, Input).Some?;
    assert p.output.Some? ==> At(p, Output).Some?;
    assert p.cachedInput.Some? ==> At(p, CachedInput).Some?;
    assert p.reasoning.Some? ==> At(p, Reasoning).Some?;
  }

  /** The conditions under which usage is priced by tariff `t`, written out. */
  ghost predicate PricedBy(u: Usage, s: Snapshot, t: Tariff) {
    && s.hashMatches && u.snapshotId == s.id && u.currency == s.currency && t in s.tariffs && t.bindingRef == u.bindingRef
    && forall i, j | 0 <= i < j < |s.tariffs| :: s.tariffs[i].bindingRef != s.tariffs[j].bindingRef
  }

  /** A record that no tariff of the snapshot prices gets no cost. */
  lemma UnpricedOtherwise(u: Usage, s: Snapshot)
    requires PriceOf(u, s).Some? && forall t | t in s.tariffs :: !PricedBy(u, s, t)
    ensures PriceOf(u, s).value.costObserved.None? && PriceOf(u, s).value.costEstimated.None?
    ensures PriceOf(u, s).value.reasons != {}
  {
    ReasonsEmptyIff(u, s);
    TariffForIn(s.tariffs, u.bindingRef);
  }

  /**
   The observed cost in products of tokens and rates: the recorded amount of an authoritative bill that the tariff
   supports; else the sum over the priced dimensions, when all of them are counted and no other amount is recorded.
   */
  lemma ObservedCostIs(u: Usage, s: Snapshot, t: Tariff)
    requires PriceOf(u, s).Some? && PricedBy(u, s, t)
    ensures var n, r, cost := u.observed, t.rates, PriceOf(u, s).value.costObserved;
            var exact := (if r.input.Some? && n.input.Some? then n.input.value * r.input.value else 0)
                         + (if r.output.Some? && n.output.Some? then n.output.value * r.output.value else 0)
                         + (if r.cachedInput.Some? && n.cachedInput.Some? then n.cachedInput.value * r.cachedInput.value else 0)
                         + (if r.reasoning.Some? && n.reasoning.Some? then n.reasoning.value * r.reasoning.value else 0);
            var counted := && (r.input.Some? ==> n.input.Some?) && (r.output.Some? ==> n.output.Some?)
                           && (r.cachedInput.Some? ==> n.cachedInput.Some?) && (r.reasoning.Some? ==> n.reasoning.Some?);
            var shown := || n.input.Some? || n.output.Some? || n.cachedInput.Some? || n.reasoning.Some? || u.costObserved.Some?
                         || u.providerUsageId.Some? || u.provenance == Some(AuthoritativeBill);
            if u.provenance == Some(AuthoritativeBill) && t.authoritative && u.providerUsageId.Some? && u.costObserved.Some?
            then cost == u.costObserved
            else if shown && counted && (u.costObserved.None? || u.costObserved.value == exact) then cost == Some(exact)
            else cost == None
  {
    TariffOf(s.tariffs, t);
    CostWrittenOut(u.observed, t.rates);
    HasTokensIff(u.observed);
    hide ExactCost, Covered, HasTokens;
  }

  /** The estimated cost likewise: the sum of products of an identified estimator, confirmed by any recorded estimate. */
  lemma EstimatedCostIs(u: Usage, s: Snapshot, t: Tariff)
    requires PriceOf(u, s).Some? && PricedBy(u, s, t)
    ensures var n, r, cost := u.estimated, t.rates, PriceOf(u, s).value.costEstimated;
            var exact := (if r.input.Some? && n.input.Some? then n.input.value * r.input.value else 0)
                         + (if r.output.Some? && n.output.Some? then n.output.value * r.output.value else 0)
                         + (if r.cachedInput.Some? && n.cachedInput.Some? then n.cachedInput.value * r.cachedInput.value else 0)
                         + (if r.reasoning.Some? && n.reasoning.Some? then n.reasoning.value * r.reasoning.value else 0);
            var counted := && (r.input.Some? ==> n.input.Some?) && (r.output.Some? ==> n.output.Some?)
                           && (r.cachedInput.Some? ==> n.cachedInput.Some?) && (r.reasoning.Some? ==> n.reasoning.Some?);
            var recorded := u.costEstimated.None? || (u.costEstimated.value == exact && u.provenance == Some(EstimatedTariff));
            if u.estimatorId.Some? && u.estimatorVersion.Some? && counted && recorded then cost == Some(exact) else cost == None
  {
    TariffOf(s.tariffs, t);
    CostWrittenOut(u.estimated, t.rates);
    hide ExactCost, Covered, HasTokens;
  }

  lemma DuplicatesAre(tariffs: seq<Tariff>, b: string)
    ensures TariffDuplicate(b) in Duplicates(tariffs, |tariffs|) <==>
              exists i, j :: 0 <= i < j < |tariffs| && tariffs[i].bindingRef == tariffs[j].bindingRef == b
  {
    if i, j :| 0 <= i < j < |tariffs| && tariffs[i].bindingRef == tariffs[j].bindingRef == b {
      assert Repeats(tariffs, j);
    }
  }

  /** The reasons given when the snapshot does not fit the record, each exactly when it applies. */
  lemma SnapshotReasonsAre(u: Usage, s: Snapshot)
    requires PriceOf(u, s).Some? && forall t | t in s.tariffs :: !PricedBy(u, s, t)
    ensures var reasons := PriceOf(u, s).value.reasons;
            && (SnapshotHashMismatch in reasons <==> !s.hashMatches) && (SnapshotIdMismatch in reasons <==> u.snapshotId != s.id)
            && (CurrencyMismatch in reasons <==> u.currency != s.currency)
            && (TariffNotFound in reasons <==> forall t | t in s.tariffs :: t.bindingRef != u.bindingRef)
            && (forall b :: TariffDuplicate(b) in reasons <==>
                  exists i, j :: 0 <= i < j < |s.tariffs| && s.tariffs[i].bindingRef == s.tariffs[j].bindingRef == b)
  {
    TariffForIn(s.tariffs, u.bindingRef);
    assert PriceOf(u, s).value.reasons == SnapshotReasons(u, s);
    forall b { DuplicatesAre(s.tariffs, b); }
    OnlyDuplicates(s.tariffs);
    hide Duplicates, TariffFor, InputsSafe, Overflows, PriceOf, Priceable, ObservedReasons, EstimatedReasons;
  }

  lemma OnlyDuplicates(tariffs: seq<Tariff>)
    ensures forall r | r in Duplicates(tariffs, |tariffs|) :: r.TariffDuplicate?
  {
  }

  /** The reasons against an observed cost, each exactly when it applies. */
  lemma ObservedReasonsAre(u: Usage, t: Tariff)
    ensures var reasons, bill, n := ObservedReasons(u, t), u.provenance == Some(AuthoritativeBill), u.observed;
            var shown := || n.input.Some? || n.output.Some? || n.cachedInput.Some? || n.reasoning.Some? || u.costObserved.Some?
                         || u.providerUsageId.Some? || bill;
            var billed := bill && t.authoritative && u.providerUsageId.Some? && u.costObserved.Some?;
            var contradicted := Covered(u.observed, t.rates) && u.costObserved.Some? && u.costObserved.value != ExactCost(u.observed, t.rates);
            && (ChargeNotSupported in reasons <==> bill && !t.authoritative)
            && (ProviderIdMissing in reasons <==> bill && u.providerUsageId.None?)
            && (AmountMissing in reasons <==> bill && u.costObserved.None?)
            && (ProvenanceMissing in reasons <==> u.provenance.None? && shown)
            && (ReproducedMismatch in reasons <==> bill && !billed && contradicted)
            && (RecordedObservedMismatch in reasons <==> !bill && contradicted)
            && (forall d :: DimensionMissing(ObservedKind, d) in reasons <==>
                  shown && !billed && At(t.rates, d).Some? && At(u.observed, d).None?)
  {
    HasTokensIff(u.observed);
    hide ExactCost, Covered, HasTokens;
  }

  /** The reasons against an estimated cost, each exactly when it applies. */
  lemma EstimatedReasonsAre(u: Usage, t: Tariff)
    ensures var reasons, n := EstimatedReasons(u, t), u.estimated;
            var shown := || n.input.Some? || n.output.Some? || n.cachedInput.Some? || n.reasoning.Some? || u.estimatorId.Some?
                         || u.estimatorVersion.Some? || u.costEstimated.Some? || u.provenance == Some(EstimatedTariff);
            && (EstimatorIdentityMissing in reasons <==> shown && (u.estimatorId.None? || u.estimatorVersion.None?))
            && (EstimatedProvenanceInvalid in reasons <==> u.costEstimated.Some? && u.provenance != Some(EstimatedTariff))
            && (RecordedEstimatedMismatch in reasons <==>
                  && u.costEstimated.Some? && u.provenance == Some(EstimatedTariff)
                  && Covered(u.estimated, t.rates) && u.costEstimated.value != ExactCost(u.estimated, t.rates))
            && (forall d :: DimensionMissing(EstimatedKind, d) in reasons <==>
                  shown && At(t.rates, d).Some? && At(u.estimated, d).None?)
  {
    HasTokensIff(u.estimated);
    hide ExactCost, Covered, HasTokens;
  }

  /** A record priced by a tariff carries the reasons against its observed and against its estimated cost. */
  lemma ReasonsAre(u: Usage, s: Snapshot, t: Tariff)
    requires PriceOf(u, s).Some? && PricedBy(u, s, t)
    ensures PriceOf(u, s).value.reasons == ObservedReasons(u, t) + EstimatedReasons(u, t)
  {
    TariffOf(s.tariffs, t);
    hide ExactCost, Covered, HasTokens, InputsSafe, ObservedReasons, EstimatedReasons;
  }

  /** What may enter the arithmetic, written out: a positive scale and no number outside the safe range. */
  lemma InputsSafeIff(u: Usage, s: Snapshot)
    ensures InputsSafe(u, s) <==>
              && 1 <= s.unitScale <= 9007199254740991
              && (forall t | t in s.tariffs :: t.rates.Within(0, 9007199254740991))
              && u.observed.Within(0, 9007199254740991) && u.estimated.Within(0, 9007199254740991)
              && (u.costObserved.Some? ==> 0 <= u.costObserved.value <= 9007199254740991)
              && (u.costEstimated.Some? ==> 0 <= u.costEstimated.value <= 9007199254740991)
  {
    SafeWithin(u.observed);
    SafeWithin(u.estimated);
    forall t | t in s.tariffs { SafeWithin(t.rates); }
    hide SafeDimensions;
  }

  lemma SafeWithin(p: PerDimension)
    ensures SafeDimensions(p) <==> p.Within(0, MAX_SAFE_INTEGER)
  {
    if SafeDimensions(p) {
      assert Safe(At(p, Input)) && Safe(At(p, Output)) && Safe(At(p, CachedInput)) && Safe(At(p, Reasoning));
    }
  }

  /** Apart from unsafe inputs, pricing refuses exactly when a sum of products that it needs is above the safe integers. */
  lemma RefusedIff(u: Usage, s: Snapshot, t: Tariff)
    requires PricedBy(u, s, t) && InputsSafe(u, s)
    ensures var billed := u.provenance == Some(AuthoritativeBill) && t.authoritative && u.providerUsageId.Some? && u.costObserved.Some?;
            var n, m := u.observed, u.estimated;
            var shown := || n.input.Some? || n.output.Some? || n.cachedInput.Some? || n.reasoning.Some? || u.costObserved.Some?
                         || u.providerUsageId.Some? || u.provenance == Some(AuthoritativeBill);
            var guessed := || m.input.Some? || m.output.Some? || m.cachedInput.Some? || m.reasoning.Some? || u.estimatorId.Some?
                           || u.estimatorVersion.Some? || u.costEstimated.Some? || u.provenance == Some(EstimatedTariff);
            PriceOf(u, s).None? <==>
              || (shown && !billed && Covered(n, t.rates) && ExactCost(n, t.rates) > 9007199254740991)
              || (guessed && Covered(m, t.rates) && ExactCost(m, t.rates) > 9007199254740991)
  {
    TariffOf(s.tariffs, t);
    HasTokensIff(u.observed);
    HasTokensIff(u.estimated);
    hide ExactCost, Covered, HasTokens, InputsSafe;
  }

  /** Reported costs are safe integers. */
  lemma CostsSafe(u: Usage, s: Snapshot)
    requires PriceOf(u, s).Some?
    ensures Safe(PriceOf(u, s).value.costObserved) && Safe(PriceOf(u, s).value.costEstimated)
  {
    hide Covered, HasTokens, Agrees;
    if Priceable(u, s) {
      TariffForIn(s.tariffs, u.bindingRef);
      var t := TariffFor(s.tariffs, u.bindingRef).value;
      CostNonNegative(u.observed, t.rates, DIMENSIONS);
      CostNonNegative(u.estimated, t.rates, DIMENSIONS);
    }
  }

  /** A record priced without any reason has exactly the costs it shows evidence for. */
  lemma NoReasonsMeansPriced(u: Usage, s: Snapshot)
    requires PriceOf(u, s).Some? && PriceOf(u, s).value.reasons == {}
    ensures Priceable(u, s)
    ensures PriceOf(u, s).value.costObserved.Some? <==> ObservedEvidence(u)
    ensures PriceOf(u, s).value.costEstimated.Some? <==> EstimatedEvidence(u)
  {
    hide ExactCost, HasTokens;
    ReasonsEmptyIff(u, s);
    var t := TariffFor(s.tariffs, u.bindingRef).value;
    CoveredIff(ObservedKind, u.observed, t.rates);
    CoveredIff(EstimatedKind, u.estimated, t.rates);
  }

  lemma CoveredIff(kind: Kind, tokens: PerDimension, rates: PerDimension)
    ensures MissingDimensions(kind, tokens, rates) == {} <==> Covered(tokens, rates)
  {
    if MissingDimensions(kind, tokens, rates) == {} {
      forall d: Dimension ensures !Lacks(tokens, rates, d) {
        assert DimensionMissing(kind, d) !in MissingDimensions(kind, tokens, rates);
      }
    }
  }
}
