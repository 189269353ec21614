/**
 The aggregate written out: which bindings are known, what a record's line withholds and why, what a measure of a column
 is, and what the strong totals range over.
 */
module UsageExact {
  import opened Prelude
  import opened Sorting
  import opened UsageCost
  import opened UsageAggregate

  /** A measure counts the values present; it has a value exactly when all are, and is refused for one that is unsafe. */
  lemma MeasureIs(values: seq<Option<int>>)
    ensures MeasureOf(values).None? <==>
              || (exists i :: 0 <= i < |values| && values[i].Some? && !(0 <= values[i].value <= 9007199254740991))
              || ((forall i | 0 <= i < |values| :: values[i] != None) && Sum(values) >= 9007199254740992)
    ensures MeasureOf(values).Some? ==>
              var m := MeasureOf(values).value;
              && m.total == |values| && m.complete == |set i: nat | i < |values| && values[i] != None|
              && m.value == if exists i :: 0 <= i < |values| && values[i] == None then None else Some(Sum(values))
  {
    PresentAre(values);
    if i :| 0 <= i < |values| && values[i].Some? && !(0 <= values[i].value <= 9007199254740991) {
      assert !Safe(values[i]);
    } else {
      forall i | 0 <= i < |values| ensures Safe(values[i]) { }
    }
    hide Sum, Present;
  }

  lemma {:induction false} PresentAre(values: seq<Option<int>>)
    ensures Present(values) == |set i: nat | i < |values| && values[i] != None|
  {
    var here := set i: nat | i < |values| && values[i] != None;
    if values == [] {
      assert here == {};
    } else {
      var last := |values| - 1;
      PresentAre(values[..last]);
      assert here == (set i: nat | i < |values[..last]| && values[..last][i] != None) + if values[last] != None then {last} else {};
    }
  }

  /** The registry has a binding of that name at some position. */
  ghost predicate Known(registry: seq<Binding>, ref: string) { exists i :: 0 <= i < |registry| && registry[i].bindingRef == ref }

  lemma KnownIff(registry: seq<Binding>, ref: string)
    ensures Registered(registry, ref) <==> Known(registry, ref)
  {
  }

  /** Some tariff of the snapshot is for a binding that the registry does not have. */
  ghost predicate Stray(registry: seq<Binding>, s: Snapshot, ref: string) {
    !Known(registry, ref) && exists t :: t in s.tariffs && t.bindingRef == ref
  }

  lemma StrayIff(registry: seq<Binding>, s: Snapshot)
    ensures Unregistered(registry, s) == {} <==> forall ref :: !Stray(registry, s, ref)
    ensures forall x :: x in Unregistered(registry, s) <==> x.TariffUnregistered? && Stray(registry, s, x.bindingRef)
  {
    forall x ensures x in Unregistered(registry, s) <==> x.TariffUnregistered? && Stray(registry, s, x.bindingRef) {
      if x.TariffUnregistered? { KnownIff(registry, x.bindingRef); }
    }
    if ref :| Stray(registry, s, ref) {
      assert TariffUnregistered(ref) in Unregistered(registry, s);
    }
    if Unregistered(registry, s) != {} {
      var x :| x in Unregistered(registry, s);
      assert Stray(registry, s, x.bindingRef);
    }
  }

  /**
   A record's line: its prices, unless its binding is unknown or some tariff is for an unknown one, and the reasons of
   its pricing, of every stray tariff, of its binding, and of each price that is missing.
   */
  lemma LineIs(registry: seq<Binding>, s: Snapshot, u: Usage)
    ensures LineOf(registry, s, u).None? <==> PriceOf(u, s).None?
    ensures LineOf(registry, s, u).Some? ==>
              var l, p := LineOf(registry, s, u).value, PriceOf(u, s).value;
              && l.usage == u
              && (Known(registry, u.bindingRef) && (forall ref :: !Stray(registry, s, ref)) ==>
                    l.costObserved == p.costObserved && l.costEstimated == p.costEstimated)
              && (!Known(registry, u.bindingRef) || (exists ref :: Stray(registry, s, ref)) ==>
                    l.costObserved == None && l.costEstimated == None)
    ensures LineOf(registry, s, u).Some? ==>
              var l, p := LineOf(registry, s, u).value, PriceOf(u, s).value;
              forall x :: x in l.reasons <==>
                || x in p.reasons
                || (x.TariffUnregistered? && Stray(registry, s, x.bindingRef))
                || (x == UnknownBinding && !Known(registry, u.bindingRef))
                || (x == ObservedIncomplete && l.costObserved == None)
                || (x == EstimatedIncomplete && l.costEstimated == None)
  {
    KnownIff(registry, u.bindingRef);
    StrayIff(registry, s);
    hide PriceOf, Registered, Known, Stray, Unregistered;
  }

  ghost predicate OnStrong(registry: seq<Binding>, l: Line) {
    exists b :: 0 <= b < |registry| && registry[b].bindingRef == l.usage.bindingRef && registry[b].strong
  }

  lemma OnStrongIff(registry: seq<Binding>, l: Line)
    ensures OnStrong(registry, l) <==> RegisteredStrong(registry, l.usage.bindingRef)
  {
  }

  /** The strong records are those whose binding is registered as strong, in order. */
  lemma {:induction false} StrongAre(registry: seq<Binding>, lines: seq<Line>) returns (at: seq<nat>)
    ensures |at| == |Strong(registry, lines)|
    ensures forall k | 0 <= k < |at| :: at[k] < |lines| && lines[at[k]] == Strong(registry, lines)[k]
    ensures forall j, k | 0 <= j < k < |at| :: at[j] < at[k]
    ensures forall i: nat | i < |lines| :: i in at <==> OnStrong(registry, lines[i])
  {
    if lines == [] {
      at := [];
    } else {
      var last := |lines| - 1;
      var before := StrongAre(registry, lines[..last]);
      at := before + if OnStrong(registry, lines[last]) then [last] else [];
      OnStrongIff(registry, lines[last]);
      assert Strong(registry, lines) == Strong(registry, lines[..last]) + if OnStrong(registry, lines[last]) then [lines[last]] else [];
      AddsPosition(registry, lines, before, at);
    }
  }

  lemma AddsPosition(registry: seq<Binding>, lines: seq<Line>, before: seq<nat>, at: seq<nat>)
    requires lines != [] && at == before + if OnStrong(registry, lines[|lines| - 1]) then [|lines| - 1] else []
    requires forall k | 0 <= k < |before| :: before[k] < |lines| - 1
    requires forall i: nat | i < |lines| - 1 :: i in before <==> OnStrong(registry, lines[..|lines| - 1][i])
    ensures forall i: nat | i < |lines| :: i in at <==> OnStrong(registry, lines[i])
  {
    hide *;
    var last := |lines| - 1;
    forall i: nat | i < |lines| ensures i in at <==> OnStrong(registry, lines[i]) {
      if i < last {
        assert lines[..last][i] == lines[i];
      } else {
        assert i !in before;
      }
    }
  }

  /** The tokens of one kind a record shows: the estimated ones only under a named and versioned estimator. */
  function Shown(u: Usage, observed: bool): PerDimension {
    if observed then u.observed
    else if u.estimatorId != None && u.estimatorVersion != None then u.estimated
    else PerDimension(None, None, None, None)
  }

  /** What is counted dimension by dimension. */
  lemma StrongTokensAre(lines: seq<Line>, kind: Kind)
    requires StrongTokensOf(lines, kind).Some?
    ensures var t, observed := StrongTokensOf(lines, kind).value, kind == ObservedKind;
            && MeasureOf(Map((l: Line) => Shown(l.usage, observed).input, lines)) == Some(t.input)
            && MeasureOf(Map((l: Line) => Shown(l.usage, observed).output, lines)) == Some(t.output)
            && MeasureOf(Map((l: Line) => Shown(l.usage, observed).cachedInput, lines)) == Some(t.cachedInput)
            && MeasureOf(Map((l: Line) => Shown(l.usage, observed).reasoning, lines)) == Some(t.reasoning)
  {
    SameColumns(lines, kind);
    hide MeasureOf, Column, TokensOf;
  }

  lemma SameColumns(lines: seq<Line>, kind: Kind)
    ensures var observed := kind == ObservedKind;
            && Map((l: Line) => Shown(l.usage, observed).input, lines) == Column(lines, (l: Line) => TokensOf(l, kind).input)
            && Map((l: Line) => Shown(l.usage, observed).output, lines) == Column(lines, (l: Line) => TokensOf(l, kind).output)
            && Map((l: Line) => Shown(l.usage, observed).cachedInput, lines) == Column(lines, (l: Line) => TokensOf(l, kind).cachedInput)
            && Map((l: Line) => Shown(l.usage, observed).reasoning, lines) == Column(lines, (l: Line) => TokensOf(l, kind).reasoning)
  {
  }

  /** A record counts towards the total exactly when it shows all four dimensions, and then with their sum. */
  lemma TotalsAre(lines: seq<Line>, kind: Kind) returns (totals: seq<Option<int>>)
    ensures |totals| == |lines|
    ensures forall i | 0 <= i < |lines| ::
              var p := Shown(lines[i].usage, kind == ObservedKind);
              if p.input.Some? && p.output.Some? && p.cachedInput.Some? && p.reasoning.Some?
              then totals[i] == Some(p.input.value + p.output.value + p.cachedInput.value + p.reasoning.value)
              else totals[i] == None
    ensures StrongTokensOf(lines, kind).Some? ==> MeasureOf(totals) == Some(StrongTokensOf(lines, kind).value.total)
    ensures StrongTokensOf(lines, kind).Some? <==>
              var observed := kind == ObservedKind;
              && MeasureOf(Map((l: Line) => Shown(l.usage, observed).input, lines)) != None
              && MeasureOf(Map((l: Line) => Shown(l.usage, observed).output, lines)) != None
              && MeasureOf(Map((l: Line) => Shown(l.usage, observed).cachedInput, lines)) != None
              && MeasureOf(Map((l: Line) => Shown(l.usage, observed).reasoning, lines)) != None
              && MeasureOf(totals) != None
  {
    totals := Column(lines, (l: Line) => AllTokens(TokensOf(l, kind)));
    SameColumns(lines, kind);
    hide MeasureOf;
  }

  /** An aggregate's strong totals are those of its strong lines, and both kinds are there. */
  lemma StrongOfAggregate(registry: seq<Binding>, s: Snapshot, events: seq<Usage>)
    requires AggregateOf(registry, s, events).Some?
    ensures var a := AggregateOf(registry, s, events).value;
            && StrongTokensOf(Strong(registry, a.lines), ObservedKind) == Some(a.strongObserved)
            && StrongTokensOf(Strong(registry, a.lines), EstimatedKind) == Some(a.strongEstimated)
  {
    hide StrongTokensOf, Strong, MeasureOf, LinesOf, Consistent, AllPriced;
  }

  /** The aggregate is given unless a record conflicts, a binding repeats, pricing is refused, or a measure is. */
  lemma GivenIff(registry: seq<Binding>, s: Snapshot, events: seq<Usage>)
    ensures AggregateOf(registry, s, events).Some? <==>
              && (forall i, j | 0 <= i < j < |events| && events[i].usageId == events[j].usageId :: events[i] == events[j])
              && (forall i, j | 0 <= i < j < |registry| :: registry[i].bindingRef != registry[j].bindingRef)
              && (forall i | 0 <= i < |events| :: PriceOf(events[i], s) != None)
              && var lines := LinesOf(registry, s, Records(events));
                 && MeasureOf(Map((l: Line) => l.costObserved, lines)) != None
                 && MeasureOf(Map((l: Line) => l.costEstimated, lines)) != None
                 && StrongTokensOf(Strong(registry, lines), ObservedKind) != None
                 && StrongTokensOf(Strong(registry, lines), EstimatedKind) != None
  {
    hide StrongTokensOf, Strong, MeasureOf, LinesOf, PriceOf, Registered, Unregistered;
    var lines := LinesOf(registry, s, Records(events));
    assert Map((l: Line) => l.costObserved, lines) == Column(lines, CostObservedOf);
    assert Map((l: Line) => l.costEstimated, lines) == Column(lines, CostEstimatedOf);
    assert (forall i | 0 <= i < |events| :: PriceOf(events[i], s) != None) <==> AllPriced(registry, s, events) by {
      hide AggregateOf, Consistent, Column;
      forall i | 0 <= i < |events| ensures PriceOf(events[i], s).Some? <==> LineOf(registry, s, events[i]).Some? { }
    }
    hide AllPriced, Column, LineOf;
  }
}
