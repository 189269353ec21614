/**
 The append-only pilot log (src/pilot/event-store.ts): what a valid log is, how an event is
 appended, and which events are active once invalidations and supersessions are applied.
 */
module EventStore {
  import opened Prelude
  import opened PilotEvents

  /** The content hash of an event and the closed-contract guard, both supplied from outside. */
  datatype Checks = Checks(hash: Event -> string, safe: Event -> bool)

  // ---- Valid logs ------------------------------------------------------------------

  ghost predicate DistinctIds(log: seq<Event>) {
    forall i, j | 0 <= i < j < |log| :: log[i].eventId != log[j].eventId
  }

  predicate HasId(log: seq<Event>, id: string) { exists i | 0 <= i < |log| :: log[i].eventId == id }

  /** The event a map built from the log holds for `id`: the last one carrying it. */
  function Lookup(log: seq<Event>, id: string): (r: Option<Event>)
    ensures r.Some? <==> HasId(log, id)
    ensures r.Some? ==> r.value in log && r.value.eventId == id
  {
    if log == [] then None
    else if log[|log| - 1].eventId == id then Some(log[|log| - 1])
    else
      assert forall i | 0 <= i < |log| - 1 :: log[..|log| - 1][i] == log[i];
      Lookup(log[..|log| - 1], id)
  }

  function BlockCount(log: seq<Event>, blockId: string): nat {
    if log == [] then 0
    else BlockCount(log[..|log| - 1], blockId) + if log[|log| - 1].blockId == blockId then 1 else 0
  }

  /** `id` names an event of the log whose content hash is `expected`. */
  predicate Known(k: Checks, log: seq<Event>, id: string, expected: string) {
    var found := Lookup(log, id);
    found.Some? && k.hash(found.value) == expected
  }

  predicate ReferencesKnown(k: Checks, log: seq<Event>, e: Event) {
    && (e.supersedes.Some? ==> Known(k, log, e.supersedes.value.eventId, e.supersedes.value.expectedHash))
    && (e.body.EventInvalidated? ==> Known(k, log, e.body.invalidatedId, e.body.expectedHash))
  }

  /** What one event must satisfy to follow `log`. */
  predicate Follows(k: Checks, log: seq<Event>, e: Event) {
    && k.safe(e)
    && !HasId(log, e.eventId)
    && e.sequence == BlockCount(log, e.blockId) + 1
    && ReferencesKnown(k, log, e)
  }

  ghost predicate ValidLog(k: Checks, log: seq<Event>) {
    forall i | 0 <= i < |log| :: Follows(k, log[..i], log[i])
  }

  lemma ValidPrefix(k: Checks, log: seq<Event>, n: nat)
    requires ValidLog(k, log) && n <= |log|
    ensures ValidLog(k, log[..n])
  {
    forall i | 0 <= i < n
      ensures Follows(k, log[..n][..i], log[..n][i])
    {
      assert log[..n][..i] == log[..i];
    }
  }

  lemma ValidExtend(k: Checks, log: seq<Event>, e: Event)
    ensures ValidLog(k, log + [e]) <==> ValidLog(k, log) && Follows(k, log, e)
  {
    var longer := log + [e];
    assert longer[..|log|] == log;
    if ValidLog(k, longer) {
      ValidPrefix(k, longer, |log|);
      assert Follows(k, longer[..|log|], longer[|log|]);
    }
    if ValidLog(k, log) && Follows(k, log, e) {
      forall i | 0 <= i < |longer|
        ensures Follows(k, longer[..i], longer[i])
      {
        assert longer[..i] == if i < |log| then log[..i] else log;
      }
    }
  }

  lemma ValidDistinct(k: Checks, log: seq<Event>)
    requires ValidLog(k, log)
    ensures DistinctIds(log)
  {
    forall i, j | 0 <= i < j < |log|
      ensures log[i].eventId != log[j].eventId
    {
      assert Follows(k, log[..j], log[j]);
      assert log[..j][i] == log[i];
    }
  }

  /** In a valid log, references only reach back. */
  lemma ReferencesReachBack(k: Checks, log: seq<Event>, i: nat, j: nat)
    requires ValidLog(k, log) && i < |log| && j < |log|
    requires Invalidates(log[j], log[i].eventId) || Supersedes(log[j], log[i].eventId)
    ensures i < j
  {
    ValidDistinct(k, log);
    assert Follows(k, log[..j], log[j]);
    var at :| 0 <= at < |log[..j]| && log[..j][at].eventId == log[i].eventId;
    assert log[at].eventId == log[i].eventId;
  }

  /** The bookkeeping of a validation pass: the ids seen and each block's next sequence number. */
  ghost predicate Tracks(ids: set<string>, next: map<string, int>, log: seq<Event>) {
    && (forall id :: id in ids <==> HasId(log, id))
    && (forall b :: (if b in next then next[b] else 1) == BlockCount(log, b) + 1)
  }

  lemma TracksExtend(ids: set<string>, next: map<string, int>, log: seq<Event>, e: Event)
    requires Tracks(ids, next, log)
    ensures Tracks(ids + {e.eventId}, next[e.blockId := BlockCount(log, e.blockId) + 2], log + [e])
  {
    var longer := log + [e];
    assert longer[..|log|] == log && longer[|log|] == e;
    forall id
      ensures HasId(longer, id) <==> HasId(log, id) || id == e.eventId
    {
      assert forall i | 0 <= i < |log| :: longer[i] == log[i];
    }
  }

  /** `assertValidLog`: one pass with a set of ids and the next sequence number of each block. */
  method AssertValidLog(k: Checks, log: seq<Event>) returns (ok: bool)
    ensures ok <==> ValidLog(k, log)
  {
    var ids: set<string> := {};
    var next: map<string, int> := map[];
    for i := 0 to |log|
      invariant forall j | 0 <= j < i :: Follows(k, log[..j], log[j])
      invariant Tracks(ids, next, log[..i])
    {
      var event, before := log[i], log[..i];
      var expected := if event.blockId in next then next[event.blockId] else 1;
      var follows := k.safe(event) && event.eventId !in ids && event.sequence == expected && ReferencesKnown(k, before, event);
      assert follows <==> Follows(k, before, event);
      if !follows {
        return false;
      }
      TracksExtend(ids, next, before, event);
      assert log[..i + 1] == before + [event];
      ids := ids + {event.eventId};
      next := next[event.blockId := expected + 1];
    }
    return true;
  }

  // ---- Appending -------------------------------------------------------------------

  /** `appendEvent` on a log that already passed validation. */
  function Append(k: Checks, log: seq<Event>, e: Event): Result<seq<Event>> {
    if !k.safe(e) then Err("UNSAFE_EVENT")
    else
      var existing := Lookup(log, e.eventId);
      if existing.Some? then
        if existing.value == e then Ok(log) else Err("EVENT_ID_CONFLICT")
      else if e.sequence != BlockCount(log, e.blockId) + 1 then Err("SEQUENCE_GAP")
      else if !ReferencesKnown(k, log, e) then Err("UNKNOWN_OR_CHANGED_REFERENCE")
      else Ok(log + [e])
  }

  method AppendEvent(k: Checks, log: seq<Event>, e: Event) returns (r: Result<seq<Event>>)
    ensures !ValidLog(k, log) ==> r.Err?
    ensures r.Ok? ==> ValidLog(k, r.value) && e in r.value
    ensures ValidLog(k, log) && e !in log ==> (r.Ok? <==> ValidLog(k, log + [e])) && (r.Ok? ==> r.value == log + [e])
    ensures ValidLog(k, log) && e in log ==> r == Ok(log)
  {
    var ok := AssertValidLog(k, log);
    if !ok {
      return Err("INVALID_LOG");
    }
    AppendAccepts(k, log, e);
    r := Append(k, log, e);
  }

  /** A new event is accepted exactly when the longer log is valid; a retry of a stored event changes nothing. */
  lemma AppendAccepts(k: Checks, log: seq<Event>, e: Event)
    requires ValidLog(k, log)
    ensures e !in log ==> (Append(k, log, e).Ok? <==> ValidLog(k, log + [e]))
    ensures e !in log && Append(k, log, e).Ok? ==> Append(k, log, e).value == log + [e]
    ensures e in log ==> Append(k, log, e) == Ok(log)
  {
    ValidExtend(k, log, e);
    if e in log {
      var at :| 0 <= at < |log| && log[at] == e;
      assert HasId(log, e.eventId);
      var found := Lookup(log, e.eventId).value;
      var j :| 0 <= j < |log| && log[j] == found;
      ValidDistinct(k, log);
      assert at == j;
      assert Follows(k, log[..at], log[at]);
    }
  }

  /** A log is grown one accepted append at a time. */
  predicate Grown(k: Checks, log: seq<Event>) {
    log == [] ||
    var shorter := log[..|log| - 1];
    Grown(k, shorter) && log[|log| - 1] !in shorter && Append(k, shorter, log[|log| - 1]) == Ok(log)
  }

  /** The valid logs are exactly the ones appending produces from the empty log. */
  lemma {:induction false} ValidIffGrown(k: Checks, log: seq<Event>)
    ensures ValidLog(k, log) <==> Grown(k, log)
  {
    if log != [] {
      var shorter, last := log[..|log| - 1], log[|log| - 1];
      assert log == shorter + [last];
      ValidIffGrown(k, shorter);
      ValidExtend(k, shorter, last);
      if ValidLog(k, shorter) {
        AppendAccepts(k, shorter, last);
      }
    }
  }

  // ---- Active events: the well-founded meaning -------------------------------------

  /** An invalidation takes effect unless a later effective invalidation targets it. */
  ghost predicate Effective(log: seq<Event>, i: nat)
    requires i < |log|
    decreases |log| - i
  {
    IsInvalidation(log[i]) && forall j | i < j < |log| :: Invalidates(log[j], log[i].eventId) ==> !Effective(log, j)
  }

  /** Some effective invalidation targets the event called `id`. */
  ghost predicate Struck(log: seq<Event>, id: string) {
    exists j | 0 <= j < |log| :: Invalidates(log[j], id) && Effective(log, j)
  }

  /** The event supersedes `id`, and nothing effective strikes it out. */
  ghost predicate Replaces(log: seq<Event>, j: nat, id: string)
    requires j < |log|
  {
    Supersedes(log[j], id) && !IsInvalidation(log[j]) && !Struck(log, log[j].eventId)
  }

  /** Some event among the first `n` replaces `id`. */
  ghost predicate ReplacedBelow(log: seq<Event>, n: nat, id: string)
    requires n <= |log|
  {
    exists j | 0 <= j < n :: Replaces(log, j, id)
  }

  ghost predicate Active(log: seq<Event>, i: nat)
    requires i < |log|
  {
    && !IsInvalidation(log[i])
    && !Struck(log, log[i].eventId)
    && !ReplacedBelow(log, |log|, log[i].eventId)
  }

  /** The active events among the first `n`, in log order. */
  ghost function ActiveUpTo(log: seq<Event>, n: nat): seq<Event>
    requires n <= |log|
  {
    if n == 0 then [] else ActiveUpTo(log, n - 1) + if Active(log, n - 1) then [log[n - 1]] else []
  }

  ghost function ActiveOf(log: seq<Event>): seq<Event> { ActiveUpTo(log, |log|) }

  /** What the backward pass has collected once it has handled positions `n` and up. */
  ghost predicate Collected(log: seq<Event>, n: nat, id: string)
    requires n <= |log|
  {
    exists j | n <= j < |log| :: IsInvalidation(log[j]) && (log[j].eventId == id || (Invalidates(log[j], id) && Effective(log, j)))
  }

  lemma CollectedBelow(k: Checks, log: seq<Event>, n: nat, id: string)
    requires ValidLog(k, log) && n < |log|
    ensures Collected(log, n, id) <==>
            Collected(log, n + 1, id) ||
            (IsInvalidation(log[n]) && (id == log[n].eventId || (Invalidates(log[n], id) && Effective(log, n))))
  {
  }

  lemma EffectiveTest(k: Checks, log: seq<Event>, n: nat)
    requires ValidLog(k, log) && n < |log| && IsInvalidation(log[n])
    ensures Effective(log, n) <==> !Collected(log, n + 1, log[n].eventId)
  {
    ValidDistinct(k, log);
  }

  /** After the backward pass an id is collected iff its event is an invalidation or is struck. */
  lemma CollectedMeaning(k: Checks, log: seq<Event>, i: nat)
    requires ValidLog(k, log) && i < |log|
    ensures Collected(log, 0, log[i].eventId) <==> IsInvalidation(log[i]) || Struck(log, log[i].eventId)
  {
    ValidDistinct(k, log);
  }

  method KeepActive(log: seq<Event>, inactive: set<string>) returns (active: seq<Event>)
    requires forall i | 0 <= i < |log| :: log[i].eventId in inactive <==> !Active(log, i)
    ensures active == ActiveOf(log)
  {
    active := [];
    for i := 0 to |log|
      invariant active == ActiveUpTo(log, i)
    {
      if log[i].eventId !in inactive {
        active := active + [log[i]];
      }
    }
  }

  method CollectInvalidated(k: Checks, log: seq<Event>) returns (inactive: set<string>)
    requires ValidLog(k, log)
    ensures forall i | 0 <= i < |log| :: log[i].eventId in inactive <==> IsInvalidation(log[i]) || Struck(log, log[i].eventId)
  {
    inactive := {};
    var index := |log|;
    while index > 0
      invariant 0 <= index <= |log|
      invariant forall id :: id in inactive <==> Collected(log, index, id)
    {
      index := index - 1;
      var event := log[index];
      forall id { CollectedBelow(k, log, index, id); }
      if event.body.EventInvalidated? {
        EffectiveTest(k, log, index);
        if event.eventId !in inactive {
          inactive := inactive + {event.body.invalidatedId};
        }
        inactive := inactive + {event.eventId};
      }
    }
    forall i | 0 <= i < |log| { CollectedMeaning(k, log, i); }
  }

  lemma NotReplacedBelow(k: Checks, log: seq<Event>, i: nat)
    requires ValidLog(k, log) && i < |log|
    ensures !ReplacedBelow(log, i, log[i].eventId)
  {
    forall j | 0 <= j < i
      ensures !Replaces(log, j, log[i].eventId)
    {
      if Supersedes(log[j], log[i].eventId) {
        ReferencesReachBack(k, log, i, j);
      }
    }
  }

  lemma ReplacedStep(log: seq<Event>, i: nat, id: string)
    requires i < |log|
    ensures ReplacedBelow(log, i + 1, id) <==> ReplacedBelow(log, i, id) || Replaces(log, i, id)
  {
  }

  method CollectSuperseded(k: Checks, log: seq<Event>, struck: set<string>) returns (inactive: set<string>)
    requires ValidLog(k, log)
    requires forall i | 0 <= i < |log| :: log[i].eventId in struck <==> IsInvalidation(log[i]) || Struck(log, log[i].eventId)
    ensures forall i | 0 <= i < |log| :: log[i].eventId in inactive <==> !Active(log, i)
  {
    inactive := struck;
    for i := 0 to |log|
      invariant forall id :: id in inactive <==> id in struck || ReplacedBelow(log, i, id)
    {
      NotReplacedBelow(k, log, i);
      forall id { ReplacedStep(log, i, id); }
      if log[i].eventId !in inactive && log[i].supersedes.Some? {
        inactive := inactive + {log[i].supersedes.value.eventId};
      }
    }
  }

  /** `activeEvents`: a backward pass over invalidations, a forward pass over supersessions, then a filter. */
  method ActiveEvents(k: Checks, log: seq<Event>) returns (r: Result<seq<Event>>)
    ensures r.Ok? <==> ValidLog(k, log)
    ensures r.Ok? ==> r.value == ActiveOf(log)
  {
    var ok := AssertValidLog(k, log);
    if !ok {
      return Err("INVALID_LOG");
    }
    var struck := CollectInvalidated(k, log);
    var inactive := CollectSuperseded(k, log, struck);
    var active := KeepActive(log, inactive);
    return Ok(active);
  }

  // ---- What corrections do ---------------------------------------------------------

  /** An effective invalidation at position `n` or later targets the event called `id`. */
  ghost predicate Reached(log: seq<Event>, n: nat, id: string) {
    exists j | n <= j < |log| :: Invalidates(log[j], id) && Effective(log, j)
  }

  ghost predicate Extends(longer: seq<Event>, log: seq<Event>) {
    |log| <= |longer| && longer[..|log|] == log
  }

  /** Extending a log leaves effectiveness alone as long as no new effective invalidation reaches an old one. */
  lemma {:induction false} EffectiveStable(log: seq<Event>, longer: seq<Event>, i: nat)
    requires Extends(longer, log) && i < |log|
    requires forall m | i <= m < |log| && IsInvalidation(log[m]) :: !Reached(longer, |log|, log[m].eventId)
    ensures Effective(longer, i) <==> Effective(log, i)
    decreases |log| - i
  {
    assert forall m | 0 <= m < |log| :: longer[m] == log[m];
    forall m | i < m < |log|
      ensures Effective(longer, m) <==> Effective(log, m)
    {
      EffectiveStable(log, longer, m);
    }
  }

  /** Strikes after an extension that leaves old invalidations alone: the old strikes and the new ones. */
  lemma StrikesAfter(log: seq<Event>, longer: seq<Event>)
    requires Extends(longer, log)
    requires forall m | 0 <= m < |log| && IsInvalidation(log[m]) :: !Reached(longer, |log|, log[m].eventId)
    ensures forall id :: Struck(longer, id) <==> Struck(log, id) || Reached(longer, |log|, id)
  {
    forall m | 0 <= m < |log|
      ensures longer[m] == log[m] && (Effective(longer, m) <==> Effective(log, m))
    {
      EffectiveStable(log, longer, m);
    }
    forall id
      ensures Struck(longer, id) <==> Struck(log, id) || Reached(longer, |log|, id)
    {
      if Struck(log, id) {
        var j :| 0 <= j < |log| && Invalidates(log[j], id) && Effective(log, j);
        assert Invalidates(longer[j], id) && Effective(longer, j);
      }
      if Struck(longer, id) && !Reached(longer, |log|, id) {
        var j :| 0 <= j < |longer| && Invalidates(longer[j], id) && Effective(longer, j);
        assert j < |log|;
        assert Invalidates(log[j], id) && Effective(log, j);
      }
    }
  }

  /** A trailing part of a log that adds no active event and leaves earlier verdicts alone projects to nothing new. */
  lemma {:induction false} ActivePrefix(log: seq<Event>, longer: seq<Event>, n: nat)
    requires n <= |log| <= |longer| && longer[..|log|] == log
    requires forall i | 0 <= i < n :: Active(longer, i) <==> Active(log, i)
    ensures ActiveUpTo(longer, n) == ActiveUpTo(log, n)
  {
    if n > 0 {
      ActivePrefix(log, longer, n - 1);
      assert longer[n - 1] == log[n - 1];
    }
  }

  /**
   Invalidating the event just appended undoes it: whatever the event was (plain, superseding, or
   itself an invalidation), the projection is again that of the log before it.
   */
  lemma InvalidationUndoes(k: Checks, log: seq<Event>, e: Event, undo: Event)
    requires ValidLog(k, log + [e] + [undo])
    requires Invalidates(undo, e.eventId)
    ensures ActiveOf(log + [e] + [undo]) == ActiveOf(log)
  {
    var longer, n := log + [e] + [undo], |log|;
    ValidDistinct(k, longer);
    assert longer[n] == e && longer[n + 1] == undo;
    assert forall m | 0 <= m < n :: longer[m] == log[m];
    assert Effective(longer, n + 1) && Invalidates(longer[n + 1], e.eventId);
    assert forall m | 0 <= m < n :: !Reached(longer, n, log[m].eventId);
    StrikesAfter(log, longer);
    assert Struck(longer, e.eventId);
    forall i | 0 <= i < n
      ensures Active(longer, i) <==> Active(log, i)
    {
      SameReplacers(log, longer, log[i].eventId);
      ReplacedStep(longer, n, log[i].eventId);
      ReplacedStep(longer, n + 1, log[i].eventId);
    }
    ActivePrefix(log, longer, n);
    assert ActiveUpTo(longer, n + 1) == ActiveUpTo(longer, n);
    assert ActiveUpTo(longer, n + 2) == ActiveUpTo(longer, n + 1);
  }

  lemma SameReplacers(log: seq<Event>, longer: seq<Event>, id: string)
    requires Extends(longer, log)
    requires forall m | 0 <= m < |log| :: Struck(longer, log[m].eventId) <==> Struck(log, log[m].eventId)
    ensures ReplacedBelow(longer, |log|, id) <==> ReplacedBelow(log, |log|, id)
  {
    forall j | 0 <= j < |log|
      ensures Replaces(longer, j, id) <==> Replaces(log, j, id)
    {
      assert longer[j] == log[j];
    }
  }

  /** A correction takes the place of its target: every other verdict stands, and the correction is active. */
  lemma CorrectionReplaces(k: Checks, log: seq<Event>, e: Event)
    requires ValidLog(k, log + [e]) && !IsInvalidation(e)
    ensures Active(log + [e], |log|)
    ensures forall i | 0 <= i < |log| :: Active(log + [e], i) <==> Active(log, i) && !Supersedes(e, log[i].eventId)
  {
    var longer, n := log + [e], |log|;
    assert longer[n] == e;
    assert forall m | 0 <= m < n :: longer[m] == log[m];
    assert forall id :: !Reached(longer, n, id);
    StrikesAfter(log, longer);
    forall j | 0 <= j < |longer|
      ensures !Invalidates(longer[j], e.eventId) && !Supersedes(longer[j], e.eventId)
    {
      if Invalidates(longer[j], longer[n].eventId) || Supersedes(longer[j], longer[n].eventId) {
        ReferencesReachBack(k, longer, n, j);
      }
    }
    assert !Struck(longer, e.eventId);
    forall i | 0 <= i < n
      ensures Active(longer, i) <==> Active(log, i) && !Supersedes(e, log[i].eventId)
    {
      SameReplacers(log, longer, log[i].eventId);
      ReplacedStep(longer, n, log[i].eventId);
    }
  }

  /**
   Invalidating a superseding event `log[s]` restores its target `log[t]` exactly when nothing else
   deactivates the target: it is no invalidation, nothing strikes it, and no other live event replaces it.
   */
  lemma InvalidationRestores(k: Checks, log: seq<Event>, undo: Event, s: nat, t: nat)
    requires ValidLog(k, log + [undo]) && s < |log| && t < |log|
    requires Invalidates(undo, log[s].eventId) && !IsInvalidation(log[s]) && Supersedes(log[s], log[t].eventId)
    ensures Active(log + [undo], t) <==>
            && !IsInvalidation(log[t])
            && !Struck(log, log[t].eventId)
            && !exists j | 0 <= j < |log| :: j != s && Replaces(log, j, log[t].eventId)
    ensures !Active(log + [undo], s)
  {
    var longer, n := log + [undo], |log|;
    StrikesOnlyTarget(k, log, undo, s);
    ReplacedStep(longer, n, log[t].eventId);
    forall j | 0 <= j < n
      ensures Replaces(longer, j, log[t].eventId) <==> j != s && Replaces(log, j, log[t].eventId)
    {
      assert longer[j] == log[j];
    }
    assert s != t by { ReferencesReachBack(k, longer, t, s); }
  }

  /** An invalidation of a plain event strikes that event and changes no other strike. */
  lemma StrikesOnlyTarget(k: Checks, log: seq<Event>, undo: Event, s: nat)
    requires ValidLog(k, log + [undo]) && s < |log|
    requires Invalidates(undo, log[s].eventId) && !IsInvalidation(log[s])
    ensures forall i | 0 <= i < |log| :: Struck(log + [undo], log[i].eventId) <==> i == s || Struck(log, log[i].eventId)
  {
    var longer, n := log + [undo], |log|;
    assert longer[n] == undo && Effective(longer, n);
    forall m | 0 <= m < n
      ensures longer[m] == log[m] && (Reached(longer, n, log[m].eventId) <==> m == s)
    {
      SameIdSamePlace(k, longer, m, s);
    }
    StrikesAfter(log, longer);
  }

  lemma SameIdSamePlace(k: Checks, log: seq<Event>, i: nat, j: nat)
    requires ValidLog(k, log) && i < |log| && j < |log|
    ensures log[i].eventId == log[j].eventId <==> i == j
  {
    ValidDistinct(k, log);
  }
}
