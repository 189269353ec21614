/**
 The order in which the reducer reads a raw log for one block (src/pilot/reducer.ts): that block first,
 then the others by id, each in sequence. Reading forgets the input order, and a valid log stays valid
 exactly when its corrections cite no event that the order puts later.
 */
module AuditOrder {
  import opened Prelude
  import opened PilotEvents
  import opened Sorting
  import opened StateMachine
  import E = EventStore

  /** The comparator of `orderedAudit`. */
  predicate AuditLe(target: string, a: Event, b: Event) {
    if (a.blockId == target) != (b.blockId == target) then a.blockId == target
    else if a.blockId != b.blockId then StringLe(a.blockId, b.blockId)
    else if a.sequence != b.sequence then a.sequence < b.sequence
    else StringLe(a.eventId, b.eventId)
  }

  function Audit(target: string): (Event, Event) -> bool { (a: Event, b: Event) => AuditLe(target, a, b) }

  function OrderedAudit(events: seq<Event>, target: string): seq<Event> { Sort(events, Audit(target)) }

  lemma AuditTransitive(target: string, a: Event, b: Event, c: Event)
    requires AuditLe(target, a, b) && AuditLe(target, b, c)
    ensures AuditLe(target, a, c)
  {
    hide StringLe;
    StringOrder();
    assert StringLe(a.blockId, b.blockId) && StringLe(b.blockId, c.blockId) ==> StringLe(a.blockId, c.blockId);
    assert StringLe(a.eventId, b.eventId) && StringLe(b.eventId, c.eventId) ==> StringLe(a.eventId, c.eventId);
    assert StringLe(a.blockId, b.blockId) && StringLe(b.blockId, a.blockId) ==> a.blockId == b.blockId;
  }

  lemma AuditOrders(target: string)
    ensures TotalPreorder(Audit(target))
    ensures forall a, b :: Audit(target)(a, b) && Audit(target)(b, a) ==> a.eventId == b.eventId
  {
    StringOrder();
    forall a, b ensures Audit(target)(a, b) || Audit(target)(b, a) {
      assert (StringLe(a.blockId, b.blockId) || StringLe(b.blockId, a.blockId)) && (StringLe(a.eventId, b.eventId) || StringLe(b.eventId, a.eventId));
    }
    forall a, b, c | Audit(target)(a, b) && Audit(target)(b, c) ensures Audit(target)(a, c) {
      AuditTransitive(target, a, b, c);
    }
    forall a, b | Audit(target)(a, b) && Audit(target)(b, a) ensures a.eventId == b.eventId {
      assert StringLe(a.blockId, b.blockId) && StringLe(b.blockId, a.blockId) ==> a.blockId == b.blockId;
    }
  }

  lemma SeparatedById(target: string, s: seq<Event>)
    requires E.DistinctIds(s)
    ensures Separates(Audit(target), s)
  {
    AuditOrders(target);
    forall x, y | x in s && y in s && Audit(target)(x, y) && Audit(target)(y, x)
      ensures x == y
    {
      var i :| 0 <= i < |s| && s[i] == x;
      var j :| 0 <= j < |s| && s[j] == y;
      assert s[i].eventId == s[j].eventId;
    }
  }

  /** With distinct event ids the input order is forgotten altogether. */
  lemma AuditForgetsOrder(target: string, s: seq<Event>, t: seq<Event>)
    requires multiset(s) == multiset(t) && E.DistinctIds(s)
    ensures OrderedAudit(s, target) == OrderedAudit(t, target)
  {
    AuditOrders(target);
    SeparatedById(target, s);
    SortCanonical(s, t, Audit(target));
  }

  lemma DistinctIdsPermute(s: seq<Event>, t: seq<Event>)
    requires multiset(s) == multiset(t) && E.DistinctIds(s)
    ensures E.DistinctIds(t)
  {
    assert Distinct(s);
    DistinctUnderPermutation(s, t);
    SameMembers(s, t);
    forall i, j | 0 <= i < j < |t| ensures t[i].eventId != t[j].eventId {
      assert t[i] in s && t[j] in s;
      var k :| 0 <= k < |s| && s[k] == t[i];
      var l :| 0 <= l < |s| && s[l] == t[j];
      assert if k < l then s[k].eventId != s[l].eventId else s[l].eventId != s[k].eventId;
    }
  }

  // ---- One block's events --------------------------------------------------------------

  ghost predicate SequenceRises(s: seq<Event>) { forall i, j | 0 <= i < j < |s| :: s[i].sequence < s[j].sequence }

  ghost predicate Numbered(s: seq<Event>) { forall i | 0 <= i < |s| :: s[i].sequence == i + 1 }

  lemma {:induction false} OfBlockSize(log: seq<Event>, id: string)
    ensures |OfBlock(log, id)| == E.BlockCount(log, id)
  {
    if log != [] {
      OfBlockSize(log[..|log| - 1], id);
    }
  }

  /** In a valid log each block's events are numbered from one. */
  lemma {:induction false} BlockNumbered(k: E.Checks, log: seq<Event>, id: string)
    requires E.ValidLog(k, log)
    ensures Numbered(OfBlock(log, id))
  {
    if log != [] {
      var before := log[..|log| - 1];
      E.ValidPrefix(k, log, |log| - 1);
      BlockNumbered(k, before, id);
      OfBlockSize(before, id);
      assert E.Follows(k, log[..|log| - 1], log[|log| - 1]);
    }
  }

  lemma {:induction false} OfBlockPermutes(s: seq<Event>, t: seq<Event>, id: string)
    requires multiset(s) == multiset(t)
    ensures multiset(OfBlock(s, id)) == multiset(OfBlock(t, id))
  {
    OfBlockCounts(s, id);
    OfBlockCounts(t, id);
    forall e ensures multiset(OfBlock(s, id))[e] == multiset(OfBlock(t, id))[e] {
    }
  }

  lemma {:induction false} OfBlockCounts(s: seq<Event>, id: string)
    ensures forall e :: multiset(OfBlock(s, id))[e] == if e.blockId == id then multiset(s)[e] else 0
  {
    if s != [] {
      OfBlockCounts(s[..|s| - 1], id);
      assert s == s[..|s| - 1] + [s[|s| - 1]];
    }
  }

  lemma {:induction false} OfBlockOrdered(s: seq<Event>, target: string, id: string)
    requires Sorted(s, Audit(target))
    ensures Sorted(OfBlock(s, id), Audit(target))
  {
    if s != [] {
      var before, last := s[..|s| - 1], s[|s| - 1];
      OfBlockIn(before, id);
      OfBlockOrdered(before, target, id);
      forall e | e in before ensures Audit(target)(e, last) {
        var i :| 0 <= i < |before| && before[i] == e;
        assert s[i] == e;
      }
    }
  }

  lemma NumberedOrder(a: seq<Event>, b: seq<Event>, target: string, id: string)
    requires multiset(a) == multiset(b) && Sorted(a, Audit(target)) && Numbered(b)
    requires forall e | e in b :: e.blockId == id
    ensures a == b
  {
    forall i, j | 0 <= i < j < |b| ensures Audit(target)(b[i], b[j]) {
      assert b[i] in b && b[j] in b;
    }
    forall x, y | x in b && y in b && Audit(target)(x, y) && Audit(target)(y, x) ensures x == y {
      var i :| 0 <= i < |b| && b[i] == x;
      var j :| 0 <= j < |b| && b[j] == y;
      assert b[i].sequence == b[j].sequence;
    }
    SortedUnique(b, a, Audit(target));
  }

  /** Reading a valid log in audit order keeps every block's own order. */
  lemma AuditKeepsBlocks(k: E.Checks, log: seq<Event>, target: string, id: string)
    requires E.ValidLog(k, log)
    ensures OfBlock(OrderedAudit(log, target), id) == OfBlock(log, id)
  {
    var s := OrderedAudit(log, target);
    AuditOrders(target);
    SortPermutes(log, Audit(target));
    SortSorts(log, Audit(target));
    hide E.ValidLog, OrderedAudit, Sort, Sorted, Audit, OfBlock, Numbered;
    OfBlockPermutes(s, log, id);
    OfBlockOrdered(s, target, id);
    BlockNumbered(k, log, id);
    OfBlockIn(log, id);
    NumberedOrder(OfBlock(s, id), OfBlock(log, id), target, id);
  }

  lemma {:induction false} OfBlockIn(s: seq<Event>, id: string)
    ensures forall e | e in OfBlock(s, id) :: e in s && e.blockId == id
  {
    if s != [] {
      OfBlockIn(s[..|s| - 1], id);
    }
  }

  /** An event's place among its block's events is the number of them before it. */
  lemma {:induction false} OfBlockAt(s: seq<Event>, p: nat, id: string)
    requires p < |s| && s[p].blockId == id
    ensures E.BlockCount(s[..p], id) < |OfBlock(s, id)|
    ensures OfBlock(s, id)[E.BlockCount(s[..p], id)] == s[p]
  {
    var before := s[..|s| - 1];
    if p == |s| - 1 {
      OfBlockSize(before, id);
    } else {
      OfBlockAt(before, p, id);
      assert before[..p] == s[..p];
    }
  }

  lemma SequencesKept(k: E.Checks, log: seq<Event>, target: string, p: nat)
    requires E.ValidLog(k, log) && p < |OrderedAudit(log, target)|
    ensures var s := OrderedAudit(log, target); s[p].sequence == E.BlockCount(s[..p], s[p].blockId) + 1
  {
    var s := OrderedAudit(log, target);
    AuditKeepsBlocks(k, log, target, s[p].blockId);
    BlockNumbered(k, log, s[p].blockId);
    OfBlockAt(s, p, s[p].blockId);
  }

  // ---- Citations -----------------------------------------------------------------------

  /** `e` corrects the event called `id`: supersedes or invalidates it. */
  predicate Cites(e: Event, id: string) { Supersedes(e, id) || Invalidates(e, id) }

  /** Corrections of events of other blocks only cite events that the order for `target` puts earlier. */
  ghost predicate CitesEarlier(log: seq<Event>, target: string) {
    forall e, g | e in log && g in log && Cites(e, g.eventId) && g.blockId != e.blockId :: AuditLe(target, g, e)
  }

  lemma UniqueById(log: seq<Event>, a: Event, b: Event)
    requires E.DistinctIds(log) && a in log && b in log && a.eventId == b.eventId
    ensures a == b
  {
    var i :| 0 <= i < |log| && log[i] == a;
    var j :| 0 <= j < |log| && log[j] == b;
  }

  /** Looking an id up in a part of a log with distinct ids finds its event there, or nothing. */
  lemma LookupPart(log: seq<Event>, part: seq<Event>, g: Event)
    requires E.DistinctIds(log) && g in log && forall e | e in part :: e in log
    ensures E.Lookup(part, g.eventId) == if g in part then Some(g) else None
  {
    if g in part {
      var i :| 0 <= i < |part| && part[i] == g;
      assert E.HasId(part, g.eventId);
    }
    if E.Lookup(part, g.eventId).Some? {
      UniqueById(log, E.Lookup(part, g.eventId).value, g);
    }
  }

  /** What a correction in a valid log cites is an earlier event of it, with the stated hash. */
  lemma CitedInLog(k: E.Checks, log: seq<Event>, e: Event, id: string) returns (g: Event)
    requires E.ValidLog(k, log) && e in log && Cites(e, id)
    ensures g in log && g.eventId == id && g != e
    ensures Supersedes(e, id) ==> k.hash(g) == e.supersedes.value.expectedHash
    ensures Invalidates(e, id) ==> k.hash(g) == e.body.expectedHash
    ensures g.blockId == e.blockId ==> g.sequence < e.sequence
  {
    var j :| 0 <= j < |log| && log[j] == e;
    var part := log[..j];
    assert E.Follows(k, part, log[j]);
    g := E.Lookup(part, id).value;
    var i :| 0 <= i < |part| && part[i] == g;
    assert log[i] == g;
    E.ValidDistinct(k, log);
    if g.blockId == e.blockId {
      assert E.Follows(k, log[..i], log[i]);
      BlockCountRises(log, i, j, e.blockId);
    }
  }

  lemma {:induction false} BlockCountRises(log: seq<Event>, i: nat, j: nat, id: string)
    requires i < j <= |log| && log[i].blockId == id
    ensures E.BlockCount(log[..i], id) < E.BlockCount(log[..j], id)
  {
    var part := log[..j];
    assert part[..j - 1] == log[..j - 1];
    if i < j - 1 {
      BlockCountRises(log, i, j - 1, id);
    }
  }

  /** Everything an event cites is among the first `p` events of `s`. */
  ghost predicate CitedBefore(s: seq<Event>, p: nat)
    requires p < |s|
  {
    forall g | g in s && Cites(s[p], g.eventId) :: g in s[..p]
  }

  lemma FollowsIff(k: E.Checks, log: seq<Event>, target: string, p: nat)
    requires E.ValidLog(k, log) && p < |OrderedAudit(log, target)|
    ensures var s := OrderedAudit(log, target); E.Follows(k, s[..p], s[p]) <==> CitedBefore(s, p)
  {
    var s := OrderedAudit(log, target);
    SortPermutes(log, Audit(target));
    E.ValidDistinct(k, log);
    DistinctIdsPermute(log, s);
    SequencesKept(k, log, target, p);
    var e := s[p];
    assert e in log;
    SafeMember(k, log, e);
    assert !E.HasId(s[..p], e.eventId);
    hide OrderedAudit, E.ValidLog;
    forall id | Cites(e, id)
      ensures exists g :: g in log && g.eventId == id && (E.Lookup(s[..p], id) == if g in s[..p] then Some(g) else None)
                        && (Supersedes(e, id) ==> k.hash(g) == e.supersedes.value.expectedHash)
                        && (Invalidates(e, id) ==> k.hash(g) == e.body.expectedHash)
    {
      var g := CitedInLog(k, log, e, id);
      LookupPart(log, s[..p], g);
    }
    if CitedBefore(s, p) {
      assert E.ReferencesKnown(k, s[..p], e);
    }
    if E.ReferencesKnown(k, s[..p], e) {
      forall g | g in s && Cites(e, g.eventId) ensures g in s[..p] {
        LookupPart(log, s[..p], g);
      }
    }
  }

  lemma SafeMember(k: E.Checks, log: seq<Event>, e: Event)
    requires E.ValidLog(k, log) && e in log
    ensures k.safe(e)
  {
    var j :| 0 <= j < |log| && log[j] == e;
    assert E.Follows(k, log[..j], log[j]);
  }

  lemma BeforeIffLess(s: seq<Event>, target: string, p: nat, g: Event)
    requires Sorted(s, Audit(target)) && E.DistinctIds(s) && p < |s| && g in s && g != s[p]
    ensures g in s[..p] <==> AuditLe(target, g, s[p])
  {
    var q :| 0 <= q < |s| && s[q] == g;
    AuditOrders(target);
    if q < p {
      assert s[..p][q] == g;
      assert Audit(target)(s[q], s[p]);
    } else {
      assert Audit(target)(s[p], s[q]);
      forall r | 0 <= r < p ensures s[..p][r] != g {
        assert s[r].eventId != s[q].eventId;
      }
    }
  }

  /**
   A valid log is still valid when read for a block exactly when no correction cites an event of another
   block that the order puts after it. (Citations within a block never stand in the way.)
   */
  lemma AuditReadableIff(k: E.Checks, log: seq<Event>, target: string)
    requires E.ValidLog(k, log)
    ensures E.ValidLog(k, OrderedAudit(log, target)) <==> CitesEarlier(log, target)
  {
    var s := OrderedAudit(log, target);
    AuditOrders(target);
    SortPermutes(log, Audit(target));
    SortSorts(log, Audit(target));
    E.ValidDistinct(k, log);
    DistinctIdsPermute(log, s);
    hide OrderedAudit, E.Follows, Sort, Sorted;
    if CitesEarlier(log, target) {
      forall p | 0 <= p < |s| ensures E.Follows(k, s[..p], s[p]) {
        forall g | g in s && Cites(s[p], g.eventId) ensures g in s[..p] {
          CitedIsOther(k, log, s[p], g);
          BeforeIffLess(s, target, p, g);
        }
        FollowsIff(k, log, target, p);
      }
    }
    if E.ValidLog(k, s) {
      forall e, g | e in log && g in log && Cites(e, g.eventId) && g.blockId != e.blockId ensures AuditLe(target, g, e) {
        assert e in s && g in s;
        var p :| 0 <= p < |s| && s[p] == e;
        FollowsIff(k, log, target, p);
        BeforeIffLess(s, target, p, g);
      }
    }
  }

  lemma CitedIsOther(k: E.Checks, log: seq<Event>, e: Event, g: Event)
    requires E.ValidLog(k, log) && e in log && g in log && Cites(e, g.eventId)
    ensures g != e
    ensures g.blockId == e.blockId ==> g.sequence < e.sequence
  {
    E.ValidDistinct(k, log);
    var h := CitedInLog(k, log, e, g.eventId);
    UniqueById(log, g, h);
  }

  ghost predicate CitesAcross(log: seq<Event>) {
    exists e, g | e in log && g in log :: Cites(e, g.eventId) && g.blockId != e.blockId
  }

  /** Every block with events can be read from a valid log exactly when no correction crosses blocks. */
  lemma EveryBlockReadableIff(k: E.Checks, log: seq<Event>)
    requires E.ValidLog(k, log)
    ensures (forall e | e in log :: E.ValidLog(k, OrderedAudit(log, e.blockId))) <==> !CitesAcross(log)
  {
    hide E.ValidLog, OrderedAudit;
    forall e | e in log
      ensures E.ValidLog(k, OrderedAudit(log, e.blockId)) <==> CitesEarlier(log, e.blockId)
    {
      AuditReadableIff(k, log, e.blockId);
    }
    if CitesAcross(log) {
      var e, g :| e in log && g in log && Cites(e, g.eventId) && g.blockId != e.blockId;
      assert !AuditLe(e.blockId, g, e);
      assert !CitesEarlier(log, e.blockId);
    }
  }

  /** `b` opens its block by superseding `a`, which opens another block. */
  predicate CorrectsAcross(k: E.Checks, a: Event, b: Event) {
    && k.safe(a) && k.safe(b) && a.eventId != b.eventId && a.blockId != b.blockId
    && a.sequence == 1 && a.supersedes.None? && !IsInvalidation(a)
    && b.sequence == 1 && b.supersedes == Some(Supersession(a.eventId, k.hash(a))) && !IsInvalidation(b)
  }

  lemma CrossBlockAppends(k: E.Checks, a: Event, b: Event)
    requires CorrectsAcross(k, a, b)
    ensures E.Append(k, [], a) == Ok([a]) && E.Append(k, [a], b) == Ok([a, b])
  {
    assert [] + [a] == [a] && [a] + [b] == [a, b];
    assert [a][0] == a && [a][..0] == [];
    assert E.Lookup([a], a.eventId) == Some(a);
    assert E.Lookup([a], b.eventId) == None;
    assert E.BlockCount([], a.blockId) == 0 && E.BlockCount([a], b.blockId) == 0;
    assert E.ReferencesKnown(k, [], a) && E.ReferencesKnown(k, [a], b);
  }

  lemma CrossBlockCites(k: E.Checks, a: Event, b: Event)
    requires CorrectsAcross(k, a, b)
    ensures CitesAcross([a, b]) && !CitesEarlier([a, b], b.blockId) && CitesEarlier([a, b], a.blockId)
  {
    hide StringLe;
    var log := [a, b];
    assert a in log && b in log && Cites(b, a.eventId);
    assert !AuditLe(b.blockId, a, b);
  }

  /**
   Appending does accept corrections across blocks: the first event of one block may supersede the first event of
   another. The log is valid, yet the correcting block cannot be read from it, while the corrected block can.
   */
  lemma CrossBlockCorrectionAccepted(k: E.Checks, a: Event, b: Event)
    requires CorrectsAcross(k, a, b)
    ensures E.Append(k, [], a) == Ok([a]) && E.Append(k, [a], b) == Ok([a, b])
    ensures E.ValidLog(k, [a, b]) && CitesAcross([a, b])
    ensures !E.ValidLog(k, OrderedAudit([a, b], b.blockId)) && E.ValidLog(k, OrderedAudit([a, b], a.blockId))
  {
    CrossBlockAppends(k, a, b);
    CrossBlockCites(k, a, b);
    assert E.ValidLog(k, []);
    hide OrderedAudit, CorrectsAcross, CitesEarlier, CitesAcross, E.Append, E.ValidLog;
    E.AppendAccepts(k, [], a);
    NewToLog([], a, [a]);
    E.AppendAccepts(k, [a], b);
    NewToLog([a], b, [a, b]);
    AuditReadableIff(k, [a, b], b.blockId);
    AuditReadableIff(k, [a, b], a.blockId);
  }

  lemma NewToLog(log: seq<Event>, e: Event, longer: seq<Event>)
    requires |longer| == |log| + 1 && longer[..|log|] == log && longer[|log|] == e
    ensures log + [e] == longer && (e !in log || longer != log)
  {
  }
}
