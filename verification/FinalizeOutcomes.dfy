/**
 What the environment decides about finalization: exactly when all attempts record one commit, and
 exactly when an attempt fails although it moved the ref.
 */
module FinalizeOutcomes {
  import opened Prelude
  import opened FinalizeModel

  // ---- One commit, exactly ---------------------------------------------------------------

  /** Others write only these values, and attempts are only at these events. */
  ghost predicate Within(run: seq<Step>, writes: iset<Option<string>>, events: iset<Event>) {
    forall i | 0 <= i < |run| ::
      (run[i].Foreign? ==> run[i].ref in writes) && (run[i].Begin? ==> run[i].event in events)
  }

  ghost predicate OneCommitIn(journal: seq<Event>) {
    forall d, e | d in journal && e in journal :: d.commit == e.commit
  }

  /** In this environment no run from the base ever records two commits. */
  ghost predicate AlwaysOneCommit(treeAt: string -> string, base: string, writes: iset<Option<string>>, events: iset<Event>) {
    forall run: seq<Step> | Legal(treeAt, AtBase(base), run) && Within(run, writes, events) ::
      OneCommitIn(After(treeAt, AtBase(base), run).journal)
  }

  function AtBase(base: string): State { State(Some(base), [], Idle) }

  /** Events of one contract: on its base, with a commit of their own that holds the accepted tree. */
  ghost predicate Proper(treeAt: string -> string, base: string, events: iset<Event>) {
    forall e | e in events :: e.base == base && e.commit != base && treeAt(e.commit) == e.gitTree
  }

  /** Nobody else writes the base or a commit of these events. */
  ghost predicate KeepOff(base: string, writes: iset<Option<string>>, events: iset<Event>) {
    Some(base) !in writes && forall e | e in events :: Some(e.commit) !in writes
  }

  ghost predicate SameCommit(events: iset<Event>) { forall d, e | d in events && e in events :: d.commit == e.commit }

  /**
   One commit is recorded in every run exactly when there is but one to record, or nobody else writes the base
   or any commit that is attempted.
   */
  lemma OneCommitIff(treeAt: string -> string, base: string, writes: iset<Option<string>>, events: iset<Event>)
    requires Proper(treeAt, base, events)
    ensures AlwaysOneCommit(treeAt, base, writes, events) <==> SameCommit(events) || KeepOff(base, writes, events)
  {
    hide AlwaysOneCommit;
    if SameCommit(events) || KeepOff(base, writes, events) {
      Suffices(treeAt, base, writes, events);
    } else {
      var d, e :| d in events && e in events && d.commit != e.commit;
      if Some(base) in writes {
        RestoredBaseRuns(treeAt, base, writes, events, d, e);
      } else {
        var c :| c in events && Some(c.commit) in writes;
        PlantedCommitRuns(treeAt, base, writes, events, if d.commit == c.commit then e else d, c);
      }
    }
  }

  lemma Suffices(treeAt: string -> string, base: string, writes: iset<Option<string>>, events: iset<Event>)
    requires Proper(treeAt, base, events) && (SameCommit(events) || KeepOff(base, writes, events))
    ensures AlwaysOneCommit(treeAt, base, writes, events)
  {
    forall run: seq<Step> | Legal(treeAt, AtBase(base), run) && Within(run, writes, events)
      ensures OneCommitIn(After(treeAt, AtBase(base), run).journal)
    {
      if SameCommit(events) {
        JournalStarted(treeAt, AtBase(base), run);
        StartedWithin(run, writes, events);
      } else {
        KeptOff(run, base, treeAt, writes, events);
        OneCommit(treeAt, AtBase(base), run, base);
      }
    }
  }

  lemma StartedWithin(run: seq<Step>, writes: iset<Option<string>>, events: iset<Event>)
    requires Within(run, writes, events)
    ensures forall e | Started(run, e) :: e in events
  {
    forall e | Started(run, e) ensures e in events {
      var i :| 0 <= i < |run| && run[i] == Begin(e);
      assert run[i].Begin?;
    }
  }

  lemma KeptOff(run: seq<Step>, base: string, treeAt: string -> string, writes: iset<Option<string>>, events: iset<Event>)
    requires Within(run, writes, events) && Proper(treeAt, base, events) && KeepOff(base, writes, events)
    ensures Intends(run, base) && ForeignersKeepOff(run, base) && !Intended(run, base)
  {
    StartedWithin(run, writes, events);
  }

  /** Everything in the journal was attempted. */
  lemma {:induction false} JournalStarted(treeAt: string -> string, s: State, run: seq<Step>)
    requires Legal(treeAt, s, run) && s.phase == Idle && s.journal == []
    ensures forall e | e in After(treeAt, s, run).journal :: Started(run, e)
  {
    if run != [] {
      var before := run[..|run| - 1];
      JournalStarted(treeAt, s, before);
      HoldingStarted(treeAt, s, before);
      assert run == before + [run[|run| - 1]];
    }
  }

  lemma RestoredBaseRuns(treeAt: string -> string, base: string, writes: iset<Option<string>>, events: iset<Event>,
                         d: Event, e: Event)
    requires Proper(treeAt, base, events) && d in events && e in events && d.commit != e.commit && Some(base) in writes
    ensures !AlwaysOneCommit(treeAt, base, writes, events)
  {
    RestoredBaseForks(treeAt, d, e);
    var run := [Begin(d), ReadRef, Swap, VerifyMove, ReadBack, Append, Foreign(Some(d.base)),
                Begin(e), ReadRef, Swap, VerifyMove, ReadBack, Append];
    assert Within(run, writes, events);
    Forked(treeAt, base, run, d, e);
  }

  lemma Forked(treeAt: string -> string, base: string, run: seq<Step>, d: Event, e: Event)
    requires Legal(treeAt, AtBase(base), run) && After(treeAt, AtBase(base), run).journal == [d, e] && d.commit != e.commit
    ensures !OneCommitIn(After(treeAt, AtBase(base), run).journal)
  {
    hide Legal, After;
    assert d in [d, e] && e in [d, e];
  }

  /** The attempt that finds the ref at its commit already. */
  function Confirming(e: Event): seq<Step> { [Begin(e), ReadRef, ReadBack, Append] }

  lemma ConfirmingRun(treeAt: string -> string, s: State, e: Event)
    requires (s.phase.Idle? || s.phase.Done?) && s.ref == Some(e.commit)
    ensures Legal(treeAt, s, Confirming(e)) && After(treeAt, s, Confirming(e)) == s.(journal := s.journal + [e], phase := Done(e))
    ensures MoveCount(treeAt, s, Confirming(e)) == 0
  {
    var r1 := [] + [Begin(e)];
    Extended(treeAt, s, [], Begin(e));
    Extended(treeAt, s, r1, ReadRef);
    Extended(treeAt, s, r1 + [ReadRef], ReadBack);
    Extended(treeAt, s, r1 + [ReadRef] + [ReadBack], Append);
    assert Confirming(e) == r1 + [ReadRef] + [ReadBack] + [Append];
  }

  /**
   The base need not be restored for a second commit: when someone writes a commit that is attempted later, that
   attempt finds it and records it, without having moved the ref.
   */
  lemma PlantedCommitForks(treeAt: string -> string, d: Event, e: Event)
    requires d.base == e.base && d.commit != d.base && e.commit != e.base && treeAt(d.commit) == d.gitTree
    ensures var run := Solo(d) + [Foreign(Some(e.commit))] + Confirming(e);
            && Legal(treeAt, AtBase(d.base), run) && After(treeAt, AtBase(d.base), run).journal == [d, e]
            && MoveCount(treeAt, AtBase(d.base), run) == 1 && ForeignWritesOf(run, d.base) == 0
  {
    var s := AtBase(d.base);
    SoloRun(treeAt, s, d);
    Extended(treeAt, s, Solo(d), Foreign(Some(e.commit)));
    var first := Solo(d) + [Foreign(Some(e.commit))];
    ConfirmingRun(treeAt, After(treeAt, s, first), e);
    Joined(treeAt, s, first, Confirming(e));
    hide Legal, After, MoveCount, ForeignWritesOf;
    var run := first + Confirming(e);
    forall i | 0 <= i < |run| ensures run[i] != Foreign(Some(d.base)) { }
    NoWrites(run, d.base);
  }

  lemma {:induction false} NoWrites(run: seq<Step>, sha: string)
    requires forall i | 0 <= i < |run| :: run[i] != Foreign(Some(sha))
    ensures ForeignWritesOf(run, sha) == 0
  {
    if run != [] {
      NoWrites(run[..|run| - 1], sha);
    }
  }

  lemma PlantedCommitRuns(treeAt: string -> string, base: string, writes: iset<Option<string>>, events: iset<Event>,
                          d: Event, e: Event)
    requires Proper(treeAt, base, events) && d in events && e in events && d.commit != e.commit && Some(e.commit) in writes
    ensures !AlwaysOneCommit(treeAt, base, writes, events)
  {
    PlantedCommitForks(treeAt, d, e);
    var run := Solo(d) + [Foreign(Some(e.commit))] + Confirming(e);
    assert Within(run, writes, events);
    Forked(treeAt, base, run, d, e);
  }

  // ---- Failing after a move ----------------------------------------------------------------

  /** One attempt at `e`, with other writes anywhere. */
  ghost predicate OneTry(run: seq<Step>, e: Event) {
    run != [] && run[0] == Begin(e) && forall i | 0 < i < |run| :: !run[i].Begin? && !run[i].Crash?
  }

  /** Step `i` moved the ref. */
  ghost predicate MovedAt(treeAt: string -> string, s: State, run: seq<Step>, i: nat) {
    i < |run| && Legal(treeAt, s, run[..i]) && Moves(After(treeAt, s, run[..i]), run[i])
  }

  /** Step `j` checked the move and found another ref, or a commit without the accepted tree. */
  ghost predicate CheckFailsAt(treeAt: string -> string, s: State, run: seq<Step>, j: nat, e: Event) {
    && j < |run| && (run[j].VerifyMove? || run[j].ReadBack?) && Legal(treeAt, s, run[..j])
    && (After(treeAt, s, run[..j]).ref != Some(e.commit) || (run[j].VerifyMove? && treeAt(e.commit) != e.gitTree))
  }

  /** What an attempt's phase says about its past. */
  ghost predicate Tried(treeAt: string -> string, s: State, run: seq<Step>, e: Event)
    requires Legal(treeAt, s, run)
  {
    var p := After(treeAt, s, run).phase;
    && !p.Idle? && (Holding(p).Some? ==> Holding(p).value == e)
    && (p.Built? || p.Swapping? ==> forall i :: !MovedAt(treeAt, s, run, i))
    && ((exists j :: CheckFailsAt(treeAt, s, run, j, e)) ==> p.Failed?)
    && (p.Failed? ==> forall i | MovedAt(treeAt, s, run, i) :: exists j | i < j :: CheckFailsAt(treeAt, s, run, j, e))
  }

  lemma MovedEarlier(treeAt: string -> string, s: State, before: seq<Step>, last: Step, i: nat)
    requires Legal(treeAt, s, before)
    ensures MovedAt(treeAt, s, before + [last], i) <==>
              if i < |before| then MovedAt(treeAt, s, before, i) else i == |before| && Moves(After(treeAt, s, before), last)
  {
    var run := before + [last];
    if i < |before| {
      assert run[..i] == before[..i];
    } else if i == |before| {
      assert run[..i] == before;
    }
  }

  lemma CheckedEarlier(treeAt: string -> string, s: State, before: seq<Step>, last: Step, j: nat, e: Event)
    requires Legal(treeAt, s, before)
    ensures CheckFailsAt(treeAt, s, before + [last], j, e) <==>
              if j < |before| then CheckFailsAt(treeAt, s, before, j, e)
              else && j == |before| && (last.VerifyMove? || last.ReadBack?)
                   && (After(treeAt, s, before).ref != Some(e.commit) || (last.VerifyMove? && treeAt(e.commit) != e.gitTree))
  {
    var run := before + [last];
    if j < |before| {
      assert run[..j] == before[..j];
    } else if j == |before| {
      assert run[..j] == before;
    }
  }

  lemma TriedStep(treeAt: string -> string, s: State, before: seq<Step>, last: Step, e: Event)
    requires Legal(treeAt, s, before) && Tried(treeAt, s, before, e) && Guard(After(treeAt, s, before), last)
    requires !last.Begin? && !last.Crash?
    ensures Legal(treeAt, s, before + [last]) && Tried(treeAt, s, before + [last], e)
  {
    LegalExtend(treeAt, s, before, last);
    var run := before + [last];
    forall i: nat { MovedEarlier(treeAt, s, before, last, i); }
    forall j: nat { CheckedEarlier(treeAt, s, before, last, j, e); }
    hide MovedAt, CheckFailsAt, Legal, After;
    var p, q := After(treeAt, s, before).phase, After(treeAt, s, run).phase;
    if q.Failed? {
      forall i: nat | MovedAt(treeAt, s, run, i) ensures exists j: nat | i < j :: CheckFailsAt(treeAt, s, run, j, e) {
        if p.Failed? {
          assert MovedAt(treeAt, s, before, i);
          var j: nat :| i < j && CheckFailsAt(treeAt, s, before, j, e);
          assert CheckFailsAt(treeAt, s, run, j, e);
        } else {
          assert CheckFailsAt(treeAt, s, run, |before|, e);
        }
      }
    }
  }

  lemma {:induction false} TryTracked(treeAt: string -> string, s: State, run: seq<Step>, e: Event)
    requires Legal(treeAt, s, run) && OneTry(run, e)
    ensures Tried(treeAt, s, run, e)
    decreases |run|
  {
    var before, last := run[..|run| - 1], run[|run| - 1];
    assert run == before + [last];
    if |run| == 1 {
      assert before == [];
      FirstTried(treeAt, s, e);
    } else {
      assert OneTry(before, e);
      TryTracked(treeAt, s, before, e);
      TriedStep(treeAt, s, before, last, e);
    }
  }

  lemma FirstTried(treeAt: string -> string, s: State, e: Event)
    requires Legal(treeAt, s, [Begin(e)])
    ensures Tried(treeAt, s, [Begin(e)], e)
  {
    assert [Begin(e)][..0] == [];
  }

  /**
   An attempt, disturbed in any way, ends failed after having moved the ref exactly when one of its checks after the
   move failed. (Before the move it can only fail without having touched the ref.)
   */
  lemma FailedAfterMoveIff(treeAt: string -> string, s: State, run: seq<Step>, e: Event)
    requires Legal(treeAt, s, run) && OneTry(run, e)
    ensures (After(treeAt, s, run).phase.Failed? && exists i :: MovedAt(treeAt, s, run, i)) <==>
              exists i, j :: i < j && MovedAt(treeAt, s, run, i) && CheckFailsAt(treeAt, s, run, j, e)
  {
    TryTracked(treeAt, s, run, e);
    hide MovedAt, CheckFailsAt, Legal, After;
  }

  /** Such a check fails only for another write in between, or for a commit that does not hold the accepted tree. */
  lemma {:induction false} FailedCheckExplained(treeAt: string -> string, s: State, run: seq<Step>, e: Event, i: nat, j: nat)
    requires Legal(treeAt, s, run) && OneTry(run, e) && i < j
    requires MovedAt(treeAt, s, run, i) && CheckFailsAt(treeAt, s, run, j, e)
    ensures || (run[j].VerifyMove? && treeAt(e.commit) != e.gitTree)
            || exists m :: i < m < j && run[m].Foreign? && run[m].ref != Some(e.commit)
  {
    if After(treeAt, s, run[..j]).ref != Some(e.commit) {
      var m := RefLeft(treeAt, s, run, e, i, j);
    }
  }

  lemma {:induction false} RefLeft(treeAt: string -> string, s: State, run: seq<Step>, e: Event, i: nat, j: nat) returns (m: nat)
    requires Legal(treeAt, s, run) && OneTry(run, e) && i < j <= |run| && MovedAt(treeAt, s, run, i)
    requires Legal(treeAt, s, run[..j]) && After(treeAt, s, run[..j]).ref != Some(e.commit)
    ensures i < m < j && run[m].Foreign? && run[m].ref != Some(e.commit)
    decreases j
  {
    StepAt(treeAt, s, run, j - 1);
    TryPrefix(treeAt, s, run, e, j - 1);
    if run[j - 1].Foreign? && j - 1 > i {
      m := j - 1;
    } else {
      m := RefLeft(treeAt, s, run, e, i, j - 1);
    }
  }

  /** The step taken at position `j`, between the states before and after it. */
  lemma StepAt(treeAt: string -> string, s: State, run: seq<Step>, j: nat)
    requires Legal(treeAt, s, run) && j < |run|
    ensures Legal(treeAt, s, run[..j]) && Legal(treeAt, s, run[..j + 1]) && Guard(After(treeAt, s, run[..j]), run[j])
    ensures After(treeAt, s, run[..j + 1]) == Apply(treeAt, After(treeAt, s, run[..j]), run[j])
  {
    LegalPrefix(treeAt, s, run, j);
    LegalPrefix(treeAt, s, run, j + 1);
    assert run[..j + 1][..j] == run[..j];
  }

  lemma TryPrefix(treeAt: string -> string, s: State, run: seq<Step>, e: Event, j: nat)
    requires Legal(treeAt, s, run) && OneTry(run, e) && j < |run|
    ensures Legal(treeAt, s, run[..j])
    ensures j > 0 ==> var held := Holding(After(treeAt, s, run[..j]).phase); held.Some? ==> held.value == e
  {
    LegalPrefix(treeAt, s, run, j);
    if j > 0 {
      TryTracked(treeAt, s, run[..j], e);
    }
  }
}
