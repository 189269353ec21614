/**
 Finalization as a protocol on one task ref (src/runtime/finalize.ts, src/runtime/git-object-writer.ts):
 the finalizer's reads and its one compare-and-update, crashes between any two of them, and other
 writers of the ref. Holders of the run lock come one after another; the ref itself is not locked.
 */
module FinalizeModel {
  import opened Prelude

  /** COMMIT_CREATED, with the evidence hashes grouped. */
  datatype Event = CommitCreated(runId: string, base: string, commit: string, gitTree: string, evidence: Evidence)

  datatype Evidence = Evidence(treeHash: string, contractHash: string, diffHash: string, manifestHash: string,
                               attestationHash: string)

  /** Where an attempt stands; everything here is lost in a crash. */
  datatype Phase =
    | Idle
    | Built(event: Event)
    | Swapping(event: Event)
    | Moved(event: Event)
    | Checked(event: Event)
    | Confirmed(event: Event)
    | Done(event: Event)
    | Failed

  /** The durable ref and journal, and the attempt in progress. */
  datatype State = State(ref: Option<string>, journal: seq<Event>, phase: Phase)

  datatype Step =
    | Begin(event: Event)
    | ReadRef
    | Swap
    | VerifyMove
    | ReadBack
    | Append
    | Crash
    | Foreign(ref: Option<string>)

  /** The step is the next one of the attempt; crashes and foreign writes come at any time. */
  predicate Guard(s: State, step: Step) {
    match step
    case Begin(_) => s.phase.Idle? || s.phase.Done? || s.phase.Failed?
    case ReadRef => s.phase.Built?
    case Swap => s.phase.Swapping?
    case VerifyMove => s.phase.Moved?
    case ReadBack => s.phase.Checked?
    case Append => s.phase.Confirmed?
    case Crash => true
    case Foreign(_) => true
  }

  /** `treeAt` answers `rev-parse <commit>^{tree}`. */
  function Apply(treeAt: string -> string, s: State, step: Step): State
    requires Guard(s, step)
  {
    match step
    case Begin(e) => s.(phase := Built(e))
    case ReadRef =>
      var e := s.phase.event;
      s.(phase := if s.ref == Some(e.commit) then Checked(e) else if s.ref == Some(e.base) then Swapping(e) else Failed)
    case Swap =>
      var e := s.phase.event;
      if s.ref == Some(e.base) then s.(ref := Some(e.commit), phase := Moved(e)) else s.(phase := Failed)
    case VerifyMove =>
      var e := s.phase.event;
      s.(phase := if s.ref == Some(e.commit) && treeAt(e.commit) == e.gitTree then Checked(e) else Failed)
    case ReadBack =>
      var e := s.phase.event;
      s.(phase := if s.ref == Some(e.commit) then Confirmed(e) else Failed)
    case Append => s.(journal := s.journal + [s.phase.event], phase := Done(s.phase.event))
    case Crash => s.(phase := Idle)
    case Foreign(ref) => s.(ref := ref)
  }

  /** The run's steps are all allowed, from `s`. */
  predicate Legal(treeAt: string -> string, s: State, run: seq<Step>)
    decreases |run|, 0
  {
    run == [] || (Legal(treeAt, s, run[..|run| - 1]) && Guard(After(treeAt, s, run[..|run| - 1]), run[|run| - 1]))
  }

  function After(treeAt: string -> string, s: State, run: seq<Step>): State
    requires Legal(treeAt, s, run)
    decreases |run|, 1
  {
    if run == [] then s else Apply(treeAt, After(treeAt, s, run[..|run| - 1]), run[|run| - 1])
  }

  lemma LegalExtend(treeAt: string -> string, s: State, run: seq<Step>, step: Step)
    requires Legal(treeAt, s, run) && Guard(After(treeAt, s, run), step)
    ensures Legal(treeAt, s, run + [step])
    ensures After(treeAt, s, run + [step]) == Apply(treeAt, After(treeAt, s, run), step)
  {
    assert (run + [step])[..|run|] == run;
  }

  lemma {:induction false} LegalPrefix(treeAt: string -> string, s: State, run: seq<Step>, k: nat)
    requires Legal(treeAt, s, run) && k <= |run|
    ensures Legal(treeAt, s, run[..k])
  {
    if k == |run| {
      assert run[..k] == run;
    } else {
      LegalPrefix(treeAt, s, run[..|run| - 1], k);
      assert run[..|run| - 1][..k] == run[..k];
    }
  }

  /** The commit a run's attempt moved the ref to, step by step. */
  predicate Moves(s: State, step: Step) {
    step.Swap? && s.phase.Swapping? && s.ref == Some(s.phase.event.base)
  }

  function MoveCount(treeAt: string -> string, s: State, run: seq<Step>): nat
    requires Legal(treeAt, s, run)
  {
    if run == [] then 0
    else
      var before := run[..|run| - 1];
      MoveCount(treeAt, s, before) + if Moves(After(treeAt, s, before), run[|run| - 1]) then 1 else 0
  }

  function ForeignWritesOf(run: seq<Step>, sha: string): nat {
    if run == [] then 0
    else ForeignWritesOf(run[..|run| - 1], sha) + if run[|run| - 1] == Foreign(Some(sha)) then 1 else 0
  }

  lemma {:induction false} ForeignWritesAre(run: seq<Step>, sha: string)
    ensures ForeignWritesOf(run, sha) == |set i: nat | i < |run| && run[i] == Foreign(Some(sha))|
  {
    if run == [] {
      NoWrites(sha);
    } else {
      ForeignWritesAre(run[..|run| - 1], sha);
      WritesLast(run, sha);
    }
  }

  lemma NoWrites(sha: string)
    ensures var run: seq<Step> := []; (set i: nat | i < |run| && run[i] == Foreign(Some(sha))) == {}
  {
  }

  lemma WritesLast(run: seq<Step>, sha: string)
    requires run != []
    ensures var before := run[..|run| - 1];
            |set i: nat | i < |run| && run[i] == Foreign(Some(sha))| ==
            |set i: nat | i < |before| && before[i] == Foreign(Some(sha))| + if run[|run| - 1] == Foreign(Some(sha)) then 1 else 0
  {
    var last := |run| - 1;
    var before := set i: nat | i < |run[..last]| && run[..last][i] == Foreign(Some(sha));
    assert (set i: nat | i < |run| && run[i] == Foreign(Some(sha))) == before + if run[last] == Foreign(Some(sha)) then {last} else {};
  }

  // ---- What every run keeps --------------------------------------------------------

  /** Only the finalizer's compare-and-update and foreign writers change the ref. */
  lemma RefMovesOnlyByCas(treeAt: string -> string, s: State, step: Step)
    requires Guard(s, step) && Apply(treeAt, s, step).ref != s.ref && !step.Foreign?
    ensures step.Swap? && s.phase.Swapping?
    ensures s.ref == Some(s.phase.event.base) && Apply(treeAt, s, step).ref == Some(s.phase.event.commit)
  {
  }

  /** The event an attempt holds, once it has one. */
  function Holding(p: Phase): Option<Event> { if p.Idle? || p.Failed? then None else Some(p.event) }

  /** Every attempt of the run uses this base and a commit other than it. */
  ghost predicate Intends(run: seq<Step>, base: string) {
    forall i | 0 <= i < |run| && run[i].Begin? :: run[i].event.base == base && run[i].event.commit != base
  }

  ghost predicate Started(run: seq<Step>, e: Event) { Begin(e) in run }

  lemma {:induction false} HoldingStarted(treeAt: string -> string, s: State, run: seq<Step>)
    requires Legal(treeAt, s, run) && s.phase == Idle
    ensures var held := Holding(After(treeAt, s, run).phase); held.Some? ==> Started(run, held.value)
  {
    if run != [] {
      var before := run[..|run| - 1];
      HoldingStarted(treeAt, s, before);
      assert run == before + [run[|run| - 1]];
    }
  }

  /**
   The ref is moved at most once more than foreign writers put the base back: for every run of any
   number of attempts and crashes, whatever else is written to the ref.
   */
  lemma {:induction false} MovesBounded(treeAt: string -> string, s: State, run: seq<Step>, base: string)
    requires Legal(treeAt, s, run) && s.phase == Idle && Intends(run, base)
    ensures MoveCount(treeAt, s, run) + (if After(treeAt, s, run).ref == Some(base) then 1 else 0)
            <= ForeignWritesOf(run, base) + (if s.ref == Some(base) then 1 else 0)
  {
    if run != [] {
      var before, last := run[..|run| - 1], run[|run| - 1];
      MovesBounded(treeAt, s, before, base);
      HoldingStarted(treeAt, s, before);
      HeldIntended(treeAt, s, before, base);
    }
  }

  lemma HeldIntended(treeAt: string -> string, s: State, run: seq<Step>, base: string)
    requires Legal(treeAt, s, run) && s.phase == Idle && Intends(run, base)
    ensures var held := Holding(After(treeAt, s, run).phase);
            held.Some? ==> held.value.base == base && held.value.commit != base
  {
    HoldingStarted(treeAt, s, run);
  }

  ghost predicate Intended(run: seq<Step>, sha: string) { exists e :: Started(run, e) && e.commit == sha }

  /** Other writers leave the ref alone where it matters: they write neither the base nor an intended commit. */
  ghost predicate ForeignersKeepOff(run: seq<Step>, base: string) {
    forall i | 0 <= i < |run| && run[i].Foreign? && run[i].ref.Some? :: run[i].ref.value != base && !Intended(run, run[i].ref.value)
  }

  /** The one commit the ref was moved to, if any, and what the journal and the attempt owe to it. */
  ghost predicate Settled(all: seq<Step>, s: State, base: string, moved: Option<string>) {
    && (s.ref.Some? && Intended(all, s.ref.value) ==> moved == s.ref)
    && (moved.Some? ==> s.ref != Some(base))
    && (s.phase.Moved? || s.phase.Checked? || s.phase.Confirmed? || s.phase.Done? ==> moved == Some(s.phase.event.commit))
    && (forall e | e in s.journal :: moved == Some(e.commit))
  }

  lemma SettledStep(treeAt: string -> string, all: seq<Step>, s: State, base: string, moved: Option<string>, step: Step)
    returns (now: Option<string>)
    requires Guard(s, step) && Settled(all, s, base, moved) && Intends(all, base) && ForeignersKeepOff(all, base)
    requires step in all
    requires var held := Holding(s.phase); held.Some? ==> Started(all, held.value)
    ensures Settled(all, Apply(treeAt, s, step), base, now)
  {
    now := if Moves(s, step) then Some(s.phase.event.commit) else moved;
    var held := Holding(s.phase);
    if held.Some? {
      var i :| 0 <= i < |all| && all[i] == Begin(held.value);
      assert all[i].event.commit != base && Intended(all, held.value.commit);
    }
    if step.Begin? {
      assert Started(all, step.event);
    }
  }

  lemma {:induction false} RunSettled(treeAt: string -> string, s: State, run: seq<Step>, all: seq<Step>, base: string)
    returns (moved: Option<string>)
    requires run <= all && Legal(treeAt, s, run) && Intends(all, base) && ForeignersKeepOff(all, base)
    requires s.phase == Idle && s.journal == [] && (s.ref.Some? ==> !Intended(all, s.ref.value))
    ensures Settled(all, After(treeAt, s, run), base, moved)
  {
    if run == [] {
      moved := None;
    } else {
      var before := run[..|run| - 1];
      var prior := RunSettled(treeAt, s, before, all, base);
      HoldingStarted(treeAt, s, before);
      moved := SettledStep(treeAt, all, After(treeAt, s, before), base, prior, run[|run| - 1]);
    }
  }

  /**
   As long as others keep off the base and the intended commits, all attempts of a run together move
   the ref at most once, and every COMMIT_CREATED in the journal names one and the same commit.
   */
  lemma OneCommit(treeAt: string -> string, s: State, run: seq<Step>, base: string)
    requires Legal(treeAt, s, run) && Intends(run, base) && ForeignersKeepOff(run, base)
    requires s.phase == Idle && s.journal == [] && (s.ref.Some? ==> !Intended(run, s.ref.value))
    ensures MoveCount(treeAt, s, run) <= 1
    ensures forall d, e | d in After(treeAt, s, run).journal && e in After(treeAt, s, run).journal :: d.commit == e.commit
  {
    var moved := RunSettled(treeAt, s, run, run, base);
    MovesBounded(treeAt, s, run, base);
    NoBaseWritten(run, run, base);
  }

  lemma {:induction false} NoBaseWritten(run: seq<Step>, all: seq<Step>, base: string)
    requires run <= all && ForeignersKeepOff(all, base)
    ensures ForeignWritesOf(run, base) == 0
  {
    if run != [] {
      NoBaseWritten(run[..|run| - 1], all, base);
      assert all[|run| - 1] == run[|run| - 1];
    }
  }

  // ---- The event is the commit that was read back ---------------------------------------

  /** Step `j` read the ref back as the event's commit, and only foreign writes came after it. */
  ghost predicate ReadBackAt(treeAt: string -> string, s: State, run: seq<Step>, j: nat, e: Event)
    requires Legal(treeAt, s, run)
  {
    && j < |run| && run[j] == ReadBack && (forall m | j < m < |run| :: run[m].Foreign?)
    && Legal(treeAt, s, run[..j]) && After(treeAt, s, run[..j]).ref == Some(e.commit)
  }

  lemma {:induction false} ConfirmedWasReadBack(treeAt: string -> string, s: State, run: seq<Step>) returns (j: nat)
    requires Legal(treeAt, s, run) && s.phase == Idle && After(treeAt, s, run).phase.Confirmed?
    ensures ReadBackAt(treeAt, s, run, j, After(treeAt, s, run).phase.event)
  {
    var before, last := run[..|run| - 1], run[|run| - 1];
    if last.ReadBack? {
      j := |before|;
    } else {
      j := ConfirmedWasReadBack(treeAt, s, before);
      assert before[..j] == run[..j];
      forall m | j < m < |run| ensures run[m].Foreign? {
        if m < |before| { assert before[m] == run[m]; }
      }
    }
  }

  /** Every COMMIT_CREATED is appended with nothing but foreign writes since the ref was read back as its commit. */
  lemma AppendWasReadBack(treeAt: string -> string, s: State, run: seq<Step>) returns (j: nat)
    requires run != [] && Legal(treeAt, s, run) && s.phase == Idle && run[|run| - 1] == Append
    ensures var before := run[..|run| - 1];
            && After(treeAt, s, run).journal == After(treeAt, s, before).journal + [After(treeAt, s, run).phase.event]
            && ReadBackAt(treeAt, s, before, j, After(treeAt, s, run).phase.event)
  {
    j := ConfirmedWasReadBack(treeAt, s, run[..|run| - 1]);
  }

  // ---- Retrying -----------------------------------------------------------------------

  /** One undisturbed attempt, run to its end. */
  function Attempt(treeAt: string -> string, s: State, e: Event): seq<Step> {
    if s.ref == Some(e.commit) then [Crash, Begin(e), ReadRef, ReadBack, Append]
    else if s.ref != Some(e.base) then [Crash, Begin(e), ReadRef]
    else if treeAt(e.commit) != e.gitTree then [Crash, Begin(e), ReadRef, Swap, VerifyMove]
    else [Crash, Begin(e), ReadRef, Swap, VerifyMove, ReadBack, Append]
  }

  /**
   A retry after a crash, left alone: it succeeds exactly when the ref stands at its commit or at its
   base (and the stored commit has the accepted tree), then leaves the ref at the commit and appends the
   event; otherwise it appends nothing and, unless the stored tree is wrong, leaves the ref as it was.
   */
  lemma RetryOutcome(treeAt: string -> string, s: State, e: Event)
    ensures Legal(treeAt, s, Attempt(treeAt, s, e))
    ensures var t := After(treeAt, s, Attempt(treeAt, s, e));
            && (t.phase == Done(e) <==> s.ref == Some(e.commit) || (s.ref == Some(e.base) && treeAt(e.commit) == e.gitTree))
            && (t.phase == Done(e) ==> t.ref == Some(e.commit) && t.journal == s.journal + [e])
            && (t.phase != Done(e) ==> t.phase == Failed && t.journal == s.journal)
            && (t.phase != Done(e) && s.ref != Some(e.base) ==> t.ref == s.ref)
  {
    var r1, r2, r3 := [Crash], [Crash] + [Begin(e)], [Crash] + [Begin(e)] + [ReadRef];
    LegalExtend(treeAt, s, [], Crash);
    assert [] + [Crash] == r1;
    LegalExtend(treeAt, s, r1, Begin(e));
    LegalExtend(treeAt, s, r2, ReadRef);
    if s.ref == Some(e.commit) {
      LegalExtend(treeAt, s, r3, ReadBack);
      LegalExtend(treeAt, s, r3 + [ReadBack], Append);
      assert Attempt(treeAt, s, e) == r3 + [ReadBack] + [Append];
    } else if s.ref == Some(e.base) {
      LegalExtend(treeAt, s, r3, Swap);
      var r5 := r3 + [Swap] + [VerifyMove];
      LegalExtend(treeAt, s, r3 + [Swap], VerifyMove);
      if treeAt(e.commit) == e.gitTree {
        LegalExtend(treeAt, s, r5, ReadBack);
        LegalExtend(treeAt, s, r5 + [ReadBack], Append);
        assert Attempt(treeAt, s, e) == r5 + [ReadBack] + [Append];
      } else {
        assert Attempt(treeAt, s, e) == r5;
      }
    } else {
      assert Attempt(treeAt, s, e) == r3;
    }
  }

  /** Every attempt is for the same event, and nobody else writes the ref. */
  ghost predicate SameEvent(run: seq<Step>, e: Event) {
    forall i | 0 <= i < |run| :: !run[i].Foreign? && (run[i].Begin? ==> run[i].event == e)
  }

  /**
   However often the attempts at one event crash, the ref is at the base or at the commit, the journal
   holds copies of the event only, and the next attempt left alone completes.
   */
  lemma {:induction false} RetryCompletes(treeAt: string -> string, s: State, run: seq<Step>, e: Event)
    requires Legal(treeAt, s, run) && SameEvent(run, e) && treeAt(e.commit) == e.gitTree
    requires s.phase == Idle && s.ref == Some(e.base) && s.journal == []
    ensures After(treeAt, s, run).ref in [Some(e.base), Some(e.commit)]
    ensures forall d | d in After(treeAt, s, run).journal :: d == e
    ensures After(treeAt, s, run).journal != [] ==> After(treeAt, s, run).ref == Some(e.commit)
    ensures var now := After(treeAt, s, run);
            && Legal(treeAt, now, Attempt(treeAt, now, e))
            && After(treeAt, now, Attempt(treeAt, now, e)).phase == Done(e)
            && After(treeAt, now, Attempt(treeAt, now, e)).ref == Some(e.commit)
  {
    SameEventKeeps(treeAt, s, run, e);
    RetryOutcome(treeAt, After(treeAt, s, run), e);
  }

  ghost predicate OneEvent(s: State, e: Event) {
    && s.ref in [Some(e.base), Some(e.commit)] && (forall d | d in s.journal :: d == e)
    && (Holding(s.phase).Some? ==> Holding(s.phase).value == e)
    && (s.phase.Moved? || s.phase.Checked? || s.phase.Confirmed? || s.phase.Done? || s.journal != [] ==> s.ref == Some(e.commit))
  }

  lemma {:induction false} SameEventKeeps(treeAt: string -> string, s: State, run: seq<Step>, e: Event)
    requires Legal(treeAt, s, run) && SameEvent(run, e) && OneEvent(s, e)
    ensures OneEvent(After(treeAt, s, run), e)
  {
    if run != [] {
      SameEventKeeps(treeAt, s, run[..|run| - 1], e);
      assert run[|run| - 1] in run;
    }
  }

  /** The keep-off hypothesis is needed: once someone restores the base, a second commit is recorded. */
  lemma RestoredBaseForks(treeAt: string -> string, d: Event, e: Event)
    requires d.base == e.base && d.commit != e.commit && d.commit != d.base && e.commit != e.base
    requires treeAt(d.commit) == d.gitTree && treeAt(e.commit) == e.gitTree
    ensures var s := State(Some(d.base), [], Idle);
            var run := [Begin(d), ReadRef, Swap, VerifyMove, ReadBack, Append, Foreign(Some(d.base)),
                        Begin(e), ReadRef, Swap, VerifyMove, ReadBack, Append];
            Legal(treeAt, s, run) && After(treeAt, s, run).journal == [d, e] && MoveCount(treeAt, s, run) == 2
  {
    var s := State(Some(d.base), [], Idle);
    var first := Solo(d) + [Foreign(Some(d.base))];
    SoloRun(treeAt, s, d);
    LegalExtend(treeAt, s, Solo(d), Foreign(Some(d.base)));
    assert first[..|first| - 1] == Solo(d);
    var t := After(treeAt, s, first);
    SoloRun(treeAt, t, e);
    Joined(treeAt, s, first, Solo(e));
    assert first + Solo(e) == [Begin(d), ReadRef, Swap, VerifyMove, ReadBack, Append, Foreign(Some(d.base)),
                               Begin(e), ReadRef, Swap, VerifyMove, ReadBack, Append];
  }

  /** An attempt that finds the base and moves it. */
  function Solo(e: Event): seq<Step> { [Begin(e), ReadRef, Swap, VerifyMove, ReadBack, Append] }

  lemma SoloRun(treeAt: string -> string, s: State, e: Event)
    requires (s.phase.Idle? || s.phase.Done?) && s.ref == Some(e.base) && e.commit != e.base && treeAt(e.commit) == e.gitTree
    ensures Legal(treeAt, s, Solo(e)) && After(treeAt, s, Solo(e)) == State(Some(e.commit), s.journal + [e], Done(e))
    ensures MoveCount(treeAt, s, Solo(e)) == 1
  {
    var r2 := [] + [Begin(e)] + [ReadRef];
    Extended(treeAt, s, [], Begin(e));
    Extended(treeAt, s, [] + [Begin(e)], ReadRef);
    Extended(treeAt, s, r2, Swap);
    Extended(treeAt, s, r2 + [Swap], VerifyMove);
    var r4 := r2 + [Swap] + [VerifyMove];
    Extended(treeAt, s, r4, ReadBack);
    Extended(treeAt, s, r4 + [ReadBack], Append);
    assert Solo(e) == r4 + [ReadBack] + [Append];
  }

  lemma Extended(treeAt: string -> string, s: State, run: seq<Step>, step: Step)
    requires Legal(treeAt, s, run) && Guard(After(treeAt, s, run), step)
    ensures Legal(treeAt, s, run + [step])
    ensures After(treeAt, s, run + [step]) == Apply(treeAt, After(treeAt, s, run), step)
    ensures MoveCount(treeAt, s, run + [step]) ==
            MoveCount(treeAt, s, run) + if Moves(After(treeAt, s, run), step) then 1 else 0
  {
    LegalExtend(treeAt, s, run, step);
    assert (run + [step])[..|run|] == run;
  }

  /** Runs compose. */
  lemma {:induction false} Joined(treeAt: string -> string, s: State, a: seq<Step>, b: seq<Step>)
    requires Legal(treeAt, s, a) && Legal(treeAt, After(treeAt, s, a), b)
    ensures Legal(treeAt, s, a + b) && After(treeAt, s, a + b) == After(treeAt, After(treeAt, s, a), b)
    ensures MoveCount(treeAt, s, a + b) == MoveCount(treeAt, s, a) + MoveCount(treeAt, After(treeAt, s, a), b)
  {
    if b == [] {
      assert a + b == a;
    } else {
      Joined(treeAt, s, a, b[..|b| - 1]);
      Extended(treeAt, s, a + b[..|b| - 1], b[|b| - 1]);
      assert a + b == a + b[..|b| - 1] + [b[|b| - 1]];
    }
  }
}
