/**
 The finalizer (src/runtime/finalize.ts): the evidence it insists on before it touches the ref, and the
 run itself, whose reads and writes of the ref are the steps of FinalizeModel.
 */
module Finalizer {
  import opened Prelude
  import opened FinalizeModel
  import TreeBuilder

  datatype Change = Change(path: string, deleted: bool, contentHash: Option<string>)
  datatype Diff = Diff(treeHash: string, diffHash: string, changes: seq<Change>)

  datatype ContractBody = ContractBody(runId: string, base: string, policyHash: string, profileHash: string, rest: string)
  datatype Contract = Contract(body: ContractBody, hash: string)

  datatype ValidationBody = ValidationBody(id: string, passed: bool, treeHash: string, policyHash: string, rest: string)
  datatype Validation = Validation(body: ValidationBody, hash: string)
  datatype Summary = Summary(id: string, passed: bool, resultHash: string, treeHash: string)
  datatype Manifest = Manifest(results: seq<Validation>, hash: string)

  datatype Decision = Accept | Reject | RequestContext
  datatype AttestationBody = AttestationBody(
    runId: string, contractHash: string, base: string, treeHash: string, diffHash: string, manifestHash: string,
    reviewer: string, decision: Decision, findings: seq<string>, unresolved: seq<string>, requested: seq<string>)
  datatype Attestation = Attestation(body: AttestationBody, hash: string)

  /** The canonical hashes of each kind of evidence, and the hash of file contents. */
  datatype Hashes = Hashes(
    contract: ContractBody -> string, result: ValidationBody -> string, manifest: seq<Summary> -> string,
    attestation: AttestationBody -> string, diff: Diff -> string, bytes: seq<bv8> -> string)

  datatype Input = Input(
    contract: Contract, policyHash: string, profileHash: string, diff: Diff, manifest: Manifest, attestation: Attestation,
    reviewer: string, priorSessions: seq<string>, taskRef: string, expectedOld: string, message: string, author: string)

  // ---- Evidence --------------------------------------------------------------------

  predicate IsHex(s: string, n: nat) { |s| == n && forall i | 0 <= i < n :: '0' <= s[i] <= '9' || 'a' <= s[i] <= 'f' }

  /** `verifyContract`. */
  predicate ContractHolds(h: Hashes, i: Input) {
    && i.contract.hash == h.contract(i.contract.body)
    && i.contract.body.policyHash == i.policyHash && i.contract.body.profileHash == i.profileHash
    && i.contract.body.base == i.expectedOld && IsHex(i.expectedOld, 40)
    && i.taskRef == "refs/heads/codex/auto/" + i.contract.body.runId
  }

  function Summarized(v: Validation): Summary { Summary(v.body.id, v.body.passed, v.hash, v.body.treeHash) }

  function Summaries(results: seq<Validation>): (r: seq<Summary>)
    ensures |r| == |results| && forall k | 0 <= k < |r| :: r[k] == Summarized(results[k])
  {
    if results == [] then [] else [Summarized(results[0])] + Summaries(results[1..])
  }

  /** `verifyValidation`. */
  predicate ValidationsHold(h: Hashes, i: Input) {
    && i.manifest.hash == h.manifest(Summaries(i.manifest.results)) && i.manifest.results != []
    && forall v | v in i.manifest.results ::
         v.hash == h.result(v.body) && v.body.passed && v.body.treeHash == i.diff.treeHash && v.body.policyHash == i.policyHash
  }

  predicate NoRepeats(s: seq<string>) { forall j, k | 0 <= j < k < |s| :: s[j] != s[k] }

  /** `verifyReviewAttestation`, then the decision and the run. */
  predicate ReviewHolds(h: Hashes, i: Input) {
    var a := i.attestation.body;
    && i.attestation.hash == h.attestation(a)
    && a.contractHash == i.contract.hash && a.base == i.contract.body.base
    && a.treeHash == i.diff.treeHash && a.diffHash == i.diff.diffHash && a.manifestHash == i.manifest.hash
    && a.reviewer == i.reviewer && a.reviewer !in i.priorSessions
    && NoRepeats(a.findings) && (forall f | f in a.unresolved :: f in a.findings)
    && a.decision == Accept && a.unresolved == [] && a.requested == []
    && a.runId == i.contract.body.runId
  }

  predicate Accepted(h: Hashes, i: Input) {
    && ContractHolds(h, i) && IsHex(i.diff.treeHash, 64) && IsHex(i.diff.diffHash, 64)
    && ValidationsHold(h, i) && ReviewHolds(h, i)
  }

  /**
   What an input must show to be acted on: a contract that hashes to its hash, under the expected policy, profile and base
   and naming the run's own ref; tree and diff hashes of the right shape; validation results that hash to theirs, under a
   manifest that does, at least one and all passed on the accepted tree under the policy; and a review that hashes to its
   hash, of just these, by the expected reviewer and no earlier session, that accepts without anything open or asked for.
   */
  lemma AcceptedIff(h: Hashes, i: Input)
    ensures Accepted(h, i) <==>
              var c, a := i.contract.body, i.attestation.body;
              && h.contract(c) == i.contract.hash && c.policyHash == i.policyHash && c.profileHash == i.profileHash
              && c.base == i.expectedOld && i.taskRef == "refs/heads/codex/auto/" + c.runId
              && |i.expectedOld| == 40 && |i.diff.treeHash| == 64 && |i.diff.diffHash| == 64
              && (forall x | x in i.expectedOld + i.diff.treeHash + i.diff.diffHash :: x in "0123456789abcdef")
              && |i.manifest.results| >= 1
              && h.manifest(seq(|i.manifest.results|, k requires 0 <= k < |i.manifest.results| =>
                              var v := i.manifest.results[k]; Summary(v.body.id, v.body.passed, v.hash, v.body.treeHash)))
                 == i.manifest.hash
              && (forall k | 0 <= k < |i.manifest.results| ::
                    var v := i.manifest.results[k];
                    v.hash == h.result(v.body) && v.body.passed && v.body.treeHash == i.diff.treeHash && v.body.policyHash == i.policyHash)
              && h.attestation(a) == i.attestation.hash
              && a.runId == c.runId && a.contractHash == i.contract.hash && a.base == c.base && a.treeHash == i.diff.treeHash
              && a.diffHash == i.diff.diffHash && a.manifestHash == i.manifest.hash
              && a.reviewer == i.reviewer && i.reviewer !in i.priorSessions
              && (forall j, k | 0 <= j < k < |a.findings| :: a.findings[j] != a.findings[k])
              && a.decision == Accept && a.unresolved == [] && a.requested == []
  {
    var summaries := seq(|i.manifest.results|, k requires 0 <= k < |i.manifest.results| =>
                           var v := i.manifest.results[k]; Summary(v.body.id, v.body.passed, v.hash, v.body.treeHash));
    assert summaries == Summaries(i.manifest.results);
    HexIff(i.expectedOld, 40);
    HexIff(i.diff.treeHash, 64);
    HexIff(i.diff.diffHash, 64);
    hide IsHex, Summaries;
  }

  lemma HexIff(s: string, n: nat)
    ensures IsHex(s, n) <==> |s| == n && forall x | x in s :: x in "0123456789abcdef"
  {
    if IsHex(s, n) {
      forall x | x in s ensures x in "0123456789abcdef" {
        var i :| 0 <= i < |s| && s[i] == x;
        HexDigit(x);
      }
    }
    forall i | 0 <= i < |s| { HexDigit(s[i]); }
  }

  lemma HexDigit(x: char)
    ensures x in "0123456789abcdef" <==> '0' <= x <= '9' || 'a' <= x <= 'f'
  {
    if '0' <= x <= '9' {
      assert x == '0' || x == '1' || x == '2' || x == '3' || x == '4' || x == '5' || x == '6' || x == '7' || x == '8' || x == '9';
    } else if 'a' <= x <= 'f' {
      assert x == 'a' || x == 'b' || x == 'c' || x == 'd' || x == 'e' || x == 'f';
    }
  }

  function EvidenceOf(i: Input): Evidence {
    Evidence(i.diff.treeHash, i.contract.hash, i.diff.diffHash, i.manifest.hash, i.attestation.hash)
  }

  ghost predicate CollisionFree(h: Hashes) {
    && (forall x, y :: h.contract(x) == h.contract(y) ==> x == y)
    && (forall x, y :: h.result(x) == h.result(y) ==> x == y)
    && (forall x, y :: h.manifest(x) == h.manifest(y) ==> x == y)
    && (forall x, y :: h.attestation(x) == h.attestation(y) ==> x == y)
  }

  /**
   The five hashes of a COMMIT_CREATED pin the evidence: two accepted inputs with the same hashes have the
   same contract, the same validation results and the same review, and that review accepted the very tree
   and diff that every validation passed on.
   */
  lemma EvidenceBinds(h: Hashes, i: Input, j: Input)
    requires CollisionFree(h) && Accepted(h, i) && Accepted(h, j) && EvidenceOf(i) == EvidenceOf(j)
    ensures i.contract == j.contract && i.manifest == j.manifest && i.attestation == j.attestation
    ensures i.attestation.body.decision == Accept && i.attestation.body.treeHash == j.diff.treeHash
    ensures forall v | v in i.manifest.results :: v.body.passed && v.body.treeHash == j.attestation.body.treeHash
  {
    var a, b := i.manifest.results, j.manifest.results;
    assert Summaries(a) == Summaries(b);
    assert |a| == |b|;
    forall k | 0 <= k < |a|
      ensures a[k] == b[k]
    {
      assert Summaries(a)[k] == Summaries(b)[k];
      assert a[k] in a && b[k] in b;
    }
  }

  // ---- The snapshot ----------------------------------------------------------------

  ghost predicate ChangeShown(fold: string -> string, hash: seq<bv8> -> string, entries: seq<TreeBuilder.Entry>, c: Change) {
    if c.deleted then forall k | 0 <= k < |entries| :: fold(entries[k].path) != fold(c.path)
    else exists k | 0 <= k < |entries| :: entries[k].path == c.path && c.contentHash == Some(hash(entries[k].bytes))
  }

  /** No two paths fold together; deleted paths are gone; every other change shows its reviewed bytes at its exact path. */
  ghost predicate SnapshotMatches(fold: string -> string, hash: seq<bv8> -> string, entries: seq<TreeBuilder.Entry>, diff: Diff) {
    && TreeBuilder.FoldedApart(fold, entries)
    && forall k | 0 <= k < |diff.changes| :: ChangeShown(fold, hash, entries, diff.changes[k])
  }

  /** `byPath` after `n` entries. */
  ghost predicate Indexed(fold: string -> string, entries: seq<TreeBuilder.Entry>, n: nat, byPath: map<string, TreeBuilder.Entry>)
    requires n <= |entries|
  {
    && (forall j, k | 0 <= j < k < n :: fold(entries[j].path) != fold(entries[k].path))
    && (forall k | 0 <= k < n :: fold(entries[k].path) in byPath && byPath[fold(entries[k].path)] == entries[k])
    && (forall p | p in byPath :: exists k | 0 <= k < n :: fold(entries[k].path) == p)
  }

  lemma IndexGrows(fold: string -> string, entries: seq<TreeBuilder.Entry>, n: nat, byPath: map<string, TreeBuilder.Entry>)
    requires n < |entries| && Indexed(fold, entries, n, byPath)
    ensures fold(entries[n].path) in byPath ==> !TreeBuilder.FoldedApart(fold, entries)
    ensures fold(entries[n].path) !in byPath ==> Indexed(fold, entries, n + 1, byPath[fold(entries[n].path) := entries[n]])
  {
    var key := fold(entries[n].path);
    if key in byPath {
      var k :| 0 <= k < n && fold(entries[k].path) == key;
    } else {
      var grown := byPath[key := entries[n]];
      forall p | p in grown ensures exists k | 0 <= k < n + 1 :: fold(entries[k].path) == p {
        if p in byPath {
          var k :| 0 <= k < n && fold(entries[k].path) == p;
          assert k < n + 1;
        }
      }
    }
  }

  /** With the index complete, one lookup decides a change. */
  lemma LookupDecides(fold: string -> string, hash: seq<bv8> -> string, entries: seq<TreeBuilder.Entry>,
                      byPath: map<string, TreeBuilder.Entry>, c: Change)
    requires Indexed(fold, entries, |entries|, byPath)
    ensures var key := fold(c.path);
            ChangeShown(fold, hash, entries, c) <==>
              if c.deleted then key !in byPath
              else key in byPath && byPath[key].path == c.path && c.contentHash == Some(hash(byPath[key].bytes))
  {
    var key := fold(c.path);
    if key in byPath {
      var k :| 0 <= k < |entries| && fold(entries[k].path) == key;
      assert byPath[key] == entries[k];
    }
  }

  /** `verifySnapshot`. */
  method VerifySnapshot(fold: string -> string, hash: seq<bv8> -> string, entries: seq<TreeBuilder.Entry>, diff: Diff)
    returns (ok: bool)
    ensures ok <==> SnapshotMatches(fold, hash, entries, diff)
    ensures ok <==>
              && (forall j, k | 0 <= j < k < |entries| :: fold(entries[j].path) != fold(entries[k].path))
              && (forall c | c in diff.changes && c.deleted :: forall k | 0 <= k < |entries| :: fold(entries[k].path) != fold(c.path))
              && (forall c | c in diff.changes && !c.deleted ::
                    exists k | 0 <= k < |entries| :: entries[k].path == c.path && c.contentHash == Some(hash(entries[k].bytes)))
  {
    var byPath: map<string, TreeBuilder.Entry> := map[];
    var i := 0;
    while i < |entries|
      invariant 0 <= i <= |entries| && Indexed(fold, entries, i, byPath)
    {
      IndexGrows(fold, entries, i, byPath);
      var folded := fold(entries[i].path);
      if folded in byPath { return false; }
      byPath := byPath[folded := entries[i]];
      i := i + 1;
    }
    hide ChangeShown, Indexed;
    i := 0;
    while i < |diff.changes|
      invariant 0 <= i <= |diff.changes|
      invariant forall k | 0 <= k < i :: ChangeShown(fold, hash, entries, diff.changes[k])
    {
      var change := diff.changes[i];
      LookupDecides(fold, hash, entries, byPath, change);
      var key := fold(change.path);
      if change.deleted {
        if key in byPath { return false; }
      } else if key !in byPath || byPath[key].path != change.path || change.contentHash != Some(hash(byPath[key].bytes)) {
        return false;
      }
      i := i + 1;
    }
    assert TreeBuilder.FoldedApart(fold, entries) by { IndexApart(fold, entries, byPath); }
    return true;
  }

  lemma IndexApart(fold: string -> string, entries: seq<TreeBuilder.Entry>, byPath: map<string, TreeBuilder.Entry>)
    requires Indexed(fold, entries, |entries|, byPath)
    ensures TreeBuilder.FoldedApart(fold, entries)
  {
  }

  // ---- The run ---------------------------------------------------------------------

  /** The object writer: the tree id of a snapshot, and the id of a commit. */
  datatype Writer = Writer(treeOf: seq<TreeBuilder.Entry> -> Option<string>, commitOf: (string, string, string, string) -> string)

  /** What one attempt meets: two inspections, the snapshot, foreign writes before each ref access, and throws. */
  datatype World = World(
    before: Option<Diff>, snapshot: Option<seq<TreeBuilder.Entry>>, after: Option<Diff>,
    foreign: nat -> seq<Option<string>>, throws: nat -> bool, fold: string -> string)

  ghost predicate Ready(h: Hashes, i: Input, writer: Writer, world: World) {
    && Accepted(h, i)
    && world.before.Some? && h.diff(world.before.value) == h.diff(i.diff)
    && world.snapshot.Some? && SnapshotMatches(world.fold, h.bytes, world.snapshot.value, i.diff)
    && world.after.Some? && h.diff(world.after.value) == h.diff(i.diff)
    && writer.treeOf(world.snapshot.value).Some?
  }

  /** When a run goes ahead: with evidence accepted, and the workspace inspected twice around a matching snapshot. */
  lemma ReadyIff(h: Hashes, i: Input, writer: Writer, world: World)
    ensures Ready(h, i, writer, world) <==>
              && Accepted(h, i)
              && world.before.Some? && world.snapshot.Some? && world.after.Some?
              && h.diff(world.before.value) == h.diff(i.diff) == h.diff(world.after.value)
              && writer.treeOf(world.snapshot.value).Some?
              && (var entries := world.snapshot.value;
                  && (forall j, k | 0 <= j < k < |entries| :: world.fold(entries[j].path) != world.fold(entries[k].path))
                  && (forall c | c in i.diff.changes && c.deleted ::
                        forall k | 0 <= k < |entries| :: world.fold(entries[k].path) != world.fold(c.path))
                  && (forall c | c in i.diff.changes && !c.deleted ::
                        exists k | 0 <= k < |entries| :: entries[k].path == c.path && c.contentHash == Some(h.bytes(entries[k].bytes))))
  {
    if world.snapshot.Some? { MatchesIff(world.fold, h.bytes, world.snapshot.value, i.diff); }
    hide Accepted, SnapshotMatches;
  }

  lemma MatchesIff(fold: string -> string, hash: seq<bv8> -> string, entries: seq<TreeBuilder.Entry>, diff: Diff)
    ensures SnapshotMatches(fold, hash, entries, diff) <==>
              && (forall j, k | 0 <= j < k < |entries| :: fold(entries[j].path) != fold(entries[k].path))
              && (forall c | c in diff.changes && c.deleted :: forall k | 0 <= k < |entries| :: fold(entries[k].path) != fold(c.path))
              && (forall c | c in diff.changes && !c.deleted ::
                    exists k | 0 <= k < |entries| :: entries[k].path == c.path && c.contentHash == Some(hash(entries[k].bytes)))
  {
    forall c ensures ChangeShown(fold, hash, entries, c) <==>
                       if c.deleted then forall k | 0 <= k < |entries| :: fold(entries[k].path) != fold(c.path)
                       else exists k | 0 <= k < |entries| :: entries[k].path == c.path && c.contentHash == Some(hash(entries[k].bytes)) { }
    hide ChangeShown;
    assert (forall c | c in diff.changes :: ChangeShown(fold, hash, entries, c)) <==>
           (forall k | 0 <= k < |diff.changes| :: ChangeShown(fold, hash, entries, diff.changes[k]));
  }

  /** The event appended: the run, its base, the commit made of the tree on the base, and the five hashes of the evidence. */
  lemma EventIs(i: Input, writer: Writer, tree: string)
    ensures var e := EventFor(i, writer, tree);
            && e.runId == i.contract.body.runId && e.base == i.contract.body.base && e.gitTree == tree
            && e.commit == writer.commitOf(tree, i.contract.body.base, i.message, i.author)
            && e.evidence.contractHash == i.contract.hash && e.evidence.treeHash == i.diff.treeHash
            && e.evidence.diffHash == i.diff.diffHash && e.evidence.manifestHash == i.manifest.hash
            && e.evidence.attestationHash == i.attestation.hash
  {
  }

  function EventFor(i: Input, writer: Writer, tree: string): Event {
    CommitCreated(i.contract.body.runId, i.contract.body.base,
                  writer.commitOf(tree, i.contract.body.base, i.message, i.author), tree, EvidenceOf(i))
  }

  /** Some access of the attempt threw. */
  ghost predicate Thrown(world: World) { exists k | 0 <= k < 6 :: world.throws(k) }

  ghost predicate Undisturbed(world: World) {
    forall k | 0 <= k < 6 :: world.foreign(k) == [] && !world.throws(k)
  }

  /** `now` adds to `before` the steps of an attempt at `e`, and others' writes. */
  ghost predicate OneAttempt(before: seq<Step>, now: seq<Step>, e: Event) {
    && |before| <= |now| && now[..|before|] == before
    && forall k | |before| <= k < |now| && now[k].Begin? :: now[k].event == e
  }

  lemma OneAttemptJoins(a: seq<Step>, b: seq<Step>, c: seq<Step>, e: Event)
    requires OneAttempt(a, b, e) && OneAttempt(b, c, e)
    ensures OneAttempt(a, c, e)
  {
    assert forall k | 0 <= k < |b| :: c[k] == c[..|b|][k];
    assert c[..|a|] == c[..|b|][..|a|];
  }

  lemma OneAttemptStep(a: seq<Step>, b: seq<Step>, step: Step, e: Event)
    requires OneAttempt(a, b, e) && (step.Begin? ==> step.event == e)
    ensures OneAttempt(a, b + [step], e)
  {
  }

  lemma OneAttemptForeign(a: seq<Step>, b: seq<Step>, e: Event)
    requires |a| <= |b| && b[..|a|] == a && forall k | |a| <= k < |b| :: b[k].Foreign?
    ensures OneAttempt(a, b, e)
  {
  }

  /** One task ref and its journal, with the steps that made them what they are. */
  class TaskRef {
    const treeAt: string -> string
    var ref: Option<string>
    var journal: seq<Event>
    ghost const start: State
    ghost var trace: seq<Step>

    ghost predicate Valid()
      reads this
    {
      && start.phase == Idle && start.journal == []
      && Legal(treeAt, start, trace)
      && ref == After(treeAt, start, trace).ref && journal == After(treeAt, start, trace).journal
    }

    ghost function Phase(): Phase
      reads this
      requires Valid()
    {
      After(treeAt, start, trace).phase
    }

    constructor (treeAt: string -> string, ref: Option<string>)
      ensures Valid() && this.ref == ref && journal == [] && trace == [] && Phase() == Idle && this.treeAt == treeAt
    {
      this.treeAt, this.ref, this.journal := treeAt, ref, [];
      start, trace := State(ref, [], Idle), [];
    }

    /** Writes by others. */
    method Interfere(writes: seq<Option<string>>)
      requires Valid()
      modifies this
      ensures Valid() && Phase() == old(Phase()) && journal == old(journal)
      ensures forall e :: OneAttempt(old(trace), trace, e)
      ensures writes == [] ==> ref == old(ref)
    {
      var k := 0;
      while k < |writes|
        invariant 0 <= k <= |writes|
        invariant Valid() && Phase() == old(Phase()) && journal == old(journal)
        invariant |old(trace)| <= |trace| && trace[..|old(trace)|] == old(trace)
        invariant forall m | |old(trace)| <= m < |trace| :: trace[m].Foreign?
        invariant writes == [] ==> ref == old(ref)
      {
        LegalExtend(treeAt, start, trace, Foreign(writes[k]));
        trace := trace + [Foreign(writes[k])];
        ref := writes[k];
        k := k + 1;
      }
    }

    /** Records a step that leaves the ref and the journal alone. */
    ghost method Note(step: Step)
      requires Valid() && Guard(After(treeAt, start, trace), step)
      requires Apply(treeAt, After(treeAt, start, trace), step).ref == ref
      requires Apply(treeAt, After(treeAt, start, trace), step).journal == journal
      modifies `trace
      ensures Valid() && trace == old(trace) + [step]
      ensures After(treeAt, start, trace) == Apply(treeAt, old(After(treeAt, start, trace)), step)
    {
      LegalExtend(treeAt, start, trace, step);
      trace := trace + [step];
    }

    /** Between attempts. */
    ghost predicate Resting()
      reads this
      requires Valid()
    {
      Phase().Idle? || Phase().Done? || Phase().Failed?
    }

    /**
     `finalizeRun`. Nothing happens unless all evidence holds; then the ref is handled by the protocol's
     steps, so everything proved of its runs holds of any sequence of calls. Left undisturbed the call
     succeeds exactly when the ref is at the commit already, or at the base with a faithful tree.
     */
    method FinalizeRun(h: Hashes, input: Input, writer: Writer, world: World) returns (r: Result<Event>)
      requires Valid() && Resting()
      modifies this
      ensures Valid() && Resting()
      ensures !Ready(h, input, writer, world) ==> r.Err? && ref == old(ref) && journal == old(journal) && trace == old(trace)
      ensures Ready(h, input, writer, world) ==>
                var e := EventFor(input, writer, writer.treeOf(world.snapshot.value).value);
                && OneAttempt(old(trace), trace, e)
                && (r.Ok? ==> r.value == e && journal == old(journal) + [e] && Phase() == Done(e))
                && (r.Err? ==> Phase().Failed? || (Phase().Idle? && Thrown(world)))
                && (r.Err? ==> journal == old(journal) || (world.throws(5) && journal == old(journal) + [e]))
                && (Undisturbed(world) ==>
                      && (r.Ok? <==> old(ref) == Some(e.commit) || (old(ref) == Some(e.base) && treeAt(e.commit) == e.gitTree))
                      && (r.Ok? ==> ref == Some(e.commit))
                      && (r.Err? && old(ref) != Some(e.base) ==> ref == old(ref)))
    {
      if !Accepted(h, input) { return Err("EVIDENCE_HASH_MISMATCH"); }
      if world.before.None? || h.diff(world.before.value) != h.diff(input.diff) { return Err("EVIDENCE_HASH_MISMATCH"); }
      if world.snapshot.None? { return Err("EVIDENCE_HASH_MISMATCH"); }
      var shown := VerifySnapshot(world.fold, h.bytes, world.snapshot.value, input.diff);
      if !shown { return Err("EVIDENCE_HASH_MISMATCH"); }
      if world.after.None? || h.diff(world.after.value) != h.diff(input.diff) { return Err("EVIDENCE_HASH_MISMATCH"); }
      var tree := writer.treeOf(world.snapshot.value);
      if tree.None? { return Err("WORKSPACE_ISOLATION_FAILED"); }
      hide Accepted, SnapshotMatches;
      r := Settle(EventFor(input, writer, tree.value), world);
    }

    /** The part of `finalizeRun` that touches the ref, with `updateTaskRef` in the middle. */
    method Settle(e: Event, world: World) returns (r: Result<Event>)
      requires Valid() && Resting()
      modifies this
      ensures Valid() && Resting() && OneAttempt(old(trace), trace, e)
      ensures r.Ok? ==> r.value == e && journal == old(journal) + [e] && Phase() == Done(e)
      ensures r.Err? ==> Phase().Failed? || (Phase().Idle? && Thrown(world))
      ensures r.Err? ==> journal == old(journal) || (world.throws(5) && journal == old(journal) + [e])
      ensures Undisturbed(world) ==>
                && (r.Ok? <==> old(ref) == Some(e.commit) || (old(ref) == Some(e.base) && treeAt(e.commit) == e.gitTree))
                && (r.Ok? ==> ref == Some(e.commit))
                && (r.Err? && old(ref) != Some(e.base) ==> ref == old(ref))
    {
      hide Legal, After, OneAttempt;
      Note(Begin(e));
      OneAttemptForeign(old(trace), old(trace), e);
      OneAttemptStep(old(trace), old(trace), Begin(e), e);
      var ready := Place(e, world);
      OneAttemptJoins(old(trace), old(trace) + [Begin(e)], trace, e);
      if !ready { return Err("FINALIZATION_FAILED"); }
      label placed:
      r := Confirm(e, world);
      OneAttemptJoins(old(trace), old@placed(trace), trace, e);
    }

    /** The first read of the ref, and the update unless it already stands at the commit. */
    method Place(e: Event, world: World) returns (ready: bool)
      requires Valid() && Phase() == Built(e)
      modifies this
      ensures Valid() && OneAttempt(old(trace), trace, e) && journal == old(journal)
      ensures if ready then Phase() == Checked(e) else Phase().Failed? || (Phase().Idle? && Thrown(world))
      ensures Undisturbed(world) ==>
                && (ready <==> old(ref) == Some(e.commit) || (old(ref) == Some(e.base) && treeAt(e.commit) == e.gitTree))
                && (ready ==> ref == Some(e.commit))
                && (!ready && old(ref) != Some(e.base) ==> ref == old(ref))
    {
      hide Legal, After, OneAttempt;
      Interfere(world.foreign(0));
      OneAttemptStep(old(trace), trace, ReadRef, e);
      OneAttemptStep(old(trace), trace, Crash, e);
      if world.throws(0) { Note(Crash); return false; }
      var currentRef := ref;
      Note(ReadRef);
      if currentRef == Some(e.commit) { return true; }
      if currentRef != Some(e.base) { return false; }
      label read:
      ready := Update(e, world);
      OneAttemptJoins(old(trace), old@read(trace), trace, e);
    }

    /** The second read of the ref, and the append. */
    method Confirm(e: Event, world: World) returns (r: Result<Event>)
      requires Valid() && Phase() == Checked(e)
      modifies this
      ensures Valid() && Resting() && OneAttempt(old(trace), trace, e)
      ensures r.Ok? ==> r.value == e && journal == old(journal) + [e] && Phase() == Done(e)
      ensures r.Err? ==> Phase().Failed? || (Phase().Idle? && Thrown(world))
      ensures r.Err? ==> journal == old(journal) || (world.throws(5) && journal == old(journal) + [e])
      ensures Undisturbed(world) ==> ref == old(ref) && (r.Ok? <==> ref == Some(e.commit))
    {
      hide Legal, After, OneAttempt;
      Interfere(world.foreign(3));
      OneAttemptStep(old(trace), trace, Crash, e);
      OneAttemptStep(old(trace), trace, ReadBack, e);
      if world.throws(3) { Note(Crash); return Err("FINALIZATION_FAILED"); }
      var verifiedRef := ref;
      Note(ReadBack);
      if verifiedRef != Some(e.commit) { return Err("FINALIZATION_FAILED"); }
      label read:
      r := Journal(e, world);
      OneAttemptJoins(old(trace), old@read(trace), trace, e);
    }

    /** `append_commit_created`; it may also throw after the append took effect. */
    method Journal(e: Event, world: World) returns (r: Result<Event>)
      requires Valid() && Phase() == Confirmed(e)
      modifies this
      ensures Valid() && Resting() && OneAttempt(old(trace), trace, e)
      ensures r.Ok? ==> r.value == e && journal == old(journal) + [e] && Phase() == Done(e)
      ensures r.Err? ==> Phase().Failed? || (Phase().Idle? && Thrown(world))
      ensures r.Err? ==> journal == old(journal) || (world.throws(5) && journal == old(journal) + [e])
      ensures Undisturbed(world) ==> ref == old(ref) && r.Ok?
    {
      hide Legal, After, OneAttempt;
      Interfere(world.foreign(4));
      OneAttemptStep(old(trace), trace, Crash, e);
      OneAttemptStep(old(trace), trace, Append, e);
      if world.throws(4) { Note(Crash); return Err("FINALIZATION_FAILED"); }
      LegalExtend(treeAt, start, trace, Append);
      trace, journal := trace + [Append], journal + [e];
      OneAttemptStep(old(trace), trace, Crash, e);
      if world.throws(5) { Note(Crash); return Err("FINALIZATION_FAILED"); }
      r := Ok(e);
    }

    /** `updateTaskRef`: `update-ref` with the expected old value, then the two `rev-parse` checks. */
    method Update(e: Event, world: World) returns (moved: bool)
      requires Valid() && Phase() == Swapping(e)
      modifies this
      ensures Valid() && OneAttempt(old(trace), trace, e) && journal == old(journal)
      ensures if moved then Phase() == Checked(e) else Phase().Failed? || (Phase().Idle? && Thrown(world))
      ensures Undisturbed(world) && old(ref) == Some(e.base) ==>
                (moved <==> treeAt(e.commit) == e.gitTree) && ref == Some(e.commit)
    {
      hide Legal, After, OneAttempt;
      Interfere(world.foreign(1));
      OneAttemptStep(old(trace), trace, Crash, e);
      OneAttemptStep(old(trace), trace, Swap, e);
      if world.throws(1) { Note(Crash); return false; }
      LegalExtend(treeAt, start, trace, Swap);
      trace := trace + [Swap];
      if ref != Some(e.base) { return false; }
      ref := Some(e.commit);
      label swapped:
      Interfere(world.foreign(2));
      OneAttemptJoins(old(trace), old@swapped(trace), trace, e);
      OneAttemptStep(old(trace), trace, Crash, e);
      OneAttemptStep(old(trace), trace, VerifyMove, e);
      if world.throws(2) { Note(Crash); return false; }
      Note(VerifyMove);
      moved := ref == Some(e.commit) && treeAt(e.commit) == e.gitTree;
    }
  }
}
