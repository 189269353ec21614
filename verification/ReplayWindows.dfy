/** When evidence may be attached: the attempt, review and orchestrator-operation windows, read off the history alone. */
module ReplayWindows {
  import opened Prelude
  import opened PilotEvents
  import opened StateMachine
  import opened ReplayInvariants
  import opened ReplayTheorems

  // ---- Attempt evidence ------------------------------------------------------------

  /** Evidence for an attempt is accepted exactly between the completion of the last attempt and the start of its review. */
  lemma AttemptWindow(m: Manifest, boundary: Event -> string, c: Context, st: Machine, l: Ledger, id: string)
    requires Inv(m, boundary, c, st, l)
    ensures AcceptsEvidence(st, id) <==>
            |l.starts| == |l.dones| == |l.reviewStarts| + 1 && l.starts[|l.starts| - 1].attemptId == id
  {
    hide Reaches, RevisionChain, Capabilities, Independent, Escalated, CurrentAttempt, CurrentCompletion, CurrentReview;
    hide PreviousReview, AcceptedReview, RejectedReview, EscalationTarget, EvidenceKept, VerdictOk, ExecutorSet, ReviewerSet;
    hide ReviewKeys, OpenFindings;
    if AcceptsEvidence(st, id) {
      KnownAttempt(st.attempts.Keys, l.starts, id);
      var i :| 0 <= i < |l.starts| && l.starts[i].attemptId == id;
      assert RecordOf(st.attempts, l.starts, l.dones, |l.reviewStarts|, i);
    }
    if l.starts != [] {
      assert RecordOf(st.attempts, l.starts, l.dones, |l.reviewStarts|, |l.starts| - 1);
    }
  }

  // ---- Review windows --------------------------------------------------------------

  predicate CompletesReview(e: Event, id: string) { e.body.ReviewCompleted? && e.body.review.reviewId == id }

  ghost predicate ReviewDone(history: seq<Event>, n: nat, id: string)
    requires n <= |history|
  {
    exists i | 0 <= i < n :: CompletesReview(history[i], id)
  }

  ghost predicate NoneCloses(history: seq<Event>, after: nat, n: nat)
    requires n <= |history|
  {
    forall j | after < j < n :: !ClosesWindows(history[j].body)
  }

  /** The review was completed and nothing that ends its window has happened since. */
  ghost predicate WindowSpan(history: seq<Event>, n: nat, id: string)
    requires n <= |history|
  {
    exists i | 0 <= i < n :: CompletesReview(history[i], id) && NoneCloses(history, i, n)
  }

  lemma NoneClosesStep(history: seq<Event>, after: nat, n: nat)
    requires after < n < |history|
    ensures NoneCloses(history, after, n + 1) <==> NoneCloses(history, after, n) && !ClosesWindows(history[n].body)
  {
    hide ClosesWindows;
  }

  lemma ReviewDoneStep(history: seq<Event>, n: nat, id: string)
    requires n < |history|
    ensures ReviewDone(history, n + 1, id) <==> ReviewDone(history, n, id) || CompletesReview(history[n], id)
  {
    hide CompletesReview;
  }

  lemma WindowSpanStep(history: seq<Event>, n: nat, id: string)
    requires n < |history|
    ensures WindowSpan(history, n + 1, id) <==>
            CompletesReview(history[n], id) || (WindowSpan(history, n, id) && !ClosesWindows(history[n].body))
  {
    hide ClosesWindows, CompletesReview;
    if WindowSpan(history, n + 1, id) {
      var i :| 0 <= i < n + 1 && CompletesReview(history[i], id) && NoneCloses(history, i, n + 1);
      if i < n {
        NoneClosesStep(history, i, n);
      }
    }
    if CompletesReview(history[n], id) {
      assert NoneCloses(history, n, n + 1);
    } else if WindowSpan(history, n, id) && !ClosesWindows(history[n].body) {
      var i :| 0 <= i < n && CompletesReview(history[i], id) && NoneCloses(history, i, n);
      NoneClosesStep(history, i, n);
    }
  }

  predicate Completed(st: Machine, id: string) { id in st.reviews && st.reviews[id].completed.Some? }

  /** Executions and validations touch neither the reviews nor the operations. */
  lemma ExecutionFields(m: Manifest, c: Context, st: Machine, e: Event)
    requires e.body.ExecutionStarted? || e.body.ExecutionCompleted? || e.body.ValidationRecorded?
    requires Record(m, c, st, e).Ok?
    ensures Record(m, c, st, e).value.reviews == st.reviews
    ensures Record(m, c, st, e).value.operations == st.operations && Record(m, c, st, e).value.openOperation == st.openOperation
  {
    hide TreeReproduced, AcceptsEvidence, ValidationsOf;
  }

  lemma ReviewFields(m: Manifest, c: Context, st: Machine, e: Event)
    requires e.body.ReviewStarted? || e.body.ReviewCompleted?
    requires Record(m, c, st, e).Ok?
    ensures var id, next := e.body.review.reviewId, Record(m, c, st, e).value;
            && (if e.body.ReviewStarted? then id !in st.reviews && next.reviews == st.reviews[id := Review(e, None, false)]
                else && id in st.reviews
                     && next.reviews == st.reviews[id := st.reviews[id].(completed := Some(e), windowOpen := true)])
            && next.operations == st.operations && next.openOperation == st.openOperation
  {
    hide NextUnresolved, Evidence, SameStrings, ValidationsOf;
  }

  lemma OtherFields(m: Manifest, c: Context, st: Machine, e: Event)
    requires !e.body.ExecutionStarted? && !e.body.ExecutionCompleted? && !e.body.ValidationRecorded?
    requires !e.body.ReviewStarted? && !e.body.ReviewCompleted?
    requires Record(m, c, st, e).Ok?
    ensures Record(m, c, st, e).value.reviews == st.reviews
    ensures !e.body.OrchestratorOperation? ==> Record(m, c, st, e).value.operations == st.operations
    ensures !e.body.OrchestratorOperation? && !e.body.UsageRecorded? ==>
              Record(m, c, st, e).value.openOperation == st.openOperation
  {
    hide WindowOpen, AcceptsEvidence, FindBinding;
  }

  /** How one step moves the review records. */
  lemma ReviewRecordsStep(m: Manifest, boundary: Event -> string, c: Context, st: Machine, e: Event, next: Machine, id: string)
    requires Steps(m, boundary, c, st, e, next)
    ensures Completed(next, id) <==> Completed(st, id) || CompletesReview(e, id)
    ensures WindowOpen(next, id) <==> CompletesReview(e, id) || (WindowOpen(st, id) && !ClosesWindows(e.body))
  {
    hide Transition, Record;
    if e.body.ReviewStarted? || e.body.ReviewCompleted? {
      ReviewFields(m, c, Tick(st, e), e);
    } else if e.body.ExecutionStarted? || e.body.ExecutionCompleted? || e.body.ValidationRecorded? {
      ExecutionFields(m, c, Tick(st, e), e);
    } else {
      OtherFields(m, c, Tick(st, e), e);
    }
  }

  /** The window of a review is open exactly while its span lasts. */
  lemma {:induction false} ReviewWindow(m: Manifest, boundary: Event -> string, history: seq<Event>, n: nat, id: string)
    requires n <= |history| && Replay(m, boundary, history, n).Going?
    ensures Completed(Replay(m, boundary, history, n).machine, id) <==> ReviewDone(history, n, id)
    ensures WindowOpen(Replay(m, boundary, history, n).machine, id) <==> WindowSpan(history, n, id)
  {
    hide Step, Steps;
    if n > 0 {
      GoingBefore(m, boundary, history, n);
      var before := Replay(m, boundary, history, n - 1).machine;
      ReviewWindow(m, boundary, history, n - 1, id);
      GoingSteps(m, boundary, before, n - 1, history[n - 1]);
      ReviewRecordsStep(m, boundary, ContextOf(m, history[n - 1].blockId), before, history[n - 1],
                        Replay(m, boundary, history, n).machine, id);
      ReviewDoneStep(history, n - 1, id);
      WindowSpanStep(history, n - 1, id);
    }
  }

  // ---- Orchestrator operations -----------------------------------------------------

  predicate OwnedBy(e: Event, operationId: string) { e.body.UsageRecorded? && e.body.ownerOperation == Some(operationId) }

  predicate IsOperation(e: Event, operationId: string) { e.body.OrchestratorOperation? && e.body.operationId == operationId }

  ghost predicate OnlyOwned(history: seq<Event>, after: nat, n: nat, operationId: string)
    requires n <= |history|
  {
    forall j | after < j < n :: OwnedBy(history[j], operationId)
  }

  /** An operation was recorded and since then only its own usage. */
  ghost predicate OperationSpan(history: seq<Event>, n: nat, operationId: string)
    requires n <= |history|
  {
    exists i | 0 <= i < n :: IsOperation(history[i], operationId) && OnlyOwned(history, i, n, operationId)
  }

  lemma OperationSpanStep(history: seq<Event>, n: nat, id: string)
    requires n < |history|
    ensures OperationSpan(history, n + 1, id) <==>
            IsOperation(history[n], id) || (OperationSpan(history, n, id) && OwnedBy(history[n], id))
  {
    assert OnlyOwned(history, n, n + 1, id);
    assert forall i | 0 <= i < n :: OnlyOwned(history, i, n + 1, id) <==> OnlyOwned(history, i, n, id) && OwnedBy(history[n], id);
  }

  /** The open operation is stored under its own id, and it is what the operation map holds there. */
  ghost predicate OperationsKept(st: Machine) {
    && (forall id | id in st.operations :: IsOperation(st.operations[id], id))
    && (st.openOperation.Some? ==>
          && st.openOperation.value.body.OrchestratorOperation?
          && st.openOperation.value.body.operationId in st.operations
          && st.operations[st.openOperation.value.body.operationId] == st.openOperation.value)
  }

  predicate OpenFor(st: Machine, id: string) {
    st.openOperation.Some? && st.openOperation.value.body.OrchestratorOperation? && st.openOperation.value.body.operationId == id
  }

  lemma OperationStep(m: Manifest, boundary: Event -> string, c: Context, st: Machine, e: Event, next: Machine, id: string)
    requires Steps(m, boundary, c, st, e, next) && OperationsKept(st)
    ensures OperationsKept(next)
    ensures OpenFor(next, id) <==> IsOperation(e, id) || (OpenFor(st, id) && OwnedBy(e, id))
    ensures OwnedBy(e, id) ==> OpenFor(st, id) && e.body.role.Orchestrator?
  {
    if e.body.OrchestratorOperation? || e.body.UsageRecorded? {
      hide Transition, WindowOpen, AcceptsEvidence, FindBinding;
    } else {
      OperationFields(m, boundary, c, st, e, next);
    }
  }

  /** Only operations and usage touch the operation variables. */
  lemma OperationFields(m: Manifest, boundary: Event -> string, c: Context, st: Machine, e: Event, next: Machine)
    requires Steps(m, boundary, c, st, e, next) && !e.body.OrchestratorOperation? && !e.body.UsageRecorded?
    ensures next.operations == st.operations && next.openOperation == None
  {
    hide Transition, Record;
    if e.body.ReviewStarted? || e.body.ReviewCompleted? {
      ReviewFields(m, c, Tick(st, e), e);
    } else if e.body.ExecutionStarted? || e.body.ExecutionCompleted? || e.body.ValidationRecorded? {
      ExecutionFields(m, c, Tick(st, e), e);
    } else {
      OtherFields(m, c, Tick(st, e), e);
    }
  }

  /** An operation's window is open exactly while nothing but its own usage has followed it. */
  lemma {:induction false} OperationWindow(m: Manifest, boundary: Event -> string, history: seq<Event>, n: nat, id: string)
    requires n <= |history| && Replay(m, boundary, history, n).Going?
    ensures OperationsKept(Replay(m, boundary, history, n).machine)
    ensures OpenFor(Replay(m, boundary, history, n).machine, id) <==> OperationSpan(history, n, id)
  {
    hide Step, Steps;
    if n > 0 {
      GoingBefore(m, boundary, history, n);
      var before := Replay(m, boundary, history, n - 1).machine;
      OperationWindow(m, boundary, history, n - 1, id);
      GoingSteps(m, boundary, before, n - 1, history[n - 1]);
      OperationStep(m, boundary, ContextOf(m, history[n - 1].blockId), before, history[n - 1],
                    Replay(m, boundary, history, n).machine, id);
      OperationSpanStep(history, n - 1, id);
    }
  }

  // ---- Usage ownership -------------------------------------------------------------

  /** Usage is recorded only inside the window of every owner it names. */
  lemma UsageInsideWindows(m: Manifest, boundary: Event -> string, history: seq<Event>, n: nat)
    requires n < |history| && Replay(m, boundary, history, n + 1).Going? && history[n].body.UsageRecorded?
    ensures Replay(m, boundary, history, n).Going?
    ensures var p := history[n].body;
            && (p.ownerOperation.Some? ==> OperationSpan(history, n, p.ownerOperation.value) && p.role.Orchestrator?)
            && (p.ownerReview.Some? ==> WindowSpan(history, n, p.ownerReview.value) && p.role.Reviewer?)
            && (p.ownerAttempt.Some? ==>
                  AcceptsEvidence(Replay(m, boundary, history, n).machine, p.ownerAttempt.value) && p.role.Executor?)
  {
    hide Step, Steps;
    GoingBefore(m, boundary, history, n + 1);
    var e, before, after := history[n], Replay(m, boundary, history, n).machine, Replay(m, boundary, history, n + 1).machine;
    GoingSteps(m, boundary, before, n, e);
    var c, p := ContextOf(m, e.blockId), e.body;
    UsageChecks(m, boundary, c, before, e, after);
    if p.ownerOperation.Some? {
      OperationWindow(m, boundary, history, n, p.ownerOperation.value);
      OperationStep(m, boundary, c, before, e, after, p.ownerOperation.value);
    }
    if p.ownerReview.Some? {
      ReviewWindow(m, boundary, history, n, p.ownerReview.value);
    }
  }

  lemma UsageChecks(m: Manifest, boundary: Event -> string, c: Context, st: Machine, e: Event, next: Machine)
    requires Steps(m, boundary, c, st, e, next) && e.body.UsageRecorded?
    ensures var p := e.body;
            && (p.ownerReview.Some? ==> WindowOpen(st, p.ownerReview.value) && p.role.Reviewer?)
            && (p.ownerAttempt.Some? ==> AcceptsEvidence(st, p.ownerAttempt.value) && p.role.Executor?)
  {
    hide Transition;
  }
}
