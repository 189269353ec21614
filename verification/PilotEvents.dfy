/** The pilot's event and manifest values, restricted to the fields the log and the state machine read. */
module PilotEvents {
  import opened Prelude

  datatype Arm = StrongBaseline | CheapNoEscalation | AdaptiveEscalation
  datatype Capability = Cheap | Strong
  datatype AttemptKind = Implementation | Repair | FinalExecution
  datatype Decision = Accept | Reject
  datatype Role = Orchestrator | Executor | Reviewer

  datatype Finding = Finding(findingId: string, material: bool, open: bool)

  /** The fields an execution start and its completion share; they name who owns the attempt. */
  datatype AttemptOwner = AttemptOwner(
    attemptId: string, number: int, kind: AttemptKind, capability: Capability,
    bindingRef: string, session: string, inputRevision: string, startedMs: int)

  /** The fields a review start and its completion share. */
  datatype ReviewOwner = ReviewOwner(
    reviewId: string, round: int, bindingRef: string, session: string,
    attemptId: string, executorSession: string, startedMs: int)

  datatype Payload =
    | BlockPlanned(plannedBlockHash: string)
    | ArmAssigned(assignedArm: Arm, algorithmVersion: string)
    | IsolationAttested(workspaceId: string, baseRevision: string, cleanTreeHash: string, clean: bool,
                        observedTreeHash: string, isolationPolicyVersion: string)
    | ExecutionStarted(attempt: AttemptOwner)
    | ExecutionCompleted(attempt: AttemptOwner, outputRevision: string, outputTreeHash: string,
                         treeAlgorithmVersion: string, volatilePathsHash: string, reproduced: bool,
                         finishedMs: int, durationMs: int)
    | ValidationRecorded(attemptId: string, surface: seq<string>, passed: bool, testsFailing: int, evidence: seq<string>)
    | ReviewStarted(review: ReviewOwner)
    | ReviewCompleted(review: ReviewOwner, inputDiffHash: string, previousBoundary: Option<string>, boundaryHash: string,
                      fromRevision: string, toRevision: string, unresolvedIds: seq<string>, evidence: seq<string>,
                      material: seq<Finding>, nonMaterial: seq<Finding>, decision: Decision,
                      finishedMs: int, durationMs: int)
    | OrchestratorOperation(operationId: string, attemptNumber: int, operationBinding: string)
    | UsageRecorded(role: Role, usageBinding: string, pricingSnapshotId: string, currency: string, attemptNumber: int,
                    ownerAttempt: Option<string>, ownerReview: Option<string>, ownerOperation: Option<string>)
    | ParentRework(reworkReview: string, attemptId: string)
    | EscalationDecided(rejectedReviewEventId: string, targetBinding: string, targetCapability: Capability, policyVersion: string)
    | BlockAccepted(acceptedRevision: string, acceptedTreeHash: string)
    | BlockFailed
    | BlockBlocked
    | DefectRecorded(acceptedReviewId: string, affectedRevision: string)
    | EventInvalidated(invalidatedId: string, expectedHash: string)

  datatype Supersession = Supersession(eventId: string, expectedHash: string)

  /** `occurredAt` is the parsed instant, absent when the timestamp names no calendar instant. */
  datatype Event = Event(
    eventId: string, pilotId: string, manifestHash: string, taskId: string, blockId: string,
    stratum: string, tripletId: string, fingerprint: string, arm: Option<Arm>,
    sequence: int, occurredAt: Option<int>, body: Payload, supersedes: Option<Supersession>)

  datatype Block = Block(
    blockId: string, taskId: string, stratum: string, tripletId: string, fingerprint: string,
    comparative: bool, initialCapability: Capability, finalCapability: Capability,
    contractHash: string, baseRevision: string, cleanTreeHash: string, validationSurface: seq<string>)

  datatype Assignment = Assignment(blockId: string, arm: Arm)
  datatype Binding = Binding(bindingRef: string, capability: Capability)

  datatype Manifest = Manifest(
    pilotId: string, manifestHash: string, blocks: seq<Block>, assignments: seq<Assignment>,
    bindings: seq<Binding>, assignmentVersion: string, isolationPolicyVersion: string,
    treeAlgorithmVersion: string, volatilePathsHash: string, reviewerBinding: string,
    routingPolicyVersion: string, pricingSnapshotId: string, currency: string)

  predicate IsInvalidation(e: Event) { e.body.EventInvalidated? }

  /** `e` is an invalidation of the event called `id`. */
  predicate Invalidates(e: Event, id: string) { e.body.EventInvalidated? && e.body.invalidatedId == id }

  predicate Supersedes(e: Event, id: string) { e.supersedes.Some? && e.supersedes.value.eventId == id }
}
