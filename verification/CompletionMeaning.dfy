/** What each completion requirement says, on the fields of the evidence (completion.rs). */
module CompletionMeaning {
  import opened Outcomes
  import opened Identifiers
  import opened CompletionEvidence

  datatype Requirement =
    | ContractsValid | AllCriteriaSatisfied | AllRequiredTasksIntegrated | FinalSnapshotVerified
    | NoOpCaptureAuthorized | FinalSnapshotApplied | LiveHashesMatch | NoUnresolvedConflicts | NoUnknownSideEffects
    | NoSurvivingProcesses | NoActiveWorkerLeases | RollbackReady | FinalReportAvailable
    | ReceiptConsistent | ReceiptPersisted

  // ---------- integrations ----------

  /** A valid, passing verification of this task and this result, run in the integration's own launch, in time. */
  ghost predicate Verifies(sprint: Sprint, f: VerificationEffect, r: Integration) {
    && f.valid && f.verification.passed
    && f.verification.sprintId == sprint.sprintId && f.verification.taskId == Some(r.taskId)
    && f.verification.snapshot == r.resultSnapshot && f.verification.policyHash == r.policyHash
    && f.launchId == r.launchId && f.sessionId == r.sessionId && f.verification.finishedAt <= r.integratedAt
  }

  /**
   * A valid receipt of a task of the graph, from that worker's session and launch, every verification it names
   * passed.
   */
  ghost predicate SoundReceipt(sprint: Sprint, tasks: seq<GraphTask>, e: Evidence, r: Integration) {
    && r.valid && r.sprintId == sprint.sprintId && (exists t :: t in tasks && t.taskId == r.taskId)
    && (exists s :: s in e.sessions && s.sessionId == r.sessionId && s.launchId == r.launchId
                    && s.purpose == TaskWorker && s.workerId == Some(r.workerId) && s.lease == r.lease
                    && s.policy.policyHash == r.policyHash)
    && (exists l :: l in e.launches && l.launchId == r.launchId && l.sessionId == r.sessionId && l.lease == r.lease)
    && (forall id :: id in r.verificationIds ==>
         exists f :: f in e.effects && f.verification.receiptId == id && Verifies(sprint, f, r))
  }

  /** Numbered 0 to n-1, no receipt or task twice, each starting where the one numbered before it ended. */
  ghost predicate Chained(sprint: Sprint, e: Evidence) {
    var n := |e.integrations|;
    && (forall r :: r in e.integrations ==> r.ordinal < n)
    && (forall i, j :: 0 <= i < j < n ==>
         && e.integrations[i].ordinal != e.integrations[j].ordinal
         && e.integrations[i].receiptId != e.integrations[j].receiptId
         && e.integrations[i].taskId != e.integrations[j].taskId)
    && (forall r :: r in e.integrations && r.ordinal == 0 ==> r.inputSnapshot == sprint.baseSnapshot)
    && (forall r, q :: r in e.integrations && q in e.integrations && q.ordinal == r.ordinal + 1 ==>
         q.inputSnapshot == r.resultSnapshot)
    && (forall r :: r in e.integrations && r.ordinal == n - 1 ==> r.resultSnapshot == e.finalSnapshot)
    && (n == 0 ==> sprint.baseSnapshot == e.finalSnapshot)
  }

  ghost predicate Integrated(sprint: Sprint, tasks: seq<GraphTask>, e: Evidence) {
    && Chained(sprint, e)
    && (forall r :: r in e.integrations ==> SoundReceipt(sprint, tasks, e, r))
    && (forall t :: t in tasks && t.required ==> exists r :: r in e.integrations && r.taskId == t.taskId)
  }

  // ---------- the final verdict ----------

  /** A valid, passed verification of the sprint, of no task, of the final snapshot, and a valid effect with it. */
  ghost predicate Verified(sprint: Sprint, e: Evidence) {
    exists v, f ::
      && e.finalVerification == Some(v) && v.valid && v.passed && v.sprintId == sprint.sprintId && v.taskId == None
      && v.snapshot == e.finalSnapshot && f in e.effects && f.valid && f.verification == v
  }

  // ---------- launches, sessions and cleanups ----------

  ghost predicate LaunchesSound(sprint: Sprint, e: Evidence) {
    && |e.launches| > 0
    && (forall l :: l in e.launches ==>
         && l.valid && l.sprintId == sprint.sprintId
         && l.policy.grantHash == sprint.grantHash && l.policy.policyVersion == sprint.policyVersion)
    && (forall i, j :: 0 <= i < j < |e.launches| ==>
         e.launches[i].launchId != e.launches[j].launchId && e.launches[i].sessionId != e.launches[j].sessionId)
  }

  /** The launch that a session registers, repeated in every field they share. */
  ghost predicate LaunchedAs(l: Launch, s: Session) {
    && l.launchId == s.launchId && l.sessionId == s.sessionId && l.purpose == s.purpose && l.workerId == s.workerId
    && l.lease == s.lease && l.policy.policyHash == s.policy.policyHash && l.runner == s.runner
    && l.createdAt <= s.registeredAt
  }

  ghost predicate SessionsSound(sprint: Sprint, e: Evidence) {
    && (forall s :: s in e.sessions ==>
         && s.valid && s.sprintId == sprint.sprintId
         && s.policy.grantHash == sprint.grantHash && s.policy.policyVersion == sprint.policyVersion
         && exists l :: l in e.launches && LaunchedAs(l, s))
    && (forall i, j :: 0 <= i < j < |e.sessions| ==> e.sessions[i].sessionId != e.sessions[j].sessionId)
  }

  /** The named final session was a final verifier's, under the verdict's policy, and carried out the verification. */
  ghost predicate FinalVerifierRan(e: Evidence) {
    exists v, s, f ::
      && e.finalVerification == Some(v) && s in e.sessions && e.finalSessionId == Some(s.sessionId)
      && s.purpose == FinalVerifier && s.policy.policyHash == v.policyHash && s.registeredAt <= v.finishedAt
      && f in e.effects && f.verification == v && f.sessionId == s.sessionId && f.launchId == s.launchId
  }

  /**
   * The cleanup of a launch: its session, lease and policy, after it began, and for the final verifier after the
   * verdict.
   */
  ghost predicate Cleans(e: Evidence, l: Launch, c: Cleanup) {
    && c.launchId == l.launchId && c.sessionId == l.sessionId && c.lease == l.lease && c.policy == l.policy
    && l.createdAt <= c.cleanedAt
    && (exists s :: s in e.sessions && s.launchId == l.launchId && s.sessionId == l.sessionId && s.lease == l.lease)
    && (forall s :: s in e.sessions && s.launchId == l.launchId && e.finalSessionId == Some(s.sessionId) ==>
         exists v :: e.finalVerification == Some(v) && v.finishedAt <= c.cleanedAt)
  }

  ghost predicate CleanupsSound(sprint: Sprint, e: Evidence) {
    && |e.cleanups| == |e.launches|
    && (forall c :: c in e.cleanups ==> c.valid && c.sprintId == sprint.sprintId)
    && (forall i, j :: 0 <= i < j < |e.cleanups| ==> e.cleanups[i].launchId != e.cleanups[j].launchId)
    && (forall l :: l in e.launches ==> exists c :: c in e.cleanups && Cleans(e, l, c))
  }

  ghost predicate NothingSurvives(sprint: Sprint, e: Evidence) {
    && LaunchesSound(sprint, e) && SessionsSound(sprint, e) && FinalVerifierRan(e) && CleanupsSound(sprint, e)
  }

  // ---------- leases ----------

  ghost predicate Carried(e: Evidence, lease: Lease) {
    exists l :: l in e.launches && l.lease == Some(lease)
  }

  ghost predicate LeaseOfKind(l: Launch) {
    match l.purpose
    case TaskWorker => l.lease.Some? && l.lease.value.valid
    case FinalVerifier => l.lease == None
    case Applier => l.lease == None
    case LiveStateVerifier => false
  }

  /**
   * Task workers, and no other admitted launch, carry a lease; each carried lease is released once, and no other is.
   */
  ghost predicate LeasesReturned(e: Evidence) {
    && e.activeLeases == 0
    && (forall l :: l in e.launches ==> LeaseOfKind(l))
    && (forall i, j :: 0 <= i < j < |e.launches| && e.launches[i].lease.Some? && e.launches[j].lease.Some? ==>
         e.launches[i].lease.value.leaseId != e.launches[j].lease.value.leaseId)
    && (forall i, j :: 0 <= i < j < |e.releasedLeases| ==> e.releasedLeases[i].leaseId != e.releasedLeases[j].leaseId)
    && (forall lease :: lease in e.releasedLeases <==> Carried(e, lease))
    && (forall r :: r in e.integrations ==> exists lease :: r.lease == Some(lease) && Carried(e, lease))
    && (forall c, lease :: c in e.cleanups && c.lease == Some(lease) ==> Carried(e, lease))
  }

  // ---------- application and rollback ----------

  /** The applier's session and the validator's: one session for a direct response, two launches after a recovery. */
  ghost predicate Authorized(a: Application, x: Session, v: Session) {
    && x.sessionId == a.applierSessionId && x.purpose == Applier && x.policy.policyHash == a.policy.policyHash
    && v.sessionId == a.validatorSessionId && v.purpose == Applier && v.launchId == a.validatorLaunchId
    && v.policy == a.validatorPolicy && v.runner.privateState == a.validatorPrivateState
    && v.policy == x.policy && v.runner == x.runner
    && (a.mode == DirectEffectResponse ==> v.launchId == x.launchId && v.sessionId == x.sessionId)
    && (a.mode == RecoveryApplierReconciliation ==> v.launchId != x.launchId && v.sessionId != x.sessionId)
  }

  /** When the cleanup of launch `l` must lie. */
  ghost predicate CleanedInOrder(e: Evidence, a: Application, x: Session, v: Session, l: Launch, c: Cleanup) {
    && (forall receipt :: e.receipt == Some(receipt) ==> c.cleanedAt <= receipt.completedAt)
    && (l.purpose != Applier ==> c.cleanedAt <= a.appliedAt)
    && (l.purpose == Applier && l.launchId == v.launchId ==>
         a.appliedAt <= c.cleanedAt
         && exists rollback :: e.rollback == Some(rollback) && rollback.validatedAt <= c.cleanedAt)
    && (l.purpose == Applier && l.launchId != v.launchId && l.launchId == x.launchId ==> a.appliedAt <= c.cleanedAt)
    && (l.purpose == Applier && l.launchId != v.launchId && l.launchId != x.launchId ==> c.cleanedAt <= a.appliedAt)
  }

  /** An application of base to final under the sprint's grant, after the verdict, every cleanup in its place. */
  ghost predicate AppliedLive(sprint: Sprint, e: Evidence) {
    exists a, verdict, x, v ::
      && e.application == Some(a) && e.noOp == None && e.finalVerification == Some(verdict)
      && AppliedAfter(sprint, e, a, verdict) && Executed(e, a, x, v)
  }

  ghost predicate AppliedAfter(sprint: Sprint, e: Evidence, a: Application, verdict: Verification) {
    && a.valid && a.sprintId == sprint.sprintId
    && a.baseSnapshot == sprint.baseSnapshot && a.resultSnapshot == e.finalSnapshot
    && a.policy.grantHash == sprint.grantHash && a.policy.policyVersion == sprint.policyVersion
    && verdict.finishedAt <= a.appliedAt
  }

  /** Sessions of the evidence carried out and validated the application, with every cleanup in its place. */
  ghost predicate Executed(e: Evidence, a: Application, x: Session, v: Session) {
    && x in e.sessions && v in e.sessions && Authorized(a, x, v)
    && forall c :: c in e.cleanups ==>
         exists l :: l in e.launches && l.launchId == c.launchId && CleanedInOrder(e, a, x, v, l, c)
  }

  /** The first cleanup of a session. */
  ghost predicate FirstOf(cleanups: seq<Cleanup>, sessionId: Identifier, i: nat) {
    i < |cleanups| && cleanups[i].sessionId == sessionId && forall j :: 0 <= j < i ==>
      cleanups[j].sessionId != sessionId
  }

  /** Nothing was applied and nothing can be rolled back, or the application's own rollback was validated in time. */
  ghost predicate CanRollBack(sprint: Sprint, e: Evidence) {
    || (e.application == None && e.noOp.Some? && e.rollback == None)
    || exists a, r, i: nat ::
         && e.application == Some(a) && e.noOp == None && e.rollback == Some(r) && a.valid && r.valid
         && r.sprintId == sprint.sprintId && r.baseSnapshot == sprint.baseSnapshot
         && r.applicationReceiptId == a.receiptId && r.transactionId == a.transactionId
         && a.appliedAt <= r.validatedAt
         && FirstOf(e.cleanups, a.validatorSessionId, i)
         && a.appliedAt <= e.cleanups[i].cleanedAt && r.validatedAt <= e.cleanups[i].cleanedAt
  }

  // ---------- every requirement ----------

  ghost predicate Meant(sprint: Sprint, tasks: seq<GraphTask>, e: Evidence, q: Requirement) {
    match q
    case ContractsValid => e.contractsValid
    case AllCriteriaSatisfied => e.criteriaSatisfied
    case AllRequiredTasksIntegrated => Integrated(sprint, tasks, e)
    case FinalSnapshotVerified => Verified(sprint, e)
    case NoOpCaptureAuthorized => !(e.application == None && e.noOp.Some?)
    case FinalSnapshotApplied => NothingSurvives(sprint, e) && AppliedLive(sprint, e) && Verified(sprint, e)
    case LiveHashesMatch => NothingSurvives(sprint, e) && AppliedLive(sprint, e)
    case NoUnresolvedConflicts => e.unresolvedConflicts == 0
    case NoUnknownSideEffects => e.unknownSideEffects == 0
    case NoSurvivingProcesses => NothingSurvives(sprint, e)
    case NoActiveWorkerLeases => LeasesReturned(e)
    case RollbackReady => CanRollBack(sprint, e)
    case FinalReportAvailable =>
      exists report, i :: e.finalReportId == Some(report) && 0 <= i < |report| && !Trimmed(report[i] as int)
    case ReceiptConsistent =>
      Integrated(sprint, tasks, e) && exists receipt :: e.receipt == Some(receipt) && receipt.consistent
    case ReceiptPersisted =>
      e.receiptPersisted && Integrated(sprint, tasks, e)
        && exists receipt :: e.receipt == Some(receipt) && receipt.consistent
  }
}
