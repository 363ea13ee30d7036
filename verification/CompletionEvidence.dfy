/** The evidence that completion is computed from (completion.rs). `valid` stands for a record's own validation. */
module CompletionEvidence {
  import opened Outcomes
  import opened Identifiers

  type DigestText = string
  type U32 = x: nat | x < 0x1_0000_0000

  datatype Sprint = Sprint(sprintId: Identifier, baseSnapshot: DigestText, grantHash: DigestText, policyVersion: U32)

  datatype GraphTask = GraphTask(taskId: Identifier, required: bool)

  datatype Purpose = TaskWorker | FinalVerifier | LiveStateVerifier | Applier

  datatype Lease = Lease(valid: bool, leaseId: Identifier, assignment: string)

  /** The policy under which a runner works. */
  datatype Policy = Policy(policyHash: DigestText, grantHash: DigestText, policyVersion: U32)

  /** The runner a launch admits and a session registers. */
  datatype Runner = Runner(binary: DigestText, protocol: DigestText, privateState: DigestText)

  datatype Launch = Launch(
    valid: bool, launchId: Identifier, sprintId: Identifier, sessionId: Identifier, purpose: Purpose,
    workerId: Option<Identifier>, lease: Option<Lease>, policy: Policy, runner: Runner, createdAt: nat)

  datatype Session = Session(
    valid: bool, sprintId: Identifier, launchId: Identifier, sessionId: Identifier, purpose: Purpose,
    workerId: Option<Identifier>, lease: Option<Lease>, policy: Policy, runner: Runner, registeredAt: nat)

  datatype Verification = Verification(
    valid: bool, receiptId: Identifier, sprintId: Identifier, taskId: Option<Identifier>, snapshot: DigestText,
    policyHash: DigestText, finishedAt: nat, passed: bool)

  datatype VerificationEffect = VerificationEffect(
    valid: bool, launchId: Identifier, sessionId: Identifier, verification: Verification)

  datatype Cleanup = Cleanup(
    valid: bool, sprintId: Identifier, launchId: Identifier, sessionId: Identifier, lease: Option<Lease>,
      policy: Policy,
    cleanedAt: nat)

  datatype Integration = Integration(
    valid: bool, receiptId: Identifier, sprintId: Identifier, ordinal: U32, taskId: Identifier, workerId: Identifier,
    launchId: Identifier, sessionId: Identifier, lease: Option<Lease>, policyHash: DigestText,
    verificationIds: seq<Identifier>, inputSnapshot: DigestText, resultSnapshot: DigestText, integratedAt: nat)

  datatype ValidationMode = DirectEffectResponse | RecoveryApplierReconciliation

  datatype Application = Application(
    valid: bool, receiptId: Identifier, transactionId: Identifier, sprintId: Identifier, baseSnapshot: DigestText,
    resultSnapshot: DigestText, policy: Policy, applierSessionId: Identifier, appliedAt: nat,
    mode: ValidationMode, validatorLaunchId: Identifier, validatorSessionId: Identifier, validatorPolicy: Policy,
    validatorPrivateState: DigestText)

  datatype Rollback = Rollback(
    valid: bool, sprintId: Identifier, baseSnapshot: DigestText, applicationReceiptId: Identifier,
    transactionId: Identifier, validatedAt: nat)

  datatype NoOp = NoOp(
    valid: bool, sprintId: Identifier, baseSnapshot: DigestText, grantHash: DigestText, policyVersion: U32,
    finalVerificationReceiptId: Identifier, observedAt: nat)

  /** `consistent` stands for the comparison of the receipt with every other identity list. */
  datatype CompletionReceipt = CompletionReceipt(consistent: bool, completedAt: nat)

  /** `contractsValid` and `criteriaSatisfied` stand for the two leading requirements. */
  datatype Evidence = Evidence(
    contractsValid: bool,
    criteriaSatisfied: bool,
    integrations: seq<Integration>,
    effects: seq<VerificationEffect>,
    finalSnapshot: DigestText,
    finalVerification: Option<Verification>,
    finalSessionId: Option<Identifier>,
    sessions: seq<Session>,
    launches: seq<Launch>,
    application: Option<Application>,
    noOp: Option<NoOp>,
    cleanups: seq<Cleanup>,
    rollback: Option<Rollback>,
    unresolvedConflicts: nat,
    unknownSideEffects: nat,
    activeLeases: nat,
    releasedLeases: seq<Lease>,
    receipt: Option<CompletionReceipt>,
    receiptPersisted: bool,
    finalReportId: Option<Identifier>)
}
