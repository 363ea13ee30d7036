/** Final-verification attempts and the successor relation between them (final_verification_contracts.rs). */
module AttemptChain {
  import opened Outcomes
  import opened Identifiers
  import opened RepairSlots

  type DigestText = string

  datatype CommandSpec = CommandSpec(program: string, arguments: seq<string>, workingDirectory: string,
                                     directoryAccepted: bool)

  datatype Provenance = Provenance(
    coordinatorInstanceId: Identifier, admissionEventId: Identifier, admissionEventSequence: nat, admittedAtUnixMs: nat)

  datatype Predecessor =
    | Initial
    | SameSnapshotAfterFailedBeforeEffect(priorAttemptId: Identifier, closureId: Identifier)
    | SameSnapshotAfterControlInterruption(priorAttemptId: Identifier, controlId: Identifier, closureId: Identifier)
    | ChangedSnapshotAfterRepair(
        priorFailureId: Identifier, repairAdmissionId: Identifier, repairTaskDoneProofId: Identifier,
        integrationReceiptId: Identifier)

  datatype Attempt = Attempt(
    authorityVersion: nat,
    attemptId: Identifier,
    sprintId: Identifier,
    attemptOrdinal: U8,
    cap: U8,
    admissionId: Identifier,
    inputSnapshot: DigestText,
    taskDoneSet: DigestText,
    criterionEvidenceSet: DigestText,
    check: CommandSpec,
    policy: DigestText,
    provenance: Provenance,
    predecessor: Predecessor)

  datatype AttemptFault =
    | BadVersion | BlankIdentity | CapOutOfRange | OrdinalOutOfRange | BadCheck | BadProvenance
    | BlankPredecessor | InitialNotFirst | FirstNotInitial
    | ImmutableAuthorityCrossed | OrdinalNotNext | SuccessorIsInitial | SameSnapshotChanged | RepairUnchanged

  const ATTEMPT_AUTHORITY_VERSION: nat := 1
  const MIN_ATTEMPTS: nat := 1

  predicate PredecessorNamed(p: Predecessor) {
    match p
    case Initial => true
    case SameSnapshotAfterFailedBeforeEffect(prior, closure) => !Blank(prior) && !Blank(closure)
    case SameSnapshotAfterControlInterruption(prior, control, closure) => !Blank(prior) && !Blank(control)
      && !Blank(closure)
    case ChangedSnapshotAfterRepair(failure, admission, proof, receipt) =>
      !Blank(failure) && !Blank(admission) && !Blank(proof) && !Blank(receipt)
  }

  /** `validate`: intrinsic shape, cap, and the tie between ordinal one and `Initial`. */
  function Validate(a: Attempt): Result<(), AttemptFault> {
    if a.authorityVersion != ATTEMPT_AUTHORITY_VERSION then Err(BadVersion)
    else if Blank(a.attemptId) || Blank(a.sprintId) || Blank(a.admissionId) then Err(BlankIdentity)
    else if !(MIN_ATTEMPTS <= a.cap <= MAX_FINAL_VERIFICATION_ATTEMPTS) then Err(AttemptFault.CapOutOfRange)
    else if a.attemptOrdinal == 0 || a.attemptOrdinal > a.cap then Err(OrdinalOutOfRange)
    else if Blank(a.check.program) || (a.check.workingDirectory != "" && !a.check.directoryAccepted) then Err(BadCheck)
    else if Blank(a.provenance.coordinatorInstanceId) || Blank(a.provenance.admissionEventId)
            || a.provenance.admissionEventSequence == 0 || a.provenance.admittedAtUnixMs == 0 then Err(BadProvenance)
    else if !PredecessorNamed(a.predecessor) then Err(BlankPredecessor)
    else if a.predecessor.Initial? then if a.attemptOrdinal == 1 then Ok(()) else Err(InitialNotFirst)
    else if a.attemptOrdinal == 1 then Err(FirstNotInitial)
    else Ok(())
  }

  function SaturatingNext(ordinal: U8): U8 {
    if ordinal == 255 then 255 else ordinal + 1
  }

  /** `validate_successor_of`. */
  function ValidateSuccessor(next: Attempt, prior: Attempt): Result<(), AttemptFault> {
    if Validate(next).Err? then Validate(next)
    else if Validate(prior).Err? then Validate(prior)
    else if next.sprintId != prior.sprintId || next.cap != prior.cap || next.check != prior.check
            || next.policy != prior.policy
      then Err(ImmutableAuthorityCrossed)
    else if next.attemptOrdinal != SaturatingNext(prior.attemptOrdinal) then Err(OrdinalNotNext)
    else match next.predecessor
      case Initial => Err(SuccessorIsInitial)
      case SameSnapshotAfterFailedBeforeEffect(id, _) => BoundToPrior(next, prior, id)
      case SameSnapshotAfterControlInterruption(id, _, _) => BoundToPrior(next, prior, id)
      case ChangedSnapshotAfterRepair(_, _, _, _) =>
        if next.inputSnapshot == prior.inputSnapshot || next.taskDoneSet == prior.taskDoneSet
           || next.criterionEvidenceSet == prior.criterionEvidenceSet then Err(RepairUnchanged)
        else Ok(())
  }

  function BoundToPrior(next: Attempt, prior: Attempt, id: Identifier): Result<(), AttemptFault> {
    if id != prior.attemptId || Evidence(next) != Evidence(prior) then Err(SameSnapshotChanged) else Ok(())
  }

  /** What an attempt verifies: its snapshot and both complete evidence sets. */
  function Evidence(a: Attempt): (DigestText, DigestText, DigestText) {
    (a.inputSnapshot, a.taskDoneSet, a.criterionEvidenceSet)
  }

  // ---------- runs ----------

  /** A run of attempts: a valid `Initial` one, then accepted successors. */
  ghost predicate Chain(run: seq<Attempt>) {
    && run != []
    && Validate(run[0]).Ok? && run[0].predecessor.Initial?
    && forall k :: 0 <= k < |run| - 1 ==> Linked(run, k)
  }

  predicate Linked(run: seq<Attempt>, k: nat)
    requires k + 1 < |run|
  {
    ValidateSuccessor(run[k + 1], run[k]).Ok?
  }

  /** Links of a run that follow a repair. */
  function RepairLinks(run: seq<Attempt>): nat {
    if |run| <= 1 then 0
    else RepairLinks(run[..|run| - 1]) + if run[|run| - 1].predecessor.ChangedSnapshotAfterRepair? then 1 else 0
  }

  lemma {:induction false} ChainPrefix(run: seq<Attempt>, n: nat)
    requires Chain(run) && 0 < n <= |run|
    ensures Chain(run[..n])
  {
    forall k | 0 <= k < n - 1 ensures Linked(run[..n], k) {
      assert Linked(run, k);
    }
  }

  /** Ordinals count 1, 2, ... and never pass the cap; sprint, cap, check and policy never change. */
  lemma {:induction false} ChainBounded(run: seq<Attempt>, k: nat)
    requires Chain(run) && k < |run|
    ensures Validate(run[k]).Ok? && run[k].attemptOrdinal == k + 1
    ensures run[k].sprintId == run[0].sprintId && run[k].cap == run[0].cap
    ensures run[k].check == run[0].check && run[k].policy == run[0].policy
    ensures k + 1 <= run[0].cap <= 3
  {
    if k > 0 {
      ChainBounded(run, k - 1);
      assert Linked(run, k - 1);
    }
  }

  /** A run is no longer than its cap. */
  lemma {:induction false} ChainLength(run: seq<Attempt>)
    requires Chain(run)
    ensures |run| <= run[0].cap <= 3
  {
    ChainBounded(run, |run| - 1);
  }

  /** Every link is one of the two kinds, and a repair link changes all three pieces of evidence. */
  lemma {:induction false} LinkEvidence(run: seq<Attempt>, k: nat)
    requires Chain(run) && k + 1 < |run|
    ensures !run[k + 1].predecessor.Initial?
    ensures run[k + 1].predecessor.ChangedSnapshotAfterRepair? ==>
      Evidence(run[k + 1]).0 != Evidence(run[k]).0 && Evidence(run[k + 1]).1 != Evidence(run[k]).1
      && Evidence(run[k + 1]).2 != Evidence(run[k]).2
    ensures !run[k + 1].predecessor.ChangedSnapshotAfterRepair? ==>
      Evidence(run[k + 1]) == Evidence(run[k]) && run[k + 1].predecessor.priorAttemptId == run[k].attemptId
  {
    assert Linked(run, k);
  }

  /** Evidence changes only at repair links: between two attempts with none in between it is the same. */
  lemma {:induction false} EvidenceStable(run: seq<Attempt>, i: nat, j: nat)
    requires Chain(run) && i <= j < |run|
    requires forall k :: i < k <= j ==> !run[k].predecessor.ChangedSnapshotAfterRepair?
    ensures Evidence(run[j]) == Evidence(run[i])
  {
    if i < j {
      EvidenceStable(run, i, j - 1);
      LinkEvidence(run, j - 1);
    }
  }

  /** The snapshots a run has verified are at most one more than its repairs. */
  lemma {:induction false} SnapshotsBounded(run: seq<Attempt>)
    requires Chain(run)
    ensures |Snapshots(run)| <= RepairLinks(run) + 1 <= |run|
  {
    var last := |run| - 1;
    SnapshotsGrow(run);
    if last > 0 {
      ChainPrefix(run, last);
      SnapshotsBounded(run[..last]);
      LinkEvidence(run, last - 1);
      assert run[..last][last - 1] == run[last - 1];
    }
  }

  /** The last attempt adds at most its own snapshot, and none when it repeats the one before. */
  lemma {:induction false} SnapshotsGrow(run: seq<Attempt>)
    requires run != []
    ensures |run| == 1 ==> |Snapshots(run)| == 1
    ensures |run| > 1 ==> |Snapshots(run)| <= |Snapshots(run[..|run| - 1])| + 1
    ensures |run| > 1 && run[|run| - 1].inputSnapshot == run[|run| - 2].inputSnapshot ==>
      Snapshots(run) == Snapshots(run[..|run| - 1])
  {
    var last := |run| - 1;
    if last == 0 {
      assert Snapshots(run) == {run[0].inputSnapshot};
    } else {
      assert Snapshots(run) == Snapshots(run[..last]) + {run[last].inputSnapshot};
      if run[last].inputSnapshot == run[last - 1].inputSnapshot {
        assert run[..last][last - 1].inputSnapshot in Snapshots(run[..last]);
      }
    }
  }

  function Snapshots(run: seq<Attempt>): set<DigestText> {
    set k | 0 <= k < |run| :: run[k].inputSnapshot
  }

  /** A graph accepted under the run's cap always holds a slot for every repair link the run can have. */
  lemma {:induction false} RepairsWithinReserve(run: seq<Attempt>, tasks: seq<TaskSpec>, criteria: set<Identifier>,
                                                maxTasks: nat)
    requires Chain(run) && AcceptedGraph(tasks, criteria, maxTasks, run[0].cap)
    ensures RepairLinks(run) <= |Slots(tasks)|
  {
    ChainLength(run);
    SnapshotsBounded(run);
  }

  /** A valid attempt can be succeeded exactly while its ordinal is below the cap. */
  lemma {:induction false} SuccessorExists(prior: Attempt)
    requires Validate(prior).Ok?
    ensures (exists next :: ValidateSuccessor(next, prior).Ok?) <==> prior.attemptOrdinal < prior.cap
  {
    if prior.attemptOrdinal < prior.cap {
      assert !IsWhiteSpace("c"[0]);
      var next := prior.(attemptOrdinal := prior.attemptOrdinal + 1,
                         predecessor := SameSnapshotAfterFailedBeforeEffect(prior.attemptId, "c"));
      assert ValidateSuccessor(next, prior).Ok?;
    }
  }
}
