/** Source change sets, their material and blob accounting, and their replay (application_composition.rs). */
module Sources {
  import opened Outcomes
  import opened Bytes
  import opened Paths
  import opened Manifest
  import opened Replay
  import opened Runs
  import opened BlobAccounting

  const MAX_SOURCES := 4096
  const MAX_OPERATIONS := 4096
  const MAX_TOTAL_BYTES := 64 * 1048576

  datatype MaterialKind = CreateMaterial(mode: nat) | ModifyMaterial

  datatype SourceMaterial = SourceMaterial(
    operationIndex: nat, path: Path, resultDigest: Digest, byteLength: nat, artifact: Digest, kind: MaterialKind)

  /** The records a source projects, none of which another source may project again. */
  datatype Members = Members(
    taskId: ByteString, attemptId: ByteString, taskDoneProofId: ByteString, integrationReceiptId: ByteString)

  /** The decision-relevant part of a source projection. */
  datatype Source = Source(
    ordinal: nat, inputSnapshot: Digest, resultSnapshot: Digest, artifact: Digest,
    operations: seq<FileOperation>, materials: seq<SourceMaterial>, identity: Digest, members: Members)

  datatype Limit =
    | SourceCount | OperationCount | MaterialCount | NodeCount | DirectoryCount | OperationIndex | FileBytes | BlobBytes

  /** What composing inputs can report. */
  datatype CompositionConflict =
    | ReplayRejected(conflict: ReplayConflict)
    | NonPortablePath(ordinal: Option<nat>, path: Path, kind: PathConflict)
    | DuplicateOperation(source: nat, path: Path)
    | NoOpModify(source: nat)
    | SnapshotOperationDisagreement(source: nat)
    | ResultMaterialMismatch(ordinal: Option<nat>)
    | LimitExceeded(limit: Limit)
    | BlobRejected(blob: BlobConflict)
    | BaseFileMetadata
    | NonCanonicalPathOrder
    | BaseTopologyConflict(path: Path, conflicting: Path)
    | IncompleteDirectoryProjection(path: Path, missing: Path)
    | ManifestRejected(error: ManifestError)
    | BaseSnapshotMismatch
    | BaseProjectionSnapshotMismatch
    | SourceCoverageCountMismatch
    | SourceCoverageIdentityMismatch
    | DuplicateSourceMember
    | SourceOrdinalMismatch
    | SnapshotChainMismatch
    | SourceResultSnapshotMismatch(source: nat)
    | UnrepresentableModeTransition(path: Path)
    | UnrepresentableLengthTransition(path: Path)
    | AggregateSnapshotMismatch
    | Defensive(check: DefensiveCheck)

  /** The checks that only guard against a defect in the composer itself. */
  datatype DefensiveCheck =
    | AggregateOriginMissing
    | AggregateReplayRejected(conflict: ReplayConflict)
    | FinalSnapshotMismatch
    | UnrepresentableAggregateTopology
    | PlanRejected

  /** A conflict found while validating one input. */
  predicate IsInputConflict(e: CompositionConflict) {
    !e.Defensive? && !e.AggregateSnapshotMismatch?
  }

  // ---------- pairing operations with material ----------

  /** How many of the first `n` operations carry material: the running `material_index`. */
  function MaterialIndex(ops: seq<FileOperation>, n: nat): (index: nat)
    requires n <= |ops|
    ensures index <= n
  {
    if n == 0 then 0 else MaterialIndex(ops, n - 1) + if NeedsMaterial(ops[n - 1]) then 1 else 0
  }

  lemma {:induction false} MaterialIndexMonotone(ops: seq<FileOperation>, i: nat, n: nat)
    requires i <= n <= |ops|
    ensures MaterialIndex(ops, i) <= MaterialIndex(ops, n)
    ensures i < n && NeedsMaterial(ops[i]) ==> MaterialIndex(ops, i) < MaterialIndex(ops, n)
    decreases n
  {
    if i < n {
      MaterialIndexMonotone(ops, i, n - 1);
    }
  }

  /** Every material belongs to some operation that needs one. */
  lemma {:induction false} MaterialIndexSurjective(ops: seq<FileOperation>, n: nat, j: nat) returns (i: nat)
    requires n <= |ops| && j < MaterialIndex(ops, n)
    ensures i < n && NeedsMaterial(ops[i]) && MaterialIndex(ops, i) == j
    decreases n
  {
    if MaterialIndex(ops, n - 1) == j {
      i := n - 1;
    } else {
      i := MaterialIndexSurjective(ops, n - 1, j);
    }
  }

  /** The material shape required of operation `i` of a source. */
  predicate MaterialFits(s: Source, i: nat, m: SourceMaterial)
    requires i < |s.operations|
  {
    var op := s.operations[i];
    && NeedsMaterial(op)
    && m.operationIndex == i && m.path == op.path && m.resultDigest == op.resultHash && m.artifact == s.artifact
    && (op.Create? <==> m.kind.CreateMaterial?)
    && (m.kind.CreateMaterial? ==> m.kind.mode <= MAX_UNIX_MODE)
    && m.byteLength <= MAX_FILE_BYTES
  }

  /** The per-operation material checks, first failure first. */
  function MaterialConflict(s: Source, i: nat, m: SourceMaterial): (r: Option<CompositionConflict>)
    requires i < |s.operations| && NeedsMaterial(s.operations[i])
    ensures r.None? <==> MaterialFits(s, i, m)
    ensures r.Some? ==> IsInputConflict(r.value)
  {
    var op := s.operations[i];
    if m.operationIndex != i || m.path != op.path || m.resultDigest != op.resultHash || m.artifact != s.artifact then
      Some(ResultMaterialMismatch(Some(s.ordinal)))
    else if op.Create? != m.kind.CreateMaterial? then Some(ResultMaterialMismatch(Some(s.ordinal)))
    else if m.kind.CreateMaterial? && m.kind.mode > MAX_UNIX_MODE then Some(ResultMaterialMismatch(Some(s.ordinal)))
    else if m.byteLength > MAX_FILE_BYTES then Some(LimitExceeded(FileBytes))
    else None
  }

  ghost predicate MaterialsMatch(s: Source) {
    && |s.materials| == MaterialIndex(s.operations, |s.operations|)
    && forall i :: 0 <= i < |s.operations| && NeedsMaterial(s.operations[i]) ==>
         MaterialIndex(s.operations, i) < |s.materials|
           && MaterialFits(s, i, s.materials[MaterialIndex(s.operations, i)])
  }

  ghost predicate OperationsValid(ops: seq<FileOperation>) {
    && (forall op :: op in ops ==> Portable(op.path))
    && (forall i, j :: 0 <= i < j < |ops| ==> ops[i].path != ops[j].path)
    && (forall op :: op in ops && op.Modify? ==> op.baseHash != op.resultHash)
  }

  // ---------- source validation ----------

  function SourceBlobs(s: Source): (blobs: seq<Blob>)
    ensures |blobs| == |s.materials|
    ensures forall i :: 0 <= i < |s.materials| ==>
      blobs[i] == Blob(s.materials[i].resultDigest, s.materials[i].byteLength)
  {
    seq(|s.materials|,
        i requires 0 <= i < |s.materials| => Blob(s.materials[i].resultDigest, s.materials[i].byteLength))
  }

  ghost predicate ValidSource(s: Source) {
    && (s.operations == [] <==> s.inputSnapshot == s.resultSnapshot)
    && |s.operations| <= MAX_OPERATIONS
    && OperationsValid(s.operations)
    && MaterialsMatch(s)
    && Accounted(SourceBlobs(s), MAX_TOTAL_BYTES)
  }

  // ---------- source validation, field by field ----------

  /** Material `k` belongs to a Create or Modify of the source and restates it, within the bounds. */
  ghost predicate MaterialRestates(s: Source, k: nat)
    requires k < |s.materials|
  {
    var m := s.materials[k];
    && m.operationIndex < |s.operations| && !s.operations[m.operationIndex].Delete?
    && m.path == s.operations[m.operationIndex].path
    && m.resultDigest == s.operations[m.operationIndex].resultHash
    && m.artifact == s.artifact && m.byteLength <= 16777216
    && (if s.operations[m.operationIndex].Create? then m.kind.CreateMaterial? && m.kind.mode <= 511
        else m.kind.ModifyMaterial?)
  }

  /** The materials follow the operations that write bytes, one for each. */
  ghost predicate OneMaterialEach(s: Source) {
    && (forall k :: 0 <= k < |s.materials| ==> MaterialRestates(s, k))
    && (forall k, l :: 0 <= k < l < |s.materials| ==> s.materials[k].operationIndex < s.materials[l].operationIndex)
    && (forall i :: 0 <= i < |s.operations| && !s.operations[i].Delete? ==>
         exists k :: 0 <= k < |s.materials| && s.materials[k].operationIndex == i)
  }

  lemma {:induction false} MatchedIsEach(s: Source)
    requires MaterialsMatch(s)
    ensures OneMaterialEach(s)
  {
    forall k | 0 <= k < |s.materials| ensures MaterialRestates(s, k) {
      var i := MaterialIndexSurjective(s.operations, |s.operations|, k);
      assert MaterialFits(s, i, s.materials[k]);
    }
    forall k, l | 0 <= k < l < |s.materials| ensures s.materials[k].operationIndex < s.materials[l].operationIndex {
      var i := MaterialIndexSurjective(s.operations, |s.operations|, k);
      var j := MaterialIndexSurjective(s.operations, |s.operations|, l);
      assert MaterialFits(s, i, s.materials[k]) && MaterialFits(s, j, s.materials[l]);
      if j <= i { MaterialIndexMonotone(s.operations, j, i); }
    }
    forall i | 0 <= i < |s.operations| && !s.operations[i].Delete?
      ensures exists k :: 0 <= k < |s.materials| && s.materials[k].operationIndex == i
    {
      assert MaterialFits(s, i, s.materials[MaterialIndex(s.operations, i)]);
    }
  }

  /** The materials before the running index belong to the first `n` operations, those from it on to later ones. */
  lemma {:induction false} EachCuts(s: Source, n: nat)
    requires OneMaterialEach(s) && n <= |s.operations|
    ensures MaterialIndex(s.operations, n) <= |s.materials|
    ensures forall k :: 0 <= k < MaterialIndex(s.operations, n) ==> s.materials[k].operationIndex < n
    ensures forall k :: 0 <= k < |s.materials| && s.materials[k].operationIndex < n ==>
      k < MaterialIndex(s.operations, n)
  {
    if n > 0 {
      EachCuts(s, n - 1);
      var at := MaterialIndex(s.operations, n - 1);
      if at < |s.materials| {
        assert MaterialRestates(s, at);
      }
      if !s.operations[n - 1].Delete? {
        var k :| 0 <= k < |s.materials| && s.materials[k].operationIndex == n - 1;
        assert k == at;
      }
    }
  }

  lemma {:induction false} EachIsMatched(s: Source)
    requires OneMaterialEach(s)
    ensures MaterialsMatch(s)
  {
    EachCuts(s, |s.operations|);
    if s.materials != [] {
      assert MaterialRestates(s, |s.materials| - 1);
    }
    forall i | 0 <= i < |s.operations| && NeedsMaterial(s.operations[i])
      ensures MaterialIndex(s.operations, i) < |s.materials|
      ensures MaterialFits(s, i, s.materials[MaterialIndex(s.operations, i)])
    {
      EachCuts(s, i);
      EachCuts(s, i + 1);
      var k :| 0 <= k < |s.materials| && s.materials[k].operationIndex == i;
      assert k == MaterialIndex(s.operations, i) && MaterialRestates(s, k);
    }
  }

  /** The lengths of the materials' digests, and of no other. */
  ghost predicate MaterialLengths(s: Source, lengths: map<ByteString, nat>) {
    && (forall m :: m in s.materials ==> m.resultDigest in lengths && lengths[m.resultDigest] == m.byteLength)
    && (forall d :: d in lengths ==> exists m :: m in s.materials && m.resultDigest == d)
  }

  /** Equal digests have equal lengths, and the distinct ones weigh at most 64 MiB together. */
  ghost predicate BytesWithin(s: Source) {
    exists lengths: map<ByteString, nat> :: MaterialLengths(s, lengths) && Total(lengths) <= 67108864
  }

  lemma {:induction false} MaterialLengthsExactly(s: Source, lengths: map<ByteString, nat>)
    ensures MaterialLengths(s, lengths) <==> LengthsOf(SourceBlobs(s), lengths)
  {
    var blobs := SourceBlobs(s);
    if LengthsOf(blobs, lengths) {
      forall m | m in s.materials ensures m.resultDigest in lengths && lengths[m.resultDigest] == m.byteLength {
        var i :| 0 <= i < |s.materials| && s.materials[i] == m;
        assert blobs[i].digest in lengths;
      }
      forall d | d in lengths ensures exists m :: m in s.materials && m.resultDigest == d {
        var i :| 0 <= i < |blobs| && blobs[i].digest == d;
        assert s.materials[i] in s.materials;
      }
    }
    if MaterialLengths(s, lengths) {
      forall i | 0 <= i < |blobs|
        ensures blobs[i].digest in lengths && lengths[blobs[i].digest] == blobs[i].byteLength
      {
        assert s.materials[i] in s.materials;
      }
      forall d | d in lengths ensures exists i :: 0 <= i < |blobs| && blobs[i].digest == d {
        var m :| m in s.materials && m.resultDigest == d;
        var i :| 0 <= i < |s.materials| && s.materials[i] == m;
        assert blobs[i].digest == d;
      }
    }
  }

  lemma {:induction false} BytesExactly(s: Source)
    requires forall m :: m in s.materials ==> m.byteLength <= 16777216
    ensures Accounted(SourceBlobs(s), MAX_TOTAL_BYTES) <==> BytesWithin(s)
  {
    AccountedExactly(SourceBlobs(s), MAX_TOTAL_BYTES);
    forall lengths: map<ByteString, nat> ensures MaterialLengths(s, lengths) <==> LengthsOf(SourceBlobs(s), lengths) {
      MaterialLengthsExactly(s, lengths);
    }
    forall i | 0 <= i < |s.materials| ensures SourceBlobs(s)[i].byteLength <= 16777216 {
      assert s.materials[i] in s.materials;
    }
  }

  /** What a source must be, on its fields. */
  lemma {:induction false} SourceExactly(s: Source)
    ensures ValidSource(s) <==>
      && (|s.operations| == 0 <==> s.inputSnapshot == s.resultSnapshot)
      && |s.operations| <= 4096
      && (forall op :: op in s.operations ==> Portable(op.path))
      && (forall i, j :: 0 <= i < j < |s.operations| ==> s.operations[i].path != s.operations[j].path)
      && (forall op :: op in s.operations && op.Modify? ==> op.baseHash != op.resultHash)
      && OneMaterialEach(s) && BytesWithin(s)
  {
    if MaterialsMatch(s) {
      MatchedIsEach(s);
    }
    if OneMaterialEach(s) {
      EachIsMatched(s);
      forall m | m in s.materials ensures m.byteLength <= 16777216 {
        var k :| 0 <= k < |s.materials| && s.materials[k] == m;
        assert MaterialRestates(s, k);
      }
      BytesExactly(s);
    }
  }

  method ValidateSourceOperations(s: Source) returns (r: Result<(), CompositionConflict>)
    ensures r.Ok? <==> OperationsValid(s.operations)
    ensures r.Err? ==> IsInputConflict(r.error)
  {
    var paths: set<Path> := {};
    for i := 0 to |s.operations|
      invariant OperationsValid(s.operations[..i])
      invariant forall p :: p in paths <==> exists j :: 0 <= j < i && s.operations[j].path == p
    {
      var op := s.operations[i];
      var conflict := PathConflictOf(op.path);
      if conflict.Some? {
        return Err(NonPortablePath(Some(s.ordinal), op.path, conflict.value));
      }
      if op.path in paths {
        return Err(DuplicateOperation(s.ordinal, op.path));
      }
      paths := paths + {op.path};
      if op.Modify? && op.baseHash == op.resultHash {
        return Err(NoOpModify(s.ordinal));
      }
      assert s.operations[..i + 1] == s.operations[..i] + [op];
    }
    assert s.operations[..|s.operations|] == s.operations;
    return Ok(());
  }

  /** After `i` operations: the materials so far fit their operations, and their blobs are recorded. */
  ghost predicate MaterialsRead(s: Source, i: nat, materialIndex: nat, blobs: map<ByteString, nat>) {
    && i <= |s.operations| && materialIndex == MaterialIndex(s.operations, i) <= |s.materials|
    && (forall j :: 0 <= j < i && NeedsMaterial(s.operations[j]) ==> MaterialPlaced(s, j, materialIndex))
    && BlobMap(SourceBlobs(s), materialIndex) == Some(blobs)
  }

  /** Operation `j` has its fitting material among the first `n`. */
  ghost predicate MaterialPlaced(s: Source, j: nat, n: nat)
    requires j < |s.operations| && n <= |s.materials|
  {
    MaterialIndex(s.operations, j) < n && MaterialFits(s, j, s.materials[MaterialIndex(s.operations, j)])
  }

  /** The next material, for an operation that needs one. */
  method ReadMaterial(s: Source, i: nat, materialIndex: nat, blobs: map<ByteString, nat>)
    returns (r: Result<map<ByteString, nat>, CompositionConflict>)
    requires i < |s.operations| && NeedsMaterial(s.operations[i]) && MaterialsRead(s, i, materialIndex, blobs)
    ensures r.Ok? <==>
      materialIndex < |s.materials| && MaterialFits(s, i, s.materials[materialIndex])
        && BlobMap(SourceBlobs(s), materialIndex + 1).Some?
    ensures r.Ok? ==> BlobMap(SourceBlobs(s), materialIndex + 1) == Some(r.value)
    ensures r.Err? ==> IsInputConflict(r.error) && !(MaterialsMatch(s) && BlobMap(SourceBlobs(s), |s.materials|).Some?)
  {
    MaterialIndexMonotone(s.operations, i, |s.operations|);
    if materialIndex >= |s.materials| {
      return Err(ResultMaterialMismatch(Some(s.ordinal)));
    }
    var material := s.materials[materialIndex];
    var conflict := MaterialConflict(s, i, material);
    if conflict.Some? {
      return Err(conflict.value);
    }
    var inserted := InsertBlobLength(blobs, material.resultDigest, material.byteLength);
    if inserted.Err? {
      BlobMapFailed(SourceBlobs(s), materialIndex + 1);
      return Err(BlobRejected(inserted.error));
    }
    return Ok(inserted.value);
  }

  lemma {:induction false} MaterialsReadNext(s: Source, i: nat, materialIndex: nat, blobs: map<ByteString, nat>)
    requires i < |s.operations| && NeedsMaterial(s.operations[i]) && MaterialsRead(s, i, materialIndex, blobs)
    requires materialIndex < |s.materials| && MaterialFits(s, i, s.materials[materialIndex])
    requires BlobMap(SourceBlobs(s), materialIndex + 1).Some?
    ensures MaterialsRead(s, i + 1, materialIndex + 1, BlobMap(SourceBlobs(s), materialIndex + 1).value)
  {
    forall j | 0 <= j < i + 1 && NeedsMaterial(s.operations[j]) ensures MaterialPlaced(s, j, materialIndex + 1) {
      assert j < i ==> MaterialPlaced(s, j, materialIndex);
    }
  }

  /** Reading every material is matching them all. */
  lemma {:induction false} MaterialsReadAll(s: Source, materialIndex: nat, blobs: map<ByteString, nat>)
    requires MaterialsRead(s, |s.operations|, materialIndex, blobs)
    ensures MaterialsMatch(s) <==> materialIndex == |s.materials|
  {
    if materialIndex == |s.materials| {
      forall j | 0 <= j < |s.operations| && NeedsMaterial(s.operations[j])
        ensures MaterialIndex(s.operations, j) < |s.materials|
        ensures MaterialFits(s, j, s.materials[MaterialIndex(s.operations, j)])
      {
        assert MaterialPlaced(s, j, materialIndex);
      }
    }
  }

  method ValidateSourceResultMaterial(s: Source) returns (r: Result<(), CompositionConflict>)
    requires |s.operations| <= MAX_OPERATIONS
    ensures r.Ok? <==> MaterialsMatch(s) && Accounted(SourceBlobs(s), MAX_TOTAL_BYTES)
    ensures r.Err? ==> IsInputConflict(r.error)
  {
    if |s.materials| > MAX_OPERATIONS {
      return Err(LimitExceeded(MaterialCount));
    }
    var materialIndex := 0;
    var blobs: map<ByteString, nat> := map[];
    for i := 0 to |s.operations|
      invariant MaterialsRead(s, i, materialIndex, blobs)
    {
      if NeedsMaterial(s.operations[i]) {
        var read := ReadMaterial(s, i, materialIndex, blobs);
        if read.Err? {
          return Err(read.error);
        }
        MaterialsReadNext(s, i, materialIndex, blobs);
        blobs := read.value;
        materialIndex := materialIndex + 1;
      }
    }
    MaterialsReadAll(s, materialIndex, blobs);
    if materialIndex != |s.materials| {
      return Err(ResultMaterialMismatch(Some(s.ordinal)));
    }
    AccountedTotalFits(SourceBlobs(s));
    var total := CheckedBlobTotal(blobs);
    if total.Err? {
      return Err(BlobRejected(total.error));
    }
    if total.value > MAX_TOTAL_BYTES {
      return Err(LimitExceeded(BlobBytes));
    }
    return Ok(());
  }

  method ValidateSource(s: Source) returns (r: Result<(), CompositionConflict>)
    ensures r.Ok? <==> ValidSource(s)
    ensures r.Err? ==> IsInputConflict(r.error)
  {
    if (s.operations == []) != (s.inputSnapshot == s.resultSnapshot) {
      return Err(SnapshotOperationDisagreement(s.ordinal));
    }
    if |s.operations| > MAX_OPERATIONS {
      return Err(LimitExceeded(OperationCount));
    }
    var operations := ValidateSourceOperations(s);
    if operations.Err? {
      return operations;
    }
    r := ValidateSourceResultMaterial(s);
  }

  // ---------- replay ----------

  function MaterialStamp(s: Source, m: SourceMaterial): Stamp {
    Stamp(m.byteLength, if m.kind.CreateMaterial? then Some(m.kind.mode) else None, Origin(s.ordinal, m.artifact))
  }

  /** Operation `i` of a source with the fields a replay reads from its material. */
  function SourceStep(s: Source, i: nat): Step
    requires i < |s.operations|
  {
    var k := MaterialIndex(s.operations, i);
    Step(Some(s.ordinal), s.operations[i],
         if NeedsMaterial(s.operations[i]) && k < |s.materials| then Some(MaterialStamp(s, s.materials[k])) else None)
  }

  function SourceSteps(s: Source): (steps: seq<Step>)
    ensures |steps| == |s.operations|
    ensures forall i :: 0 <= i < |steps| ==> steps[i] == SourceStep(s, i)
  {
    seq(|s.operations|, i requires 0 <= i < |s.operations| => SourceStep(s, i))
  }

  /** Validated material completes every step. */
  lemma {:induction false} SourceStepComplete(s: Source, i: nat)
    requires MaterialsMatch(s) && i < |s.operations|
    ensures NeedsMaterial(s.operations[i]) ==> MaterialIndex(s.operations, i) < |s.materials|
    ensures StepComplete(SourceStep(s, i))
  {
    if NeedsMaterial(s.operations[i]) {
      assert MaterialFits(s, i, s.materials[MaterialIndex(s.operations, i)]);
    }
  }

  /** Operation `i` in the state it meets, and the material index after it. */
  method ReplaySourceOperation(s: Source, i: nat, materialIndex: nat, state: ReplayState)
    returns (r: Result<nat, ReplayConflict>)
    requires MaterialsMatch(s) && i < |s.operations| && materialIndex == MaterialIndex(s.operations, i)
    modifies state
    ensures r.Ok? ==> r.value == MaterialIndex(s.operations, i + 1)
    ensures r.Ok? ==> Effect(SourceStep(s, i), old(state.Current())) == Some(state.Current())
    ensures r.Err? ==> Explains(r.error, SourceStep(s, i), old(state.Current()))
  {
    var op := s.operations[i];
    var stamp: Option<Stamp> := None;
    var next := materialIndex;
    SourceStepComplete(s, i);
    if NeedsMaterial(op) {
      stamp := Some(MaterialStamp(s, s.materials[materialIndex]));
      next := materialIndex + 1;
    }
    var step := Step(Some(s.ordinal), op, stamp);
    assert step == SourceStep(s, i);
    var applied := state.Apply(step);
    if applied.Err? {
      return Err(applied.error);
    }
    return Ok(next);
  }

  /** Operation `i`, in the run of the operations before it. */
  method ReplayNext(s: Source, i: nat, materialIndex: nat, state: ReplayState, ghost start: Tree)
    returns (r: Result<nat, ReplayConflict>)
    requires MaterialsMatch(s) && i < |s.operations| && materialIndex == MaterialIndex(s.operations, i)
    requires Run(SourceSteps(s), i, start) == Some(state.Current())
    modifies state
    ensures r.Ok? ==> r.value == MaterialIndex(s.operations, i + 1)
    ensures r.Ok? ==> Run(SourceSteps(s), i + 1, start) == Some(state.Current())
    ensures r.Err? ==> RejectsRun(r.error, SourceSteps(s), start)
  {
    ghost var before := state.Current();
    r := ReplaySourceOperation(s, i, materialIndex, state);
    if r.Err? {
      assert RejectsAt(r.error, SourceSteps(s), start, i, before);
    } else {
      RunNext(SourceSteps(s), i, start, before);
    }
  }

  /** Advances the material index beside the operations. */
  method ReplayOperations(s: Source, state: ReplayState) returns (r: Result<(), ReplayConflict>)
    requires MaterialsMatch(s)
    modifies state
    ensures r.Ok? ==> RunAll(SourceSteps(s), old(state.Current())) == Some(state.Current())
    ensures r.Err? ==> RejectsRun(r.error, SourceSteps(s), old(state.Current()))
  {
    ghost var start := state.Current();
    var materialIndex := 0;
    for i := 0 to |s.operations|
      invariant materialIndex == MaterialIndex(s.operations, i)
      invariant Run(SourceSteps(s), i, start) == Some(state.Current())
    {
      var replayed := ReplayNext(s, i, materialIndex, state, start);
      if replayed.Err? {
        return Err(replayed.error);
      }
      materialIndex := replayed.value;
    }
    return Ok(());
  }

  /** `replay_source`. */
  method ReplaySource(s: Source, state: ReplayState) returns (r: Result<(), CompositionConflict>)
    requires MaterialsMatch(s)
    modifies state
    ensures r.Ok? <==> RunAll(SourceSteps(s), old(state.Current())).Some?
    ensures r.Ok? ==> state.Current() == RunAll(SourceSteps(s), old(state.Current())).value
    ensures r.Err? ==> r.error.ReplayRejected?
    ensures r.Err? ==> RejectsRun(r.error.conflict, SourceSteps(s), old(state.Current()))
  {
    ghost var start := state.Current();
    var replayed := ReplayOperations(s, state);
    if replayed.Err? {
      RejectedRunStops(SourceSteps(s), start, replayed.error);
      return Err(ReplayRejected(replayed.error));
    }
    return Ok(());
  }

  /** The steps of the first `n` sources, in order. */
  function AllSteps(sources: seq<Source>, n: nat): (steps: seq<Step>)
    requires n <= |sources|
  {
    if n == 0 then [] else AllSteps(sources, n - 1) + SourceSteps(sources[n - 1])
  }

  /** The tree after the first `n` sources. */
  function TreeAfter(sources: seq<Source>, n: nat, base: Tree): Option<Tree>
    requires n <= |sources|
  {
    RunAll(AllSteps(sources, n), base)
  }

  lemma {:induction false} TreeAfterNext(sources: seq<Source>, n: nat, base: Tree)
    requires n < |sources|
    ensures TreeAfter(sources, n + 1, base) == match TreeAfter(sources, n, base)
      case None => None case Some(t) => RunAll(SourceSteps(sources[n]), t)
  {
    IterateAppend(Effect, AllSteps(sources, n), SourceSteps(sources[n]), base);
  }

  /** The first `n` sources have one fitting material per Create and Modify. */
  ghost predicate Ready(sources: seq<Source>, n: nat) {
    n <= |sources| && forall k :: 0 <= k < n ==> MaterialsMatch(sources[k])
  }
}
