/** One aggregate plan from a base and its sources (application_composition.rs). */
module Composition {
  import opened Outcomes
  import opened Bytes
  import opened Finite
  import opened Paths
  import opened Manifest
  import opened Replay
  import opened BlobAccounting
  import opened Sources
  import opened SourceCoverage
  import opened Topology
  import opened Aggregate
  import opened BaseProjection

  datatype Plan = Plan(operations: seq<FileOperation>, materials: seq<AggregateMaterial>, finalDirectories: seq<Path>)

  // ---------- admission and sequential replay ----------

  function ExpectedInput(b: Projection, sources: seq<Source>, k: nat): Digest
    requires k <= |sources|
  {
    if k == 0 then b.snapshot else sources[k - 1].resultSnapshot
  }

  /** Source `k` is valid, the admitted one, continues the snapshot chain, replays, and leaves the tree it claims. */
  ghost predicate SourceAdmitted(hash: ByteString -> Digest, b: Projection, identities: seq<Digest>,
                                 sources: seq<Source>, k: nat)
    requires k < |sources| == |identities|
  {
    && sources[k].ordinal == k && ValidSource(sources[k]) && CoverageHolds(identities, sources, k)
    && sources[k].inputSnapshot == ExpectedInput(b, sources, k)
    && LeavesClaimed(hash, b, sources, k)
  }

  /** The replay of source `k` succeeds and leaves a tree of the snapshot it claims. */
  ghost predicate LeavesClaimed(hash: ByteString -> Digest, b: Projection, sources: seq<Source>, k: nat)
    requires k < |sources|
  {
    && TreeAfter(sources, k + 1, BaseTree(b)).Some?
    && SnapshotIs(hash, TreeAfter(sources, k + 1, BaseTree(b)).value.files, sources[k].resultSnapshot)
  }

  ghost predicate AllAdmitted(hash: ByteString -> Digest, b: Projection, identities: seq<Digest>,
                              sources: seq<Source>, n: nat)
    requires n <= |sources| == |identities|
  {
    ValidBase(hash, b) && forall k :: 0 <= k < n ==> SourceAdmitted(hash, b, identities, sources, k)
  }

  /** What holds of the tree after any number of admitted sources. */
  ghost predicate Reachable(b: Projection, sources: seq<Source>, n: nat, t: Tree) {
    && n <= |sources| && TreeAfter(sources, n, BaseTree(b)) == Some(t)
    && Topological(t) && BaseTree(b).directories <= t.directories && |t.files| <= MAX_MANIFEST_ENTRIES
  }

  lemma {:induction false} AdmittedReachable(hash: ByteString -> Digest, b: Projection, identities: seq<Digest>,
                                             sources: seq<Source>, n: nat)
    returns (t: Tree)
    requires n <= |sources| == |identities| && AllAdmitted(hash, b, identities, sources, n)
    ensures Reachable(b, sources, n, t) && Ready(sources, n)
  {
    BaseTopological(b);
    forall k | 0 <= k < n ensures MaterialsMatch(sources[k]) {
      assert SourceAdmitted(hash, b, identities, sources, k);
    }
    if n == 0 {
      t := BaseTree(b);
    } else {
      assert SourceAdmitted(hash, b, identities, sources, n - 1);
      t := TreeAfter(sources, n, BaseTree(b)).value;
      AllStepsBounded(sources, n);
      RunKeepsTopology(AllSteps(sources, n), |AllSteps(sources, n)|, BaseTree(b));
    }
  }

  /** The body of the source loop. */
  method AdmitSource(hash: ByteString -> Digest, b: Projection, identities: seq<Digest>, sources: seq<Source>, k: nat,
                     seen: Seen, state: ReplayState)
    returns (r: Result<Seen, CompositionConflict>)
    requires k < |sources| == |identities| && AllAdmitted(hash, b, identities, sources, k)
    requires SeenExactly(seen, sources, k)
    requires TreeAfter(sources, k, BaseTree(b)) == Some(state.Current())
    modifies state
    ensures r.Ok? <==> SourceAdmitted(hash, b, identities, sources, k)
    ensures r.Ok? ==> TreeAfter(sources, k + 1, BaseTree(b)) == Some(state.Current())
    ensures r.Ok? ==> SeenExactly(r.value, sources, k + 1)
    ensures r.Err? ==> IsInputConflict(r.error)
  {
    if sources[k].ordinal != k {
      return Err(SourceOrdinalMismatch);
    }
    var valid := ValidateSource(sources[k]);
    if valid.Err? {
      return Err(valid.error);
    }
    r := CheckCoverage(identities, sources, k, seen);
    if r.Err? {
      return;
    }
    if sources[k].inputSnapshot != ExpectedInput(b, sources, k) {
      return Err(SnapshotChainMismatch);
    }
    ghost var before := AdmittedReachable(hash, b, identities, sources, k);
    var replayed := ReplayAndCompare(hash, b, sources, k, state);
    if replayed.Err? {
      return Err(replayed.error);
    }
  }

  /** The replay of one valid source, and the comparison of what it leaves with what it claims. */
  method ReplayAndCompare(hash: ByteString -> Digest, b: Projection, sources: seq<Source>, k: nat, state: ReplayState)
    returns (r: Result<(), CompositionConflict>)
    requires k < |sources| && MaterialsMatch(sources[k]) && Reachable(b, sources, k, state.Current())
    modifies state
    ensures r.Ok? <==> LeavesClaimed(hash, b, sources, k)
    ensures r.Ok? ==> TreeAfter(sources, k + 1, BaseTree(b)) == Some(state.Current())
    ensures r.Err? ==> IsInputConflict(r.error)
  {
    TreeAfterNext(sources, k, BaseTree(b));
    ghost var before := state.Current();
    r := ReplaySource(sources[k], state);
    if r.Err? {
      return;
    }
    NextTopological(sources, k, BaseTree(b), before, state.Current());
    var computed := ReplayStateSnapshot(hash, state.files);
    if computed.Err? {
      return Err(computed.error);
    }
    if computed.value != sources[k].resultSnapshot {
      return Err(SourceResultSnapshotMismatch(k));
    }
  }

  method ReplaySources(hash: ByteString -> Digest, b: Projection, identities: seq<Digest>, sources: seq<Source>,
                       state: ReplayState)
    returns (r: Result<(), CompositionConflict>)
    requires |sources| == |identities| && ValidBase(hash, b) && state.Current() == BaseTree(b)
    modifies state
    ensures r.Ok? <==> AllAdmitted(hash, b, identities, sources, |sources|)
    ensures r.Ok? ==> TreeAfter(sources, |sources|, BaseTree(b)) == Some(state.Current())
    ensures r.Err? ==> IsInputConflict(r.error)
  {
    var seen := Seen({}, {}, {}, {});
    for k := 0 to |sources|
      invariant AllAdmitted(hash, b, identities, sources, k) && SeenExactly(seen, sources, k)
      invariant TreeAfter(sources, k, BaseTree(b)) == Some(state.Current())
    {
      var admitted := AdmitSource(hash, b, identities, sources, k, seen, state);
      if admitted.Err? {
        return Err(admitted.error);
      }
      seen := admitted.value;
    }
    return Ok(());
  }

  /** One more source keeps the topology, so its snapshot can be refused only for the number of files. */
  lemma {:induction false} NextTopological(sources: seq<Source>, k: nat, base: Tree, t: Tree, u: Tree)
    requires k < |sources| && MaterialsMatch(sources[k]) && Topological(t)
    requires RunAll(SourceSteps(sources[k]), t) == Some(u)
    ensures Topological(u)
    ensures ValidManifest(ManifestOf(u.files)) <==> |u.files| <= MAX_MANIFEST_ENTRIES
  {
    SourceStepsBounded(sources[k]);
    RunKeepsTopology(SourceSteps(sources[k]), |SourceSteps(sources[k])|, t);
    TopologicalManifest(u);
  }

  // ---------- plan integrity ----------

  function AggregateBlobs(materials: seq<AggregateMaterial>): (blobs: seq<Blob>)
    ensures |blobs| == |materials|
    ensures forall i :: 0 <= i < |materials| ==> blobs[i] == Blob(materials[i].resultDigest, materials[i].byteLength)
  {
    seq(|materials|, i requires 0 <= i < |materials| => Blob(materials[i].resultDigest, materials[i].byteLength))
  }

  ghost predicate WithinBounds(ops: seq<FileOperation>, materials: seq<AggregateMaterial>) {
    |ops| <= MAX_OPERATIONS && |materials| <= MAX_OPERATIONS && Accounted(AggregateBlobs(materials), MAX_TOTAL_BYTES)
  }

  method ValidateAggregateBounds(ops: seq<FileOperation>, materials: seq<AggregateMaterial>)
    returns (r: Result<(), CompositionConflict>)
    ensures r.Ok? <==> WithinBounds(ops, materials)
    ensures r.Err? ==> IsInputConflict(r.error)
  {
    if |ops| > MAX_OPERATIONS {
      return Err(LimitExceeded(OperationCount));
    }
    if |materials| > MAX_OPERATIONS {
      return Err(LimitExceeded(MaterialCount));
    }
    AccountedTotalFits(AggregateBlobs(materials));
    var total := DistinctBlobBytes(AggregateBlobs(materials));
    if total.Err? {
      return Err(BlobRejected(total.error));
    }
    if total.value > MAX_TOTAL_BYTES {
      return Err(LimitExceeded(BlobBytes));
    }
    return Ok(());
  }

  /** A relative path of plain components, as a change set requires. */
  predicate NormalizedRelative(p: Path) {
    p != [] && p[0] != SLASH && Split(p)[0] != [DOT] && [DOT, DOT] !in Split(p)
  }

  predicate ChangeSetOperationOk(op: FileOperation) {
    NormalizedRelative(op.path) && (op.Modify? ==> op.baseHash != op.resultHash)
  }

  /** Paths are compared by their components, as the library compares them. */
  ghost predicate DistinctPaths(ops: seq<FileOperation>) {
    forall i, j :: 0 <= i < j < |ops| ==> Components(ops[i].path) != Components(ops[j].path)
  }

  function OperationComponents(ops: seq<FileOperation>): (all: seq<seq<ByteString>>)
    ensures |all| == |ops| && forall i :: 0 <= i < |ops| ==> all[i] == Components(ops[i].path)
  {
    seq(|ops|, i requires 0 <= i < |ops| => Components(ops[i].path))
  }

  ghost predicate ChangeSetValid(ops: seq<FileOperation>, baseSnapshot: Digest, resultSnapshot: Digest) {
    && (ops == [] <==> baseSnapshot == resultSnapshot)
    && (forall op :: op in ops ==> ChangeSetOperationOk(op))
    && DistinctPaths(ops)
  }

  method ValidateChangeSet(ops: seq<FileOperation>, baseSnapshot: Digest, resultSnapshot: Digest) returns (ok: bool)
    ensures ok <==> ChangeSetValid(ops, baseSnapshot, resultSnapshot)
  {
    if (ops == []) != (baseSnapshot == resultSnapshot) {
      return false;
    }
    var paths: set<seq<ByteString>> := {};
    for i := 0 to |ops|
      invariant forall op :: op in ops[..i] ==> ChangeSetOperationOk(op)
      invariant DistinctPaths(ops[..i])
      invariant forall p :: p in paths <==> p in OperationComponents(ops)[..i]
    {
      assert ops[i] in ops;
      if !ChangeSetOperationOk(ops[i]) {
        return false;
      }
      if Components(ops[i].path) in paths {
        RepeatedPath(ops, i);
        return false;
      }
      DistinctExtends(ops, i);
      paths := paths + {Components(ops[i].path)};
    }
    assert ops[..|ops|] == ops;
    return true;
  }

  lemma {:induction false} RepeatedPath(ops: seq<FileOperation>, i: nat)
    requires i < |ops| && Components(ops[i].path) in OperationComponents(ops)[..i]
    ensures !DistinctPaths(ops)
  {
    var j :| 0 <= j < i && OperationComponents(ops)[..i][j] == Components(ops[i].path);
    assert Components(ops[j].path) == Components(ops[i].path);
  }

  lemma {:induction false} DistinctExtends(ops: seq<FileOperation>, i: nat)
    requires i < |ops| && DistinctPaths(ops[..i]) && Components(ops[i].path) !in OperationComponents(ops)[..i]
    ensures DistinctPaths(ops[..i + 1])
  {
    var earlier, longer := ops[..i], ops[..i + 1];
    forall j, k | 0 <= j < k < i + 1 ensures Components(longer[j].path) != Components(longer[k].path) {
      if k < i {
        assert Components(earlier[j].path) != Components(earlier[k].path);
      } else {
        assert OperationComponents(ops)[..i][j] == Components(ops[j].path);
      }
    }
  }

  /** The material shape a finished plan must show for operation `i`. */
  predicate PlanMaterialFits(ops: seq<FileOperation>, i: nat, m: AggregateMaterial)
    requires i < |ops|
  {
    && NeedsMaterial(ops[i]) && m.operationIndex == i && m.path == ops[i].path && m.resultDigest == ops[i].resultHash
    && (if ops[i].Create? then m.createMode.Some? && m.createMode.value <= MAX_UNIX_MODE else m.createMode.None?)
    && m.byteLength <= MAX_FILE_BYTES
  }

  ghost predicate PlanMaterialsMatch(ops: seq<FileOperation>, materials: seq<AggregateMaterial>) {
    && |materials| == MaterialIndex(ops, |ops|)
    && forall i :: 0 <= i < |ops| && NeedsMaterial(ops[i]) ==>
         MaterialIndex(ops, i) < |materials| && PlanMaterialFits(ops, i, materials[MaterialIndex(ops, i)])
  }

  method ValidateAggregateResultMaterial(ops: seq<FileOperation>, materials: seq<AggregateMaterial>) returns (ok: bool)
    ensures ok <==> PlanMaterialsMatch(ops, materials)
  {
    var materialIndex := 0;
    for i := 0 to |ops|
      invariant materialIndex == MaterialIndex(ops, i) <= |materials|
      invariant forall j :: 0 <= j < i && NeedsMaterial(ops[j]) ==>
        MaterialIndex(ops, j) < materialIndex && PlanMaterialFits(ops, j, materials[MaterialIndex(ops, j)])
    {
      if NeedsMaterial(ops[i]) {
        MaterialIndexMonotone(ops, i, |ops|);
        if materialIndex >= |materials| || !PlanMaterialFits(ops, i, materials[materialIndex]) {
          return false;
        }
        materialIndex := materialIndex + 1;
      }
    }
    return materialIndex == |materials|;
  }

  ghost predicate DirectoriesClosed(directories: seq<Path>) {
    && |directories| <= MAX_MANIFEST_ENTRIES
    && (forall d :: d in directories ==> Portable(d)) && StrictlySorted(directories)
    && (forall d, a :: d in directories && IsAncestor(a, d) ==> a in directories)
  }

  method ValidateDirectoryState(directories: seq<Path>) returns (ok: bool)
    ensures ok <==> DirectoriesClosed(directories)
  {
    if |directories| > MAX_MANIFEST_ENTRIES {
      return false;
    }
    var canonical := ValidateCanonicalPaths(directories);
    if canonical.Err? {
      return false;
    }
    for i := 0 to |directories|
      invariant forall d, a :: d in directories[..i] && IsAncestor(a, d) ==> a in directories
    {
      assert directories[i] in directories;
      var ancestors := ValidateAncestors(directories[i], {}, Elements(directories));
      if ancestors.Err? {
        return false;
      }
    }
    assert directories[..|directories|] == directories;
    return true;
  }

  ghost predicate PlanIntegrity(plan: Plan, baseSnapshot: Digest, resultSnapshot: Digest) {
    && ChangeSetValid(plan.operations, baseSnapshot, resultSnapshot)
    && (forall op :: op in plan.operations ==> Portable(op.path)) && StrictlySorted(OperationPaths(plan.operations))
    && PlanMaterialsMatch(plan.operations, plan.materials)
    && WithinBounds(plan.operations, plan.materials)
    && DirectoriesClosed(plan.finalDirectories)
  }

  /** `validate_integrity` of a plan. */
  method ValidatePlan(plan: Plan, baseSnapshot: Digest, resultSnapshot: Digest) returns (ok: bool)
    ensures ok <==> PlanIntegrity(plan, baseSnapshot, resultSnapshot)
  {
    var changeSet := ValidateChangeSet(plan.operations, baseSnapshot, resultSnapshot);
    if !changeSet {
      return false;
    }
    var order := ValidateCanonicalPaths(OperationPaths(plan.operations));
    PathsPortable(plan.operations);
    if order.Err? {
      return false;
    }
    var material := ValidateAggregateResultMaterial(plan.operations, plan.materials);
    if !material {
      return false;
    }
    var bounds := ValidateAggregateBounds(plan.operations, plan.materials);
    if bounds.Err? {
      return false;
    }
    ok := ValidateDirectoryState(plan.finalDirectories);
  }

  lemma {:induction false} PathsPortable(ops: seq<FileOperation>)
    ensures (forall p :: p in OperationPaths(ops) ==> Portable(p)) <==> forall op :: op in ops ==> Portable(op.path)
  {
    forall op | op in ops ensures op.path in OperationPaths(ops) {
      var i :| 0 <= i < |ops| && ops[i] == op;
      assert OperationPaths(ops)[i] == op.path;
    }
  }

  // ---------- the derivation ----------

  /** The tree after every source. */
  function FinalTree(b: Projection, sources: seq<Source>): Option<Tree> {
    TreeAfter(sources, |sources|, BaseTree(b))
  }

  /** The one canonical diff, with its material, is representable and within bounds. */
  ghost predicate Aggregable(base: Files, result: Files) {
    Representable(base, result) && exists ops, materials ::
      AggregateOf(base, result, ops, materials) && WithinBounds(ops, materials)
  }

  ghost predicate AggregateOf(base: Files, result: Files, ops: seq<FileOperation>, materials: seq<AggregateMaterial>) {
    CanonicalDiff(base, result, ops) && MaterialsDescribe(result, ops, materials)
  }

  lemma {:induction false} AggregateUnique(base: Files, result: Files, ops: seq<FileOperation>,
                                           materials: seq<AggregateMaterial>,
                        ops': seq<FileOperation>, materials': seq<AggregateMaterial>)
    requires AggregateOf(base, result, ops, materials) && AggregateOf(base, result, ops', materials')
    ensures ops == ops' && materials == materials'
  {
    CanonicalDiffUnique(base, result, ops, ops');
    forall j | 0 <= j < |materials| ensures materials[j] == materials'[j] {
      var i := MaterialIndexSurjective(ops, |ops|, j);
      assert MaterialDescribes(result, ops, i, materials[j]) && MaterialDescribes(result, ops, i, materials'[j]);
    }
  }

  /** The sources are the admitted ones, and link the base snapshot to the result snapshot. */
  ghost predicate SourcesLink(hash: ByteString -> Digest, inputs: CompositionInputs, b: Projection,
                              sources: seq<Source>) {
    && IdentitySetValid(inputs.sourceIdentities) && |sources| == |inputs.sourceIdentities|
    && b.snapshot == inputs.baseSnapshot
    && AllAdmitted(hash, b, inputs.sourceIdentities, sources, |sources|)
    && ExpectedInput(b, sources, |sources|) == inputs.resultSnapshot
  }

  /** Everything a caller must supply for a plan to come out. */
  ghost predicate Composable(hash: ByteString -> Digest, inputs: CompositionInputs, b: Projection,
                             sources: seq<Source>) {
    && SourcesLink(hash, inputs, b, sources)
    && FinalTree(b, sources).Some?
    && Aggregable(BaseTree(b).files, FinalTree(b, sources).value.files)
    && !Collides(hash, BaseTree(b).files, FinalTree(b, sources).value.files)
  }

  /** Two different manifests with one digest. */
  ghost predicate Collides(hash: ByteString -> Digest, a: Files, c: Files) {
    && AllEncodable(ManifestOf(a)) && AllEncodable(ManifestOf(c))
    && Encode(ManifestOf(a)) != Encode(ManifestOf(c)) && hash(Encode(ManifestOf(a))) == hash(Encode(ManifestOf(c)))
  }

  /** What a plan between two trees is: their canonical diff, replayable from the one onto the other. */
  ghost predicate PlanOf(base: Tree, final: Tree, plan: Plan) {
    && AggregateOf(base.files, final.files, plan.operations, plan.materials)
    && RunAll(AggregateSteps(plan.operations, plan.materials), base).Some?
    && (forall p ::
      SameEndpoint(p, RunAll(AggregateSteps(plan.operations, plan.materials), base).value.files, final.files))
    && StrictlySorted(plan.finalDirectories) && NetDirectories(base, final, Elements(plan.finalDirectories))
  }

  /** A derived plan leads from the base to the tree after every source. */
  ghost predicate PlanFor(b: Projection, sources: seq<Source>, plan: Plan) {
    FinalTree(b, sources).Some? && PlanOf(BaseTree(b), FinalTree(b, sources).value, plan)
  }

  /** A file that must be supplied was written by some source, so its origin is known. */
  lemma {:induction false} FinalOriginsKnown(b: Projection, sources: seq<Source>, t: Tree)
    requires ValidShape(b.files, b.directories) && Ready(sources, |sources|)
    requires TreeAfter(sources, |sources|, BaseTree(b)) == Some(t)
    ensures OriginsKnown(BaseTree(b).files, t.files)
  {
    BaseTopological(b);
    forall p | p in t.files && Differs(BaseTree(b).files, t.files, p) ensures t.files[p].origin.Some? {
      Provenance(sources, |sources|, BaseTree(b), p);
    }
  }

  /** The aggregate is empty exactly when no path differs, that is, when the two manifests are the same. */
  lemma {:induction false} EmptyIffSameManifest(base: Files, result: Files, ops: seq<FileOperation>)
    requires Representable(base, result) && CanonicalDiff(base, result, ops)
    ensures ops == [] <==> ManifestOf(base) == ManifestOf(result)
  {
    SameManifestIffSameEndpoints(base, result);
    if ops == [] {
      forall p ensures SameEndpoint(p, base, result) {
        assert !Differs(base, result, p) && PathRepresentable(base, result, p);
      }
    } else {
      assert Differs(base, result, ops[0].path);
      assert !SameEndpoint(ops[0].path, base, result);
    }
  }

  /** So the empty-aggregate check can fire only on a digest collision. */
  lemma {:induction false} SnapshotAgreement(hash: ByteString -> Digest, base: Files, result: Files,
                                             ops: seq<FileOperation>, x: Digest, y: Digest)
    requires Representable(base, result) && CanonicalDiff(base, result, ops)
    requires SnapshotIs(hash, base, x) && SnapshotIs(hash, result, y)
    ensures (ops == [] <==> x == y) <==> !Collides(hash, base, result)
  {
    EmptyIffSameManifest(base, result, ops);
    EncodeInjective(ManifestOf(base), ManifestOf(result));
  }

  /** Every closing check of a derived plan passes. */
  lemma {:induction false} DerivedPlanIntegrity(base: Tree, result: Tree, plan: Plan, x: Digest, y: Digest)
    requires Endpoints(base, result, plan.operations, plan.materials) && WithinBounds(plan.operations, plan.materials)
    requires plan.operations == [] <==> x == y
    requires StrictlySorted(plan.finalDirectories) && NetDirectories(base, result, Elements(plan.finalDirectories))
    requires Elements(plan.finalDirectories) <= result.directories
    ensures PlanIntegrity(plan, x, y)
  {
    var ops := plan.operations;
    DerivedOperationsPortable(base, result, ops);
    DerivedMaterialsMatch(result, ops, plan.materials);
    DerivedDirectoriesClosed(base, result, plan.finalDirectories);
    forall op | op in ops ensures ChangeSetOperationOk(op) {
      PortableNormalized(op.path);
    }
    SortedDistinct(ops);
  }

  lemma {:induction false} PortableNormalized(p: Path)
    requires Portable(p)
    ensures NormalizedRelative(p)
  {
    assert Split(p)[0] in Split(p);
  }

  lemma {:induction false} SortedDistinct(ops: seq<FileOperation>)
    requires StrictlySorted(OperationPaths(ops)) && forall op :: op in ops ==> Portable(op.path)
    ensures DistinctPaths(ops)
  {
    forall i, j | 0 <= i < j < |ops| ensures Components(ops[i].path) != Components(ops[j].path) {
      assert Lt(OperationPaths(ops)[i], OperationPaths(ops)[j]) && ops[i] in ops && ops[j] in ops;
      LtIrreflexive(ops[i].path);
      PortableComponentsDetermine(ops[i].path, ops[j].path);
    }
  }

  lemma {:induction false} DerivedOperationsPortable(base: Tree, result: Tree, ops: seq<FileOperation>)
    requires Topological(base) && Topological(result) && CanonicalDiff(base.files, result.files, ops)
    ensures forall op :: op in ops ==> Portable(op.path) && Differs(base.files, result.files, op.path)
    ensures forall op :: op in ops ==> op == OperationAt(base.files, result.files, op.path)
  {
    forall op | op in ops ensures Portable(op.path) {
      DifferingPortable(base, result, op.path);
    }
  }

  lemma {:induction false} DerivedMaterialsMatch(result: Tree, ops: seq<FileOperation>,
                                                 materials: seq<AggregateMaterial>)
    requires Topological(result) && MaterialsDescribe(result.files, ops, materials)
    requires forall i :: 0 <= i < |ops| && NeedsMaterial(ops[i]) ==>
      ops[i].path in result.files && result.files[ops[i].path].digest == ops[i].resultHash
    requires WithinBounds(ops, materials)
    ensures PlanMaterialsMatch(ops, materials)
  {
    BlobMapBuilds(AggregateBlobs(materials));
    forall i | 0 <= i < |ops| && NeedsMaterial(ops[i])
      ensures MaterialIndex(ops, i) < |materials| && PlanMaterialFits(ops, i, materials[MaterialIndex(ops, i)])
    {
      var m := materials[MaterialIndex(ops, i)];
      assert MaterialDescribes(result.files, ops, i, m);
      assert FileOk(ops[i].path, result.files[ops[i].path]);
      assert AggregateBlobs(materials)[MaterialIndex(ops, i)].byteLength == m.byteLength;
    }
  }

  lemma {:induction false} DerivedDirectoriesClosed(base: Tree, result: Tree, directories: seq<Path>)
    requires Topological(base) && Topological(result) && StrictlySorted(directories)
    requires NetDirectories(base, result, Elements(directories)) && Elements(directories) <= result.directories
    ensures DirectoriesClosed(directories)
  {
    forall d, a | d in directories && IsAncestor(a, d) ensures a in directories {
      assert d in Elements(directories);
      if d !in base.directories {
        var p :| p in result.files && p !in base.files && IsAncestor(d, p);
        AncestorTransitive(a, d, p);
      }
      assert a in Elements(directories);
    }
    forall d | d in directories ensures Portable(d) {
      assert d in Elements(directories);
    }
    SortedSize(directories);
    SubsetSize(Elements(directories), result.directories);
  }

  lemma {:induction false} SortedSize(paths: seq<Path>)
    requires StrictlySorted(paths)
    ensures |Elements(paths)| == |paths|
  {
    if paths != [] {
      SortedSize(paths[1..]);
      LtIrreflexive(paths[0]);
      assert paths == [paths[0]] + paths[1..];
      assert paths[0] !in Elements(paths[1..]);
      assert Elements(paths) == {paths[0]} + Elements(paths[1..]);
    }
  }

  /**
   * `derive_non_authorizing_application_composition_v2`. A plan comes out exactly for composable inputs, it means
   * what the sources mean in sequence, and no defensive check ever fires.
   */
  method Derive(hash: ByteString -> Digest, inputs: CompositionInputs, b: Projection, sources: seq<Source>)
    returns (r: Result<Plan, CompositionConflict>)
    ensures r.Ok? <==> Composable(hash, inputs, b, sources)
    ensures r.Ok? ==> PlanFor(b, sources, r.value)
    ensures r.Ok? ==> PlanIntegrity(r.value, b.snapshot, inputs.resultSnapshot)
    ensures r.Err? ==> !r.error.Defensive?
    ensures r.Err? && r.error.AggregateSnapshotMismatch? ==>
      FinalTree(b, sources).Some? && Collides(hash, BaseTree(b).files, FinalTree(b, sources).value.files)
  {
    var final := ReplayInputs(hash, inputs, b, sources);
    if final.Err? {
      return Err(final.error);
    }
    r := DeriveBetween(hash, BaseTree(b), final.value, b.snapshot, inputs.resultSnapshot);
  }

  /** Two topological trees of known snapshots, the second grown from the first by source operations. */
  ghost predicate Derivable(hash: ByteString -> Digest, base: Tree, final: Tree, x: Digest, y: Digest) {
    && Topological(base) && Topological(final) && base.directories <= final.directories
    && OriginsKnown(base.files, final.files)
    && SnapshotIs(hash, base.files, x) && SnapshotIs(hash, final.files, y)
  }

  /** The validation of all inputs and the sequential replay. */
  method ReplayInputs(hash: ByteString -> Digest, inputs: CompositionInputs, b: Projection, sources: seq<Source>)
    returns (r: Result<Tree, CompositionConflict>)
    ensures r.Ok? <==> SourcesLink(hash, inputs, b, sources)
    ensures r.Ok? ==> FinalTree(b, sources) == Some(r.value)
    ensures r.Ok? ==> Derivable(hash, BaseTree(b), r.value, b.snapshot, inputs.resultSnapshot)
    ensures r.Err? ==> IsInputConflict(r.error)
  {
    var identities := ValidateSourceIdentitySet(inputs.sourceIdentities);
    if identities.Err? {
      return Err(identities.error);
    }
    var base := ValidateBaseProjection(hash, b);
    if base.Err? {
      return Err(base.error);
    }
    if b.snapshot != inputs.baseSnapshot {
      return Err(BaseProjectionSnapshotMismatch);
    }
    if |sources| != |inputs.sourceIdentities| {
      return Err(SourceCoverageCountMismatch);
    }
    var state := new ReplayState(BaseTree(b));
    var replayed := ReplaySources(hash, b, inputs.sourceIdentities, sources, state);
    if replayed.Err? {
      return Err(replayed.error);
    }
    if ExpectedInput(b, sources, |sources|) != inputs.resultSnapshot {
      return Err(SnapshotChainMismatch);
    }
    LinkedDerivable(hash, inputs, b, sources, state.Current());
    return Ok(state.Current());
  }

  lemma {:induction false} LinkedDerivable(hash: ByteString -> Digest, inputs: CompositionInputs, b: Projection,
                                           sources: seq<Source>, t: Tree)
    requires |sources| == |inputs.sourceIdentities| > 0 && ExpectedInput(b, sources, |sources|) == inputs.resultSnapshot
    requires AllAdmitted(hash, b, inputs.sourceIdentities, sources, |sources|) && FinalTree(b, sources) == Some(t)
    ensures Derivable(hash, BaseTree(b), t, b.snapshot, inputs.resultSnapshot)
  {
    AdmittedDerivable(hash, b, inputs.sourceIdentities, sources, t);
  }

  lemma {:induction false} AdmittedDerivable(hash: ByteString -> Digest, b: Projection, identities: seq<Digest>,
                                             sources: seq<Source>, t: Tree)
    requires |sources| == |identities| > 0 && AllAdmitted(hash, b, identities, sources, |sources|)
    requires FinalTree(b, sources) == Some(t)
    ensures Derivable(hash, BaseTree(b), t, b.snapshot, sources[|sources| - 1].resultSnapshot)
  {
    AdmittedTrees(hash, b, identities, sources, t);
    LastAdmitted(hash, b, identities, sources);
    LastSnapshot(hash, b, sources, t);
  }

  lemma {:induction false} AdmittedTrees(hash: ByteString -> Digest, b: Projection, identities: seq<Digest>,
                                         sources: seq<Source>, t: Tree)
    requires |sources| == |identities| && AllAdmitted(hash, b, identities, sources, |sources|)
    requires FinalTree(b, sources) == Some(t)
    ensures Topological(BaseTree(b)) && Topological(t) && BaseTree(b).directories <= t.directories
    ensures OriginsKnown(BaseTree(b).files, t.files)
  {
    var final := AdmittedReachable(hash, b, identities, sources, |sources|);
    BaseTopological(b);
    FinalOriginsKnown(b, sources, t);
  }

  lemma {:induction false} LastAdmitted(hash: ByteString -> Digest, b: Projection, identities: seq<Digest>,
                                        sources: seq<Source>)
    requires |sources| == |identities| > 0 && AllAdmitted(hash, b, identities, sources, |sources|)
    ensures LeavesClaimed(hash, b, sources, |sources| - 1) && SnapshotIs(hash, BaseTree(b).files, b.snapshot)
  {
    assert SourceAdmitted(hash, b, identities, sources, |sources| - 1);
  }

  lemma {:induction false} LastSnapshot(hash: ByteString -> Digest, b: Projection, sources: seq<Source>, t: Tree)
    requires sources != [] && LeavesClaimed(hash, b, sources, |sources| - 1) && FinalTree(b, sources) == Some(t)
    ensures SnapshotIs(hash, t.files, sources[|sources| - 1].resultSnapshot)
  {
  }

  /** The derivation between two trees of known snapshots. */
  method DeriveBetween(hash: ByteString -> Digest, base: Tree, final: Tree, x: Digest, y: Digest)
    returns (r: Result<Plan, CompositionConflict>)
    requires Derivable(hash, base, final, x, y)
    ensures r.Ok? <==> Aggregable(base.files, final.files) && !Collides(hash, base.files, final.files)
    ensures r.Ok? ==> PlanOf(base, final, r.value) && PlanIntegrity(r.value, x, y)
    ensures r.Err? ==> !r.error.Defensive?
    ensures r.Err? && r.error.AggregateSnapshotMismatch? ==> Collides(hash, base.files, final.files)
  {
    var finalSnapshot := ReplayStateSnapshot(hash, final.files);
    TopologicalManifest(final);
    assert finalSnapshot.Ok?;
    if finalSnapshot.value != y {
      return Err(Defensive(FinalSnapshotMismatch));
    }
    UnionSize(base.files, final.files);
    var derived := DeriveAggregate(base.files, final.files);
    if derived.Err? {
      return Err(derived.error);
    }
    AggregableExactly(base.files, final.files, derived.value.0, derived.value.1);
    r := PlanFromDiff(hash, base, final, derived.value.0, derived.value.1, x, y);
  }

  /** The steps after the diff: the limits, the empty-aggregate check and the closing checks. */
  method PlanFromDiff(hash: ByteString -> Digest, base: Tree, final: Tree, ops: seq<FileOperation>,
                      materials: seq<AggregateMaterial>, x: Digest, y: Digest)
    returns (r: Result<Plan, CompositionConflict>)
    requires Endpoints(base, final, ops, materials)
    requires SnapshotIs(hash, base.files, x) && SnapshotIs(hash, final.files, y)
    ensures r.Ok? <==> WithinBounds(ops, materials) && !Collides(hash, base.files, final.files)
    ensures r.Ok? ==> PlanOf(base, final, r.value) && PlanIntegrity(r.value, x, y)
    ensures r.Err? ==> !r.error.Defensive?
    ensures r.Err? && r.error.AggregateSnapshotMismatch? ==> Collides(hash, base.files, final.files)
  {
    var bounds := ValidateAggregateBounds(ops, materials);
    if bounds.Err? {
      return Err(bounds.error);
    }
    SnapshotAgreement(hash, base.files, final.files, ops, x, y);
    if (ops == []) != (x == y) {
      return Err(AggregateSnapshotMismatch);
    }
    r := FinishPlan(base, final, ops, materials, x, y);
  }

  lemma {:induction false} UnionSize(a: Files, c: Files)
    requires |a| <= MAX_MANIFEST_ENTRIES && |c| <= MAX_MANIFEST_ENTRIES
    ensures |a.Keys + c.Keys| < U32_LIMIT
  {
    assert |a.Keys + c.Keys| <= |a.Keys| + |c.Keys|;
  }

  /** The diff is unique, so it alone decides whether the trees can be aggregated. */
  lemma {:induction false} AggregableExactly(base: Files, result: Files, ops: seq<FileOperation>,
                                             materials: seq<AggregateMaterial>)
    requires Representable(base, result) && AggregateOf(base, result, ops, materials)
    ensures Aggregable(base, result) <==> WithinBounds(ops, materials)
  {
    forall ops', materials' | AggregateOf(base, result, ops', materials')
      ensures ops' == ops && materials' == materials
    {
      AggregateUnique(base, result, ops, materials, ops', materials');
    }
  }

  /** Replays the aggregate, compares, lists the directories and checks the plan: none of it can fail. */
  method FinishPlan(base: Tree, final: Tree, ops: seq<FileOperation>, materials: seq<AggregateMaterial>, x: Digest,
                    y: Digest)
    returns (r: Result<Plan, CompositionConflict>)
    requires Endpoints(base, final, ops, materials) && WithinBounds(ops, materials) && (ops == [] <==> x == y)
    ensures r.Ok? && PlanOf(base, final, r.value) && PlanIntegrity(r.value, x, y)
  {
    AggregateReplays(base, final, ops, materials);
    var replayed := ReplayAggregate(base, ops, materials, final.files);
    assert replayed.Ok?;
    var same := SameFileEndpoints(replayed.value.files, final.files);
    if !same {
      return Err(Defensive(UnrepresentableAggregateTopology));
    }
    var directories := SortedKeys(replayed.value.directories);
    assert Elements(directories) == replayed.value.directories;
    var plan := Plan(ops, materials, directories);
    DerivedPlanIntegrity(base, final, plan, x, y);
    var sound := ValidatePlan(plan, x, y);
    if !sound {
      return Err(Defensive(PlanRejected));
    }
    return Ok(plan);
  }
}
