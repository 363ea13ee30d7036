/** The canonical base-to-result diff, and its own replay (application_composition.rs). */
module Aggregate {
  import opened Outcomes
  import opened Bytes
  import opened Finite
  import opened Paths
  import opened Manifest
  import opened Replay
  import opened Runs
  import opened Sources
  import opened Topology

  const U32_LIMIT := 0x1_0000_0000

  type Files = map<Path, Endpoint>

  datatype AggregateMaterial = AggregateMaterial(
    operationIndex: nat, path: Path, resultDigest: Digest, byteLength: nat, createMode: Option<nat>,
    ordinal: nat, artifact: Digest)

  // ---------- what the diff must be ----------

  /** The contents at `p` differ: present on one side only, or with different digests. */
  predicate Differs(base: Files, result: Files, p: Path) {
    (p in base) != (p in result) || (p in base && p in result && base[p].digest != result[p].digest)
  }

  /** The only operation that turns the base entry at `p` into the result entry. */
  function OperationAt(base: Files, result: Files, p: Path): (op: FileOperation)
    requires Differs(base, result, p)
    ensures op.path == p
  {
    if p !in base then Create(p, result[p].digest)
    else if p !in result then Delete(p, base[p].digest)
    else Modify(p, base[p].digest, result[p].digest)
  }

  /** A Modify cannot change a mode, and one digest cannot have two lengths. */
  predicate PathRepresentable(base: Files, result: Files, p: Path) {
    p in base && p in result ==>
      base[p].mode == result[p].mode
        && (base[p].digest == result[p].digest ==> base[p].byteLength == result[p].byteLength)
  }

  ghost predicate Representable(base: Files, result: Files) {
    forall p :: PathRepresentable(base, result, p)
  }

  /** Every result file whose bytes must be supplied says where they are held. */
  ghost predicate OriginsKnown(base: Files, result: Files) {
    forall p :: p in result && Differs(base, result, p) ==> result[p].origin.Some?
  }

  function OperationPaths(ops: seq<FileOperation>): (paths: seq<Path>)
    ensures |paths| == |ops|
    ensures forall i :: 0 <= i < |ops| ==> paths[i] == ops[i].path
  {
    seq(|ops|, i requires 0 <= i < |ops| => ops[i].path)
  }

  /** Byte-sorted, one operation per differing path, each the one that path needs. */
  ghost predicate CanonicalDiff(base: Files, result: Files, ops: seq<FileOperation>) {
    && StrictlySorted(OperationPaths(ops))
    && (forall i :: 0 <= i < |ops| ==>
      Differs(base, result, ops[i].path) && ops[i] == OperationAt(base, result, ops[i].path))
    && (forall p {:trigger Differs(base, result, p)} :: Differs(base, result, p) ==> p in OperationPaths(ops))
  }

  /** The material of operation `i`: where the result's bytes at that path are held, and the mode of a Create. */
  ghost predicate MaterialDescribes(result: Files, ops: seq<FileOperation>, i: nat, m: AggregateMaterial)
    requires i < |ops|
  {
    var p := ops[i].path;
    && p in result && result[p].origin.Some?
    && m == AggregateMaterial(i, p, result[p].digest, result[p].byteLength,
                              if ops[i].Create? then Some(result[p].mode) else None,
                              result[p].origin.value.ordinal, result[p].origin.value.artifact)
  }

  ghost predicate MaterialsDescribe(result: Files, ops: seq<FileOperation>, materials: seq<AggregateMaterial>) {
    && |materials| == MaterialIndex(ops, |ops|)
    && forall i :: 0 <= i < |ops| && NeedsMaterial(ops[i]) ==>
         MaterialIndex(ops, i) < |materials| && MaterialDescribes(result, ops, i, materials[MaterialIndex(ops, i)])
  }

  /** There is exactly one canonical diff. */
  lemma {:induction false} CanonicalDiffUnique(base: Files, result: Files, a: seq<FileOperation>, b: seq<FileOperation>)
    requires CanonicalDiff(base, result, a) && CanonicalDiff(base, result, b)
    ensures a == b
  {
    forall p ensures p in OperationPaths(a) <==> p in OperationPaths(b) {
      if p in OperationPaths(a) { assert Differs(base, result, p); }
      if p in OperationPaths(b) { assert Differs(base, result, p); }
    }
    SortedUnique(OperationPaths(a), OperationPaths(b));
    forall i | 0 <= i < |a| ensures a[i] == b[i] {
      assert OperationPaths(a)[i] == OperationPaths(b)[i];
    }
  }

  // ---------- the same, field by field ----------

  /** What each kind of operation says about the two entries at its path. */
  ghost predicate Describes(base: Files, result: Files, op: FileOperation) {
    match op
    case Create(p, hash) => p !in base && p in result && hash == result[p].digest
    case Modify(p, baseHash, hash) =>
      p in base && p in result && baseHash == base[p].digest && hash == result[p].digest && baseHash != hash
    case Delete(p, baseHash) => p in base && p !in result && baseHash == base[p].digest
  }

  ghost predicate Kept(base: Files, result: Files, p: Path) {
    (p in base <==> p in result) && (p in base ==> base[p].digest == result[p].digest)
  }

  /** In the order of the first byte that differs, each operation right for its path, no change without one. */
  ghost predicate DiffListed(base: Files, result: Files, ops: seq<FileOperation>) {
    && (forall i, j :: 0 <= i < j < |ops| ==> ComesBefore(ops[i].path, ops[j].path))
    && (forall op :: op in ops ==> Describes(base, result, op))
    && (forall p :: Kept(base, result, p) || exists op :: op in ops && op.path == p)
  }

  lemma {:induction false} OperationExactly(base: Files, result: Files, op: FileOperation)
    ensures Describes(base, result, op) <==>
      Differs(base, result, op.path) && op == OperationAt(base, result, op.path)
  {
  }

  lemma {:induction false} PathsInOrder(ops: seq<FileOperation>)
    ensures StrictlySorted(OperationPaths(ops)) <==>
      forall i, j :: 0 <= i < j < |ops| ==> ComesBefore(ops[i].path, ops[j].path)
  {
    forall i, j | 0 <= i < j < |ops|
      ensures Lt(OperationPaths(ops)[i], OperationPaths(ops)[j]) <==> ComesBefore(ops[i].path, ops[j].path)
    {
      LtExactly(ops[i].path, ops[j].path);
    }
  }

  lemma {:induction false} NamedByOperation(ops: seq<FileOperation>, p: Path)
    ensures p in OperationPaths(ops) <==> exists op :: op in ops && op.path == p
  {
    if op :| op in ops && op.path == p {
      var i :| 0 <= i < |ops| && ops[i] == op;
      assert OperationPaths(ops)[i] == p;
    }
  }

  /** The canonical diff is exactly such a list. */
  lemma {:induction false} DiffExactly(base: Files, result: Files, ops: seq<FileOperation>)
    ensures CanonicalDiff(base, result, ops) <==> DiffListed(base, result, ops)
  {
    PathsInOrder(ops);
    forall op | op in ops
      ensures Describes(base, result, op) <==>
        Differs(base, result, op.path) && op == OperationAt(base, result, op.path)
    {
      OperationExactly(base, result, op);
    }
    forall p
      ensures Kept(base, result, p) <==> !Differs(base, result, p)
      ensures p in OperationPaths(ops) <==> exists op :: op in ops && op.path == p
    {
      NamedByOperation(ops, p);
    }
  }

  /** A file on both sides has one mode, and one length if it has one digest. */
  ghost predicate Compatible(base: Files, result: Files) {
    forall p :: p in base && p in result ==>
      base[p].mode == result[p].mode
      && (base[p].digest == result[p].digest ==> base[p].byteLength == result[p].byteLength)
  }

  lemma {:induction false} CompatibleExactly(base: Files, result: Files)
    ensures Representable(base, result) <==> Compatible(base, result)
  {
    forall p | p in base && p in result
      ensures PathRepresentable(base, result, p) <==>
        base[p].mode == result[p].mode
        && (base[p].digest == result[p].digest ==> base[p].byteLength == result[p].byteLength)
    {
    }
  }

  /** Material `m` names an operation that writes bytes, and restates the result's file there and who holds it. */
  ghost predicate Restates(result: Files, ops: seq<FileOperation>, m: AggregateMaterial) {
    && m.operationIndex < |ops| && !ops[m.operationIndex].Delete? && m.path == ops[m.operationIndex].path
    && m.path in result && m.resultDigest == result[m.path].digest && m.byteLength == result[m.path].byteLength
    && m.createMode == (if ops[m.operationIndex].Create? then Some(result[m.path].mode) else None)
    && result[m.path].origin == Some(Origin(m.ordinal, m.artifact))
  }

  /** The materials follow the operations that write bytes, one for each. */
  ghost predicate MaterialsListed(result: Files, ops: seq<FileOperation>, materials: seq<AggregateMaterial>) {
    && (forall m :: m in materials ==> Restates(result, ops, m))
    && (forall k, l :: 0 <= k < l < |materials| ==> materials[k].operationIndex < materials[l].operationIndex)
    && (forall i :: 0 <= i < |ops| && !ops[i].Delete? ==> exists m :: m in materials && m.operationIndex == i)
  }

  lemma {:induction false} DescribedAreListed(result: Files, ops: seq<FileOperation>, materials: seq<AggregateMaterial>)
    requires MaterialsDescribe(result, ops, materials)
    ensures MaterialsListed(result, ops, materials)
  {
    forall k | 0 <= k < |materials| ensures Restates(result, ops, materials[k]) {
      var i := MaterialIndexSurjective(ops, |ops|, k);
      assert MaterialDescribes(result, ops, i, materials[k]);
    }
    forall k, l | 0 <= k < l < |materials| ensures materials[k].operationIndex < materials[l].operationIndex {
      var i := MaterialIndexSurjective(ops, |ops|, k);
      var j := MaterialIndexSurjective(ops, |ops|, l);
      assert MaterialDescribes(result, ops, i, materials[k]) && MaterialDescribes(result, ops, j, materials[l]);
      if j <= i { MaterialIndexMonotone(ops, j, i); }
    }
    forall i | 0 <= i < |ops| && !ops[i].Delete? ensures exists m :: m in materials && m.operationIndex == i {
      assert MaterialDescribes(result, ops, i, materials[MaterialIndex(ops, i)]);
    }
  }

  // ---------- derive_aggregate ----------

  /** The error names a file on both sides whose mode changed, or whose length did under one digest. */
  predicate RealTransition(base: Files, result: Files, error: CompositionConflict) {
    match error
    case UnrepresentableModeTransition(p) => p in base && p in result && base[p].mode != result[p].mode
    case UnrepresentableLengthTransition(p) =>
      p in base && p in result && base[p].digest == result[p].digest && base[p].byteLength != result[p].byteLength
    case _ => false
  }

  /** What the walk over the union of paths finds at one path. */
  datatype PathDifference = Unchanged | Changed(op: FileOperation, material: Option<AggregateMaterial>)

  /** One arm of the walk: `index` operations precede it. */
  function DerivePath(base: Files, result: Files, p: Path, index: nat): (r: Result<PathDifference, CompositionConflict>)
    requires p in base || p in result
    ensures index < U32_LIMIT && (p in result && Differs(base, result, p) ==> result[p].origin.Some?) ==>
      (r.Ok? <==> PathRepresentable(base, result, p))
    ensures r.Err? && index < U32_LIMIT && (p in result && Differs(base, result, p) ==> result[p].origin.Some?) ==>
      RealTransition(base, result, r.error)
    ensures r.Ok? ==> PathRepresentable(base, result, p) && (r.value.Changed? <==> Differs(base, result, p))
    ensures r.Ok? && r.value.Changed? ==> r.value.op == OperationAt(base, result, p)
    ensures r.Ok? && r.value.Changed? ==> (r.value.material.Some? <==> NeedsMaterial(r.value.op))
  {
    if p in base && p in result && base[p].mode != result[p].mode then Err(UnrepresentableModeTransition(p))
    else if p in base && p in result && base[p].digest == result[p].digest then
      if base[p].byteLength != result[p].byteLength then Err(UnrepresentableLengthTransition(p)) else Ok(Unchanged)
    else if p !in result then Ok(Changed(Delete(p, base[p].digest), None))
    else if index >= U32_LIMIT then Err(LimitExceeded(OperationIndex))
    else if result[p].origin.None? then Err(Defensive(AggregateOriginMissing))
    else
      var e := result[p];
      var origin := e.origin.value;
      if p !in base then
        Ok(Changed(Create(p, e.digest),
                   Some(AggregateMaterial(index, p, e.digest, e.byteLength, Some(e.mode), origin.ordinal,
                                          origin.artifact))))
      else
        Ok(Changed(Modify(p, base[p].digest, e.digest),
                   Some(AggregateMaterial(index, p, e.digest, e.byteLength, None, origin.ordinal, origin.artifact))))
  }

  /** The walk at one path. */
  method DeriveNext(base: Files, result: Files, paths: seq<Path>, i: nat, ops: seq<FileOperation>,
                    materials: seq<AggregateMaterial>)
    returns (r: Result<(seq<FileOperation>, seq<AggregateMaterial>), CompositionConflict>)
    requires i < |paths| < U32_LIMIT && StrictlySorted(paths) && (paths[i] in base || paths[i] in result)
    requires OriginsKnown(base, result) && |ops| <= i && DerivedSoFar(base, result, paths, i, ops, materials)
    ensures r.Ok? <==> PathRepresentable(base, result, paths[i])
    ensures r.Ok? ==> |r.value.0| <= i + 1 && DerivedSoFar(base, result, paths, i + 1, r.value.0, r.value.1)
    ensures r.Err? ==> RealTransition(base, result, r.error)
  {
    var derived := DerivePath(base, result, paths[i], |ops|);
    if derived.Err? {
      return Err(derived.error);
    }
    DerivedNext(base, result, paths, i, ops, materials);
    match derived.value {
      case Unchanged =>
        return Ok((ops, materials));
      case Changed(op, material) =>
        return Ok((ops + [op], materials + if material.Some? then [material.value] else []));
    }
  }

  method DeriveAggregate(base: Files, result: Files)
    returns (r: Result<(seq<FileOperation>, seq<AggregateMaterial>), CompositionConflict>)
    requires |base.Keys + result.Keys| < U32_LIMIT && OriginsKnown(base, result)
    ensures r.Ok? <==> Representable(base, result)
    ensures r.Ok? <==> Compatible(base, result)
    ensures r.Ok? ==> CanonicalDiff(base, result, r.value.0) && MaterialsDescribe(result, r.value.0, r.value.1)
    ensures r.Ok? ==> DiffListed(base, result, r.value.0) && MaterialsListed(result, r.value.0, r.value.1)
    ensures r.Err? ==> RealTransition(base, result, r.error)
  {
    var paths := SortedKeys(base.Keys + result.Keys);
    var ops: seq<FileOperation> := [];
    var materials: seq<AggregateMaterial> := [];
    for i := 0 to |paths|
      invariant |ops| <= i
      invariant DerivedSoFar(base, result, paths, i, ops, materials)
    {
      assert paths[i] in paths;
      var derived := DeriveNext(base, result, paths, i, ops, materials);
      if derived.Err? {
        CompatibleExactly(base, result);
        return Err(derived.error);
      }
      ops, materials := derived.value.0, derived.value.1;
    }
    DerivedComplete(base, result, paths, ops, materials);
    return Ok((ops, materials));
  }

  ghost predicate DerivedSoFar(base: Files, result: Files, paths: seq<Path>, i: nat, ops: seq<FileOperation>,
                               materials: seq<AggregateMaterial>) {
    && DiffSoFar(base, result, paths, i, ops)
    && MaterialsDescribe(result, ops, materials)
    && forall p :: p in paths[..i] ==> PathRepresentable(base, result, p)
  }

  lemma {:induction false} DerivedNext(base: Files, result: Files, paths: seq<Path>, i: nat, ops: seq<FileOperation>,
                                       materials: seq<AggregateMaterial>)
    requires i < |paths| && StrictlySorted(paths) && (paths[i] in base || paths[i] in result)
    requires DerivedSoFar(base, result, paths, i, ops, materials)
    requires DerivePath(base, result, paths[i], |ops|).Ok?
    ensures match DerivePath(base, result, paths[i], |ops|).value
      case Unchanged => DerivedSoFar(base, result, paths, i + 1, ops, materials)
      case Changed(op, material) =>
        DerivedSoFar(base, result, paths, i + 1, ops + [op],
                     materials + if material.Some? then [material.value] else [])
  {
    RepresentableExtends(base, result, paths, i);
    match DerivePath(base, result, paths[i], |ops|).value {
      case Unchanged =>
        DiffSkips(base, result, paths, i, ops);
      case Changed(op, material) =>
        DiffGrows(base, result, paths, i, ops);
        MaterialsGrow(base, result, paths[i], ops, materials);
    }
  }

  lemma {:induction false} RepresentableExtends(base: Files, result: Files, paths: seq<Path>, i: nat)
    requires i < |paths| && PathRepresentable(base, result, paths[i])
    requires forall p :: p in paths[..i] ==> PathRepresentable(base, result, p)
    ensures forall p :: p in paths[..i + 1] ==> PathRepresentable(base, result, p)
  {
    assert paths[..i + 1] == paths[..i] + [paths[i]];
  }

  lemma {:induction false} DerivedComplete(base: Files, result: Files, paths: seq<Path>, ops: seq<FileOperation>,
                                           materials: seq<AggregateMaterial>)
    requires DerivedSoFar(base, result, paths, |paths|, ops, materials)
    requires forall p :: p in base.Keys + result.Keys ==> p in paths
    ensures CanonicalDiff(base, result, ops) && MaterialsDescribe(result, ops, materials) && Representable(base, result)
    ensures DiffListed(base, result, ops) && MaterialsListed(result, ops, materials) && Compatible(base, result)
  {
    DiffComplete(base, result, paths, ops);
    DiffExactly(base, result, ops);
    DescribedAreListed(result, ops, materials);
    CompatibleExactly(base, result);
    assert paths[..|paths|] == paths;
    forall p ensures PathRepresentable(base, result, p) {
      if p in base && p in result {
        assert p in base.Keys + result.Keys;
      }
    }
  }

  /** The diff of the first `i` paths. */
  ghost predicate DiffSoFar(base: Files, result: Files, paths: seq<Path>, i: nat, ops: seq<FileOperation>) {
    && i <= |paths|
    && StrictlySorted(OperationPaths(ops))
    && (forall j :: 0 <= j < |ops| ==> ops[j].path in paths[..i])
    && (forall j :: 0 <= j < |ops| ==>
      Differs(base, result, ops[j].path) && ops[j] == OperationAt(base, result, ops[j].path))
    && (forall j :: 0 <= j < i && Differs(base, result, paths[j]) ==> paths[j] in OperationPaths(ops))
  }

  lemma {:induction false} DiffSkips(base: Files, result: Files, paths: seq<Path>, i: nat, ops: seq<FileOperation>)
    requires i < |paths| && DiffSoFar(base, result, paths, i, ops) && !Differs(base, result, paths[i])
    ensures DiffSoFar(base, result, paths, i + 1, ops)
  {
    assert paths[..i + 1] == paths[..i] + [paths[i]];
  }

  lemma {:induction false} DiffGrows(base: Files, result: Files, paths: seq<Path>, i: nat, ops: seq<FileOperation>)
    requires i < |paths| && StrictlySorted(paths)
    requires DiffSoFar(base, result, paths, i, ops) && Differs(base, result, paths[i])
    ensures DiffSoFar(base, result, paths, i + 1, ops + [OperationAt(base, result, paths[i])])
  {
    var grown := ops + [OperationAt(base, result, paths[i])];
    assert paths[..i + 1] == paths[..i] + [paths[i]];
    assert OperationPaths(grown) == OperationPaths(ops) + [paths[i]];
    forall j | 0 <= j < |ops| ensures Lt(ops[j].path, paths[i]) {
      var k :| 0 <= k < i && paths[..i][k] == ops[j].path;
    }
    forall j | 0 <= j < |grown| ensures grown[j].path in paths[..i + 1] {
      if j == |ops| { assert paths[..i + 1][i] == paths[i]; }
    }
    forall j | 0 <= j < i + 1 && Differs(base, result, paths[j]) ensures paths[j] in OperationPaths(grown) {
      assert OperationPaths(grown)[|ops|] == paths[i];
    }
  }

  lemma {:induction false} DiffComplete(base: Files, result: Files, paths: seq<Path>, ops: seq<FileOperation>)
    requires DiffSoFar(base, result, paths, |paths|, ops)
    requires forall p :: p in base.Keys + result.Keys ==> p in paths
    ensures CanonicalDiff(base, result, ops)
  {
    forall p | Differs(base, result, p) ensures p in OperationPaths(ops) {
      assert p in base.Keys + result.Keys;
      var j :| 0 <= j < |paths| && paths[j] == p;
    }
  }

  lemma {:induction false} MaterialIndexExtends(ops: seq<FileOperation>, op: FileOperation, n: nat)
    requires n <= |ops|
    ensures MaterialIndex(ops + [op], n) == MaterialIndex(ops, n)
  {
    if n > 0 {
      MaterialIndexExtends(ops, op, n - 1);
    }
  }

  lemma {:induction false} MaterialsGrow(base: Files, result: Files, p: Path, ops: seq<FileOperation>,
                                         materials: seq<AggregateMaterial>)
    requires MaterialsDescribe(result, ops, materials) && (p in base || p in result)
    requires var d := DerivePath(base, result, p, |ops|); d.Ok? && d.value.Changed?
    ensures var Changed(op, material) := DerivePath(base, result, p, |ops|).value;
      MaterialsDescribe(result, ops + [op], materials + if material.Some? then [material.value] else [])
  {
    var Changed(op, material) := DerivePath(base, result, p, |ops|).value;
    var all, grown := ops + [op], materials + if material.Some? then [material.value] else [];
    MaterialIndexExtends(ops, op, |ops|);
    forall i | 0 <= i < |all| && NeedsMaterial(all[i])
      ensures MaterialIndex(all, i) < |grown| && MaterialDescribes(result, all, i, grown[MaterialIndex(all, i)])
    {
      if i < |ops| {
        MaterialIndexExtends(ops, op, i);
        assert materials[MaterialIndex(ops, i)] == grown[MaterialIndex(ops, i)];
        assert MaterialDescribes(result, ops, i, materials[MaterialIndex(ops, i)]);
      }
    }
  }

  // ---------- replay_aggregate ----------

  /** An aggregate operation with the fields its replay reads from its material. */
  function AggregateStep(ops: seq<FileOperation>, materials: seq<AggregateMaterial>, i: nat): Step
    requires i < |ops|
  {
    var k := MaterialIndex(ops, i);
    Step(None, ops[i], if NeedsMaterial(ops[i]) && k < |materials| then Some(AggregateStamp(materials[k])) else None)
  }

  function AggregateStamp(m: AggregateMaterial): Stamp {
    Stamp(m.byteLength, m.createMode, Origin(m.ordinal, m.artifact))
  }

  function AggregateSteps(ops: seq<FileOperation>, materials: seq<AggregateMaterial>): (steps: seq<Step>)
    ensures |steps| == |ops|
    ensures forall i :: 0 <= i < |ops| ==> steps[i] == AggregateStep(ops, materials, i)
  {
    seq(|ops|, i requires 0 <= i < |ops| => AggregateStep(ops, materials, i))
  }

  /** Same digest, length and mode; the origin may differ. */
  predicate SameEndpoint(p: Path, a: Files, b: Files) {
    (p in a <==> p in b)
    && (p in a ==> a[p].digest == b[p].digest && a[p].byteLength == b[p].byteLength && a[p].mode == b[p].mode)
  }

  /** Directories that the first `n` operations create on the way to new files. */
  function CreatedAncestors(ops: seq<FileOperation>, n: nat): (all: set<Path>)
    requires n <= |ops|
    ensures forall a :: a in all <==> exists j :: 0 <= j < n && ops[j].Create? && IsAncestor(a, ops[j].path)
  {
    if n == 0 then {}
    else CreatedAncestors(ops, n - 1) + if ops[n - 1].Create? then Ancestors(ops[n - 1].path) else {}
  }

  /** A base and a result between which the diff is replayed. */
  ghost predicate Endpoints(base: Tree, result: Tree, ops: seq<FileOperation>, materials: seq<AggregateMaterial>) {
    && Topological(base) && Topological(result) && base.directories <= result.directories
    && Representable(base.files, result.files)
    && CanonicalDiff(base.files, result.files, ops) && MaterialsDescribe(result.files, ops, materials)
  }

  /** After `n` operations: the paths already named match the result, all others are still as in the base. */
  ghost predicate Midway(base: Tree, result: Tree, ops: seq<FileOperation>, n: nat, t: Tree)
    requires n <= |ops|
  {
    && (forall p :: p in OperationPaths(ops)[..n] ==> SameEndpoint(p, t.files, result.files))
    && (forall p :: p !in OperationPaths(ops)[..n] ==> SameFile(p, base, t))
    && (forall d {:trigger d in t.directories} :: d in t.directories <==>
      d in base.directories || d in CreatedAncestors(ops, n))
  }

  lemma {:induction false} CreatedAncestorsInResult(base: Tree, result: Tree, ops: seq<FileOperation>, n: nat)
    requires Topological(result) && CanonicalDiff(base.files, result.files, ops) && n <= |ops|
    ensures CreatedAncestors(ops, n) <= result.directories
  {
    forall a | a in CreatedAncestors(ops, n) ensures a in result.directories {
      var j :| 0 <= j < n && ops[j].Create? && IsAncestor(a, ops[j].path);
      assert Differs(base.files, result.files, ops[j].path);
    }
  }

  /** The path of operation `n` is not among the earlier ones. */
  lemma {:induction false} NotYetNamed(ops: seq<FileOperation>, n: nat)
    requires n < |ops| && StrictlySorted(OperationPaths(ops))
    ensures ops[n].path !in OperationPaths(ops)[..n]
  {
    LtIrreflexive(ops[n].path);
  }

  /** A named path below that of operation `n` belongs to an earlier operation. */
  lemma {:induction false} SmallerIsEarlier(ops: seq<FileOperation>, n: nat, f: Path)
    requires n < |ops| && StrictlySorted(OperationPaths(ops))
    requires f in OperationPaths(ops) && Lt(f, ops[n].path)
    ensures f in OperationPaths(ops)[..n]
  {
    var paths := OperationPaths(ops);
    var j :| 0 <= j < |paths| && paths[j] == f;
    if j > n { LtAsymmetric(paths[n], paths[j]); }
    LtIrreflexive(f);
    assert paths[..n][j] == f;
  }

  /** No file midway lies above or below a path that a pending Create adds. */
  lemma {:induction false} PendingCreateUnrelated(base: Tree, result: Tree, ops: seq<FileOperation>, n: nat, t: Tree,
                                                  f: Path)
    requires Topological(base) && Topological(result) && base.directories <= result.directories
    requires CanonicalDiff(base.files, result.files, ops)
    requires n < |ops| && Midway(base, result, ops, n, t) && ops[n].Create? && f in t.files
    ensures !Related(f, ops[n].path)
  {
    var p := ops[n].path;
    assert Differs(base.files, result.files, p) && p in result.files;
    if f in OperationPaths(ops)[..n] {
      assert SameEndpoint(f, t.files, result.files);
    } else {
      assert SameFile(f, base, t);
      if IsAncestor(f, p) {
        assert f in result.directories && Differs(base.files, result.files, f);
        AncestorLt(f, p);
        SmallerIsEarlier(ops, n, f);
      }
    }
  }

  /** Nothing midway occupies a path that a pending Create needs free. */
  lemma {:induction false} PendingCreateIsFree(base: Tree, result: Tree, ops: seq<FileOperation>, n: nat, t: Tree)
    requires Topological(base) && Topological(result) && base.directories <= result.directories
    requires CanonicalDiff(base.files, result.files, ops)
    requires n < |ops| && Midway(base, result, ops, n, t) && ops[n].Create?
    ensures CreateAllowed(t, ops[n].path)
  {
    var p := ops[n].path;
    assert Differs(base.files, result.files, p) && p in result.files && p !in base.files;
    NotYetNamed(ops, n);
    assert SameFile(p, base, t);
    CreatedAncestorsInResult(base, result, ops, n);
    forall f | f in t.files ensures !Related(f, p) {
      PendingCreateUnrelated(base, result, ops, n, t, f);
    }
    forall d | d in t.directories + Ancestors(p) ensures d in result.directories {
    }
    SubsetSize(t.directories + Ancestors(p), result.directories);
  }

  /** No directory midway is a file that is still to be modified or deleted. */
  lemma {:induction false} PendingEditIsFile(base: Tree, result: Tree, ops: seq<FileOperation>, n: nat, t: Tree)
    requires Topological(base) && CanonicalDiff(base.files, result.files, ops)
    requires n < |ops| && Midway(base, result, ops, n, t) && !ops[n].Create?
    ensures EditAllowed(t, ops[n].path, ops[n].baseHash)
  {
    var p := ops[n].path;
    assert Differs(base.files, result.files, p);
    NotYetNamed(ops, n);
    assert SameFile(p, base, t);
    if p in CreatedAncestors(ops, n) {
      var j :| 0 <= j < n && ops[j].Create? && IsAncestor(p, ops[j].path);
      AncestorLt(p, ops[j].path);
      assert Lt(OperationPaths(ops)[j], OperationPaths(ops)[n]);
      LtAsymmetric(p, ops[j].path);
    }
  }

  /** A pending step whose place is free or holds its base settles its own path and leaves every other alone. */
  lemma {:induction false} StepSettlesPath(base: Files, result: Files, ops: seq<FileOperation>,
                                           materials: seq<AggregateMaterial>, n: nat, t: Tree)
    returns (u: Tree)
    requires MaterialsDescribe(result, ops, materials) && n < |ops| && Portable(ops[n].path)
    requires Differs(base, result, ops[n].path) && ops[n] == OperationAt(base, result, ops[n].path)
    requires PathRepresentable(base, result, ops[n].path)
    requires ops[n].path in base ==> ops[n].path in t.files && t.files[ops[n].path] == base[ops[n].path]
    requires if ops[n].Create? then CreateAllowed(t, ops[n].path) else EditAllowed(t, ops[n].path, ops[n].baseHash)
    ensures Effect(AggregateStep(ops, materials, n), t) == Some(u)
    ensures SameEndpoint(ops[n].path, u.files, result)
    ensures forall q :: q != ops[n].path ==> SameFile(q, t, u)
    ensures u.directories == t.directories + if ops[n].Create? then Ancestors(ops[n].path) else {}
  {
    if NeedsMaterial(ops[n]) {
      assert MaterialDescribes(result, ops, n, materials[MaterialIndex(ops, n)]);
    }
    u := Effect(AggregateStep(ops, materials, n), t).value;
  }

  /** A path that differs is a file of one side, hence portable. */
  lemma {:induction false} DifferingPortable(base: Tree, result: Tree, p: Path)
    requires Topological(base) && Topological(result) && Differs(base.files, result.files, p)
    ensures Portable(p)
  {
    if p in base.files {
      assert FileOk(p, base.files[p]);
    } else {
      assert FileOk(p, result.files[p]);
    }
  }

  /** The place of a pending step is free for a Create and holds the base file otherwise. */
  lemma {:induction false} PendingStepAllowed(base: Tree, result: Tree, ops: seq<FileOperation>, n: nat, t: Tree)
    requires Topological(base) && Topological(result) && base.directories <= result.directories
    requires CanonicalDiff(base.files, result.files, ops) && n < |ops| && Midway(base, result, ops, n, t)
    ensures if ops[n].Create? then CreateAllowed(t, ops[n].path) else EditAllowed(t, ops[n].path, ops[n].baseHash)
    ensures Portable(ops[n].path) && SameFile(ops[n].path, base, t)
  {
    NotYetNamed(ops, n);
    assert Differs(base.files, result.files, ops[n].path) && SameFile(ops[n].path, base, t);
    DifferingPortable(base, result, ops[n].path);
    if ops[n].Create? {
      PendingCreateIsFree(base, result, ops, n, t);
    } else {
      PendingEditIsFile(base, result, ops, n, t);
    }
  }

  lemma {:induction false} MidwayStep(base: Tree, result: Tree, ops: seq<FileOperation>,
                                      materials: seq<AggregateMaterial>, n: nat, t: Tree)
    returns (u: Tree)
    requires Endpoints(base, result, ops, materials) && n < |ops| && Midway(base, result, ops, n, t)
    ensures Effect(AggregateStep(ops, materials, n), t) == Some(u)
    ensures Midway(base, result, ops, n + 1, u)
  {
    PendingStepAllowed(base, result, ops, n, t);
    assert PathRepresentable(base.files, result.files, ops[n].path);
    u := StepSettlesPath(base.files, result.files, ops, materials, n, t);
    MidwayExtends(base, result, ops, n, t, u);
  }

  lemma {:induction false} MidwayExtends(base: Tree, result: Tree, ops: seq<FileOperation>, n: nat, t: Tree, u: Tree)
    requires n < |ops| && Midway(base, result, ops, n, t)
    requires SameEndpoint(ops[n].path, u.files, result.files)
    requires forall q :: q != ops[n].path ==> SameFile(q, t, u)
    requires u.directories == t.directories + if ops[n].Create? then Ancestors(ops[n].path) else {}
    ensures Midway(base, result, ops, n + 1, u)
  {
    var earlier, named := OperationPaths(ops)[..n], OperationPaths(ops)[..n + 1];
    assert named == earlier + [ops[n].path];
    forall q | q in named ensures SameEndpoint(q, u.files, result.files) {
      if q != ops[n].path {
        EndpointCarries(q, t, u, result);
      }
    }
    forall q | q !in named ensures SameFile(q, base, u) {
      assert q !in earlier && SameFile(q, base, t) && SameFile(q, t, u);
    }
  }

  lemma {:induction false} EndpointCarries(q: Path, t: Tree, u: Tree, result: Tree)
    requires SameEndpoint(q, t.files, result.files) && SameFile(q, t, u)
    ensures SameEndpoint(q, u.files, result.files)
  {
  }

  /** If the replay stands midway before step `i`, that step is accepted and it stands midway after it. */
  ghost predicate Advances(base: Tree, result: Tree, ops: seq<FileOperation>, steps: seq<Step>, i: nat, t: Tree)
    requires i < |steps| == |ops|
  {
    Midway(base, result, ops, i, t) ==>
      Effect(steps[i], t).Some? && Midway(base, result, ops, i + 1, Effect(steps[i], t).value)
  }

  ghost predicate AlwaysAdvances(base: Tree, result: Tree, ops: seq<FileOperation>, steps: seq<Step>) {
    && |steps| == |ops|
    && forall i: nat, t :: i < |ops| ==> Advances(base, result, ops, steps, i, t)
  }

  lemma {:induction false} EndpointsAdvance(base: Tree, result: Tree, ops: seq<FileOperation>,
                                            materials: seq<AggregateMaterial>)
    requires Endpoints(base, result, ops, materials)
    ensures AlwaysAdvances(base, result, ops, AggregateSteps(ops, materials))
  {
    var steps := AggregateSteps(ops, materials);
    forall i: nat, t | i < |ops| ensures Advances(base, result, ops, steps, i, t) {
      if Midway(base, result, ops, i, t) {
        var u := MidwayStep(base, result, ops, materials, i, t);
        assert steps[i] == AggregateStep(ops, materials, i);
      }
    }
  }

  lemma {:induction false} MidwayReached(base: Tree, result: Tree, ops: seq<FileOperation>, steps: seq<Step>, n: nat)
    requires AlwaysAdvances(base, result, ops, steps) && n <= |ops|
    ensures Run(steps, n, base).Some?
    ensures Midway(base, result, ops, n, Run(steps, n, base).value)
  {
    if n == 0 {
      MidwayAtStart(base, result, ops);
    } else {
      MidwayReached(base, result, ops, steps, n - 1);
      assert Advances(base, result, ops, steps, n - 1, Run(steps, n - 1, base).value);
    }
  }

  lemma {:induction false} MidwayAtStart(base: Tree, result: Tree, ops: seq<FileOperation>)
    ensures Midway(base, result, ops, 0, base)
  {
  }

  /** The directories of the base and of every file the result adds. */
  ghost predicate NetDirectories(base: Tree, result: Tree, directories: set<Path>) {
    forall d :: d in directories <==>
      (d in base.directories || exists p :: p in result.files && p !in base.files && IsAncestor(d, p))
  }

  lemma {:induction false} CreatedAncestorsAreNet(base: Files, result: Files, ops: seq<FileOperation>, d: Path)
    requires CanonicalDiff(base, result, ops)
    ensures d in CreatedAncestors(ops, |ops|) <==> exists p :: p in result && p !in base && IsAncestor(d, p)
  {
    if p :| p in result && p !in base && IsAncestor(d, p) {
      assert Differs(base, result, p);
      var j :| 0 <= j < |ops| && OperationPaths(ops)[j] == p;
      assert ops[j].Create? && ops[j].path == p;
    }
    if d in CreatedAncestors(ops, |ops|) {
      var j :| 0 <= j < |ops| && ops[j].Create? && IsAncestor(d, ops[j].path);
      assert Differs(base, result, ops[j].path);
    }
  }

  /**
   * Composition preserves meaning: the canonical diff always replays from the base, and the replay has the
   * result's digest, length and mode at every path, with no directory the result lacks.
   */
  lemma {:induction false} AggregateReplays(base: Tree, result: Tree, ops: seq<FileOperation>,
                                            materials: seq<AggregateMaterial>)
    requires Endpoints(base, result, ops, materials)
    ensures var t := RunAll(AggregateSteps(ops, materials), base);
      && t.Some?
      && (forall p :: SameEndpoint(p, t.value.files, result.files))
      && NetDirectories(base, result, t.value.directories)
      && t.value.directories <= result.directories
  {
    var steps := AggregateSteps(ops, materials);
    EndpointsAdvance(base, result, ops, materials);
    MidwayReached(base, result, ops, steps, |ops|);
    MidwayAtEnd(base, result, ops, RunAll(steps, base).value);
  }

  /** With every operation done, every path matches the result. */
  lemma {:induction false} MidwayAtEnd(base: Tree, result: Tree, ops: seq<FileOperation>, t: Tree)
    requires Topological(result) && base.directories <= result.directories && Representable(base.files, result.files)
    requires CanonicalDiff(base.files, result.files, ops) && Midway(base, result, ops, |ops|, t)
    ensures forall p :: SameEndpoint(p, t.files, result.files)
    ensures NetDirectories(base, result, t.directories) && t.directories <= result.directories
  {
    CreatedAncestorsInResult(base, result, ops, |ops|);
    assert OperationPaths(ops)[..|ops|] == OperationPaths(ops);
    forall p ensures SameEndpoint(p, t.files, result.files) {
      if p !in OperationPaths(ops) {
        assert !Differs(base.files, result.files, p) && SameFile(p, base, t)
          && PathRepresentable(base.files, result.files, p);
      }
    }
    forall d ensures d in t.directories <==>
      (d in base.directories || exists p :: p in result.files && p !in base.files && IsAncestor(d, p))
    {
      CreatedAncestorsAreNet(base.files, result.files, ops, d);
    }
  }

  /** `replay_aggregate`: a fresh state from the base, the operations in order, the material index beside them. */
  method ReplayAggregate(base: Tree, ops: seq<FileOperation>, materials: seq<AggregateMaterial>, ghost result: Files)
    returns (r: Result<Tree, CompositionConflict>)
    requires MaterialsDescribe(result, ops, materials)
    ensures r.Ok? <==> RunAll(AggregateSteps(ops, materials), base).Some?
    ensures r.Ok? ==> r.value == RunAll(AggregateSteps(ops, materials), base).value
  {
    ghost var steps := AggregateSteps(ops, materials);
    var state := new ReplayState(base);
    var materialIndex := 0;
    for i := 0 to |ops|
      invariant materialIndex == MaterialIndex(ops, i)
      invariant Run(steps, i, base) == Some(state.Current())
    {
      var stamp: Option<Stamp> := None;
      if NeedsMaterial(ops[i]) {
        assert MaterialDescribes(result, ops, i, materials[materialIndex]);
        stamp := Some(AggregateStamp(materials[materialIndex]));
        materialIndex := materialIndex + 1;
      }
      var step := Step(None, ops[i], stamp);
      assert step == steps[i];
      var applied := state.Apply(step);
      if applied.Err? {
        IterateFailed(Effect, steps, i + 1, base);
        return Err(Defensive(AggregateReplayRejected(applied.error)));
      }
    }
    return Ok(state.Current());
  }

  /** `same_file_endpoints`: equal sizes, and every left entry matched on the right. */
  method SameFileEndpoints(left: Files, right: Files) returns (same: bool)
    ensures same <==> forall p :: SameEndpoint(p, left, right)
  {
    if |left| != |right| {
      DifferentSizesDiffer(left, right);
      return false;
    }
    var paths := SortedKeys(left.Keys);
    for i := 0 to |paths|
      invariant forall j :: 0 <= j < i ==> SameEndpoint(paths[j], left, right)
    {
      if !SameEndpoint(paths[i], left, right) {
        return false;
      }
    }
    forall p | p in left ensures SameEndpoint(p, left, right) {
      assert p in paths;
    }
    OneSideDecides(left, right);
    return true;
  }

  lemma {:induction false} OneSideDecides(left: Files, right: Files)
    requires |left| == |right| && forall p :: p in left ==> SameEndpoint(p, left, right)
    ensures forall p :: SameEndpoint(p, left, right)
  {
    forall p | p in left.Keys ensures p in right.Keys {
      assert SameEndpoint(p, left, right);
    }
    SubsetSameSize(left.Keys, right.Keys);
    forall p ensures SameEndpoint(p, left, right) {
      assert p in left.Keys <==> p in right.Keys;
    }
  }

  lemma {:induction false} DifferentSizesDiffer(left: Files, right: Files)
    requires |left.Keys| != |right.Keys|
    ensures exists p :: !SameEndpoint(p, left, right)
  {
    assert left.Keys != right.Keys;
    if left.Keys <= right.Keys {
      var p :| p in right.Keys && p !in left.Keys;
      assert !SameEndpoint(p, left, right);
    } else {
      var p :| p in left.Keys && p !in right.Keys;
      assert !SameEndpoint(p, left, right);
    }
  }
}
