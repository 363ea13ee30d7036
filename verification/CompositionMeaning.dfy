/** What composable inputs and a derived plan are, field by field (application_composition.rs). */
module CompositionMeaning {
  import opened Outcomes
  import opened Bytes
  import opened Finite
  import opened Paths
  import opened Manifest
  import opened Replay
  import opened Runs
  import opened BlobAccounting
  import opened Sources
  import opened SourceCoverage
  import opened Aggregate
  import opened BaseProjection
  import opened Composition

  // ---------- snapshots ----------

  /** One entry for each file, with its fields, in the order of the first byte that differs. */
  ghost predicate Lists(entries: seq<Entry>, files: Files) {
    && (forall i, j :: 0 <= i < j < |entries| ==> ComesBefore(entries[i].path, entries[j].path))
    && (forall e :: e in entries ==>
         && e.path in files && e.digest == files[e.path].digest
         && e.byteLength == files[e.path].byteLength && e.mode == files[e.path].mode)
    && (forall p :: p in files ==> exists e :: e in entries && e.path == p)
  }

  /** The digest of that list, which has at most 65536 entries. */
  ghost predicate SnapshotAs(hash: ByteString -> Digest, files: Files, snapshot: Digest) {
    exists entries ::
      && Lists(entries, files) && |entries| <= 65536 && AllEncodable(entries) && hash(Encode(entries)) == snapshot
  }

  lemma {:induction false} PathListed(entries: seq<Entry>, p: Path)
    ensures p in PathsOf(entries) <==> exists e :: e in entries && e.path == p
  {
    if e :| e in entries && e.path == p {
      var i :| 0 <= i < |entries| && entries[i] == e;
      assert PathsOf(entries)[i] == p;
    }
    if p in PathsOf(entries) {
      var i :| 0 <= i < |entries| && PathsOf(entries)[i] == p;
      assert entries[i] in entries;
    }
  }

  lemma {:induction false} ListedIsManifest(entries: seq<Entry>, files: Files)
    requires Lists(entries, files)
    ensures entries == ManifestOf(files)
  {
    var listed := ManifestOf(files);
    SortedExactly(PathsOf(entries));
    OrderOfPaths(entries);
    forall p ensures p in PathsOf(entries) <==> p in PathsOf(listed) {
      PathListed(entries, p);
    }
    SortedUnique(PathsOf(entries), PathsOf(listed));
    SameListing(entries, listed, files);
  }

  /** Two lists of the same paths in the same order, each with the fields of the same files. */
  lemma {:induction false} SameListing(a: seq<Entry>, b: seq<Entry>, files: Files)
    requires PathsOf(a) == PathsOf(b)
    requires forall e :: e in a ==> e.path in files && e == EntryAt(files, e.path)
    requires forall e :: e in b ==> e.path in files && e == EntryAt(files, e.path)
    ensures a == b
  {
    assert |a| == |PathsOf(a)| == |b|;
    forall i | 0 <= i < |a| ensures a[i] == b[i] {
      assert PathsOf(a)[i] == PathsOf(b)[i];
      assert a[i] in a && b[i] in b;
    }
  }

  lemma {:induction false} ManifestLists(files: Files)
    ensures Lists(ManifestOf(files), files)
  {
    var listed := ManifestOf(files);
    SortedExactly(PathsOf(listed));
    OrderOfPaths(listed);
    forall p | p in files ensures exists e :: e in listed && e.path == p {
      PathListed(listed, p);
    }
  }

  lemma {:induction false} SnapshotExactly(hash: ByteString -> Digest, files: Files, snapshot: Digest)
    ensures SnapshotIs(hash, files, snapshot) <==> SnapshotAs(hash, files, snapshot)
  {
    var listed := ManifestOf(files);
    assert |listed| == |PathsOf(listed)| == |files.Keys|;
    ManifestLists(files);
    forall entries | Lists(entries, files) ensures entries == listed {
      ListedIsManifest(entries, files);
    }
  }

  /** Two different lists of one digest. */
  ghost predicate Confused(hash: ByteString -> Digest, a: Files, c: Files) {
    exists x, y ::
      && Lists(x, a) && Lists(y, c) && AllEncodable(x) && AllEncodable(y) && x != y
        && hash(Encode(x)) == hash(Encode(y))
  }

  lemma {:induction false} ConfusedExactly(hash: ByteString -> Digest, a: Files, c: Files)
    ensures Collides(hash, a, c) <==> Confused(hash, a, c)
  {
    ManifestLists(a);
    ManifestLists(c);
    if AllEncodable(ManifestOf(a)) && AllEncodable(ManifestOf(c)) {
      EncodeInjective(ManifestOf(a), ManifestOf(c));
    }
    forall x, y | Lists(x, a) && Lists(y, c) ensures x == ManifestOf(a) && y == ManifestOf(c) {
      ListedIsManifest(x, a);
      ListedIsManifest(y, c);
    }
  }

  // ---------- the base ----------

  /** Bounded files and directories in order, no path both, and a directory above every file and directory. */
  ghost predicate ShapeAs(files: seq<Entry>, directories: seq<Path>) {
    && |files| + |directories| <= 65536
    && (forall e :: e in files ==> Portable(e.path) && e.byteLength <= 0x7FFF_FFFF_FFFF_FFFF && e.mode <= 511)
    && (forall d :: d in directories ==> Portable(d))
    && (forall i, j :: 0 <= i < j < |files| ==> ComesBefore(files[i].path, files[j].path))
    && (forall i, j :: 0 <= i < j < |directories| ==> ComesBefore(directories[i], directories[j]))
    && (forall e :: e in files ==> e.path !in directories)
    && (forall e, a: Path :: e in files && a + [47] <= e.path ==> a in directories)
    && (forall d, a: Path :: d in directories && a + [47] <= d ==> a in directories)
  }

  lemma {:induction false} ProjectedExactly(p: Path, files: seq<Path>, directories: seq<Path>)
    requires forall d :: d in directories ==> d !in files
    ensures AncestorsProjected(p, Elements(files), Elements(directories)) <==>
      forall a: Path :: a + [47] <= p ==> a in directories
  {
    forall a: Path ensures IsAncestor(a, p) <==> a + [47] <= p {
      AncestorExactly(a, p);
    }
  }

  /** Every ancestor of a listed path is a directory. */
  ghost predicate Closed(paths: seq<Path>, directories: seq<Path>) {
    forall p, a: Path :: p in paths && a + [47] <= p ==> a in directories
  }

  lemma {:induction false} ClosedExactly(paths: seq<Path>, files: seq<Path>, directories: seq<Path>)
    requires forall d :: d in directories ==> d !in files
    ensures (forall p :: p in paths ==> AncestorsProjected(p, Elements(files), Elements(directories))) <==>
      Closed(paths, directories)
  {
    forall p | p in paths
      ensures AncestorsProjected(p, Elements(files), Elements(directories)) <==>
        forall a: Path :: a + [47] <= p ==> a in directories
    {
      ProjectedExactly(p, files, directories);
    }
  }

  lemma {:induction false} ListedPaths(files: seq<Entry>, directories: seq<Path>)
    ensures (forall d :: d in directories ==> d !in PathsOf(files)) <==>
      forall e :: e in files ==> e.path !in directories
    ensures Closed(PathsOf(files), directories) <==>
      forall e, a: Path :: e in files && a + [47] <= e.path ==> a in directories
  {
    forall e | e in files ensures e.path in PathsOf(files) {
      PathListed(files, e.path);
    }
    forall p | p in PathsOf(files) ensures exists e :: e in files && e.path == p {
      PathListed(files, p);
    }
  }

  lemma {:induction false} MetadataExactly(e: Entry)
    ensures FileMetadataOk(e) <==> Portable(e.path) && e.byteLength <= 0x7FFF_FFFF_FFFF_FFFF && e.mode <= 511
  {
  }

  lemma {:induction false} DirectoryOrder(directories: seq<Path>)
    ensures StrictlySorted(directories) <==>
      forall i, j :: 0 <= i < j < |directories| ==> ComesBefore(directories[i], directories[j])
  {
    SortedExactly(directories);
  }

  lemma {:induction false} ShapeExactly(files: seq<Entry>, directories: seq<Path>)
    ensures ValidShape(files, directories) <==> ShapeAs(files, directories)
  {
    SortedExactly(PathsOf(files));
    OrderOfPaths(files);
    DirectoryOrder(directories);
    ListedPaths(files, directories);
    forall e | e in files
      ensures FileMetadataOk(e) <==> Portable(e.path) && e.byteLength <= 0x7FFF_FFFF_FFFF_FFFF && e.mode <= 511
    {
      MetadataExactly(e);
    }
    if forall d :: d in directories ==> d !in PathsOf(files) {
      ClosedExactly(directories, PathsOf(files), directories);
      ClosedExactly(PathsOf(files), PathsOf(files), directories);
    }
  }

  /** The shape, and the digest of the listed files themselves. */
  ghost predicate BaseAs(hash: ByteString -> Digest, b: Projection) {
    ShapeAs(b.files, b.directories) && AllEncodable(b.files) && hash(Encode(b.files)) == b.snapshot
  }

  lemma {:induction false} BaseExactly(hash: ByteString -> Digest, b: Projection)
    ensures ValidBase(hash, b) <==> BaseAs(hash, b)
  {
    ShapeExactly(b.files, b.directories);
    if ValidShape(b.files, b.directories) {
      BaseManifestAccepted(b);
    }
  }

  /** The tree that holds exactly the listed files, without origin, and the listed directories. */
  ghost predicate StartsFrom(b: Projection, t: Tree) {
    && (forall d :: d in t.directories <==> d in b.directories)
    && (forall e :: e in b.files ==>
         e.path in t.files && t.files[e.path] == Endpoint(e.digest, e.byteLength, e.mode, None))
    && (forall p :: p in t.files ==> exists e :: e in b.files && e.path == p)
  }

  lemma {:induction false} BaseStarts(b: Projection)
    requires ValidShape(b.files, b.directories)
    ensures StartsFrom(b, BaseTree(b))
  {
    BaseFilesAre(b.files);
    forall p | p in BaseTree(b).files ensures exists e :: e in b.files && e.path == p {
      PathListed(b.files, p);
    }
  }

  lemma {:induction false} StartIsBase(b: Projection, t: Tree)
    requires ValidShape(b.files, b.directories) && StartsFrom(b, t)
    ensures t == BaseTree(b)
  {
    BaseStarts(b);
    SameStart(b, t, BaseTree(b));
  }

  lemma {:induction false} SameStart(b: Projection, t: Tree, u: Tree)
    requires StartsFrom(b, t) && StartsFrom(b, u)
    ensures t == u
  {
    assert t.directories == u.directories;
    forall p | p in t.files || p in u.files ensures p in t.files && p in u.files && t.files[p] == u.files[p] {
      var e :| e in b.files && e.path == p;
    }
    assert t.files == u.files;
  }

  // ---------- the sources ----------

  /** From the base snapshot to the result snapshot, each source starting where the one before it ended. */
  ghost predicate Unbroken(inputs: CompositionInputs, b: Projection, sources: seq<Source>) {
    && |sources| > 0 && b.snapshot == inputs.baseSnapshot
    && sources[0].inputSnapshot == inputs.baseSnapshot
    && (forall k :: 0 < k < |sources| ==> sources[k].inputSnapshot == sources[k - 1].resultSnapshot)
    && sources[|sources| - 1].resultSnapshot == inputs.resultSnapshot
  }

  /** The admitted sources in their order, no identity, task, attempt, proof or receipt twice. */
  ghost predicate AdmittedList(inputs: CompositionInputs, sources: seq<Source>) {
    && 1 <= |inputs.sourceIdentities| <= 4096 && |sources| == |inputs.sourceIdentities|
    && (forall k :: 0 <= k < |sources| ==>
         sources[k].ordinal == k && sources[k].identity == inputs.sourceIdentities[k] && ValidSource(sources[k]))
    && (forall j, k :: 0 <= j < k < |sources| ==>
         && sources[j].identity != sources[k].identity
         && sources[j].members.taskId != sources[k].members.taskId
         && sources[j].members.attemptId != sources[k].members.attemptId
         && sources[j].members.taskDoneProofId != sources[k].members.taskDoneProofId
         && sources[j].members.integrationReceiptId != sources[k].members.integrationReceiptId)
  }

  /** The trees before, between and after the sources: each leads to the next and leaves the snapshot it claims. */
  ghost predicate LeadsThrough(hash: ByteString -> Digest, b: Projection, sources: seq<Source>, trees: seq<Tree>) {
    && |trees| == |sources| + 1 && StartsFrom(b, trees[0])
    && forall k :: 0 <= k < |sources| ==> LeadsOn(hash, sources, trees, k)
  }

  ghost predicate LeadsOn(hash: ByteString -> Digest, sources: seq<Source>, trees: seq<Tree>, k: nat)
    requires k < |sources| && |trees| == |sources| + 1
  {
    LeadsTo(sources, trees, k) && SnapshotAs(hash, trees[k + 1].files, sources[k].resultSnapshot)
  }

  ghost predicate LeadsTo(sources: seq<Source>, trees: seq<Tree>, k: nat)
    requires k < |sources| && |trees| == |sources| + 1
  {
    RunAll(SourceSteps(sources[k]), trees[k]) == Some(trees[k + 1])
  }

  /** Between two trees: no mode or length changes under one digest, a diff within the limits, no digest confused. */
  ghost predicate AggregatesWithin(hash: ByteString -> Digest, base: Files, final: Files) {
    && Compatible(base, final) && !Confused(hash, base, final)
    && exists ops, materials ::
         DiffListed(base, final, ops) && MaterialsListed(final, ops, materials) && LimitsKept(ops, materials)
  }

  ghost predicate LengthsIn(materials: seq<AggregateMaterial>, lengths: map<ByteString, nat>) {
    && (forall m :: m in materials ==> m.resultDigest in lengths && lengths[m.resultDigest] == m.byteLength)
    && (forall d :: d in lengths ==> exists m :: m in materials && m.resultDigest == d)
  }

  /** At most 4096 operations, 16 MiB for a file, 64 MiB for all different contents together. */
  ghost predicate LimitsKept(ops: seq<FileOperation>, materials: seq<AggregateMaterial>) {
    && |ops| <= 4096 && |materials| <= 4096
    && (forall m :: m in materials ==> m.byteLength <= 16777216)
    && exists lengths :: LengthsIn(materials, lengths) && Total(lengths) <= 67108864
  }

  ghost predicate ComposableAs(hash: ByteString -> Digest, inputs: CompositionInputs, b: Projection,
                               sources: seq<Source>) {
    && BaseAs(hash, b) && Unbroken(inputs, b, sources) && AdmittedList(inputs, sources)
    && exists trees: seq<Tree> ::
         && LeadsThrough(hash, b, sources, trees)
         && AggregatesWithin(hash, trees[0].files, trees[|sources|].files)
  }

  lemma {:induction false} LengthsInExactly(materials: seq<AggregateMaterial>, lengths: map<ByteString, nat>)
    ensures LengthsIn(materials, lengths) <==> LengthsOf(AggregateBlobs(materials), lengths)
  {
    var blobs := AggregateBlobs(materials);
    if LengthsOf(blobs, lengths) {
      forall m | m in materials ensures m.resultDigest in lengths && lengths[m.resultDigest] == m.byteLength {
        var i :| 0 <= i < |materials| && materials[i] == m;
        assert blobs[i].digest in lengths;
      }
      forall d | d in lengths ensures exists m :: m in materials && m.resultDigest == d {
        var i :| 0 <= i < |blobs| && blobs[i].digest == d;
        assert materials[i] in materials;
      }
    }
    if LengthsIn(materials, lengths) {
      forall i | 0 <= i < |blobs|
        ensures blobs[i].digest in lengths && lengths[blobs[i].digest] == blobs[i].byteLength
      {
        assert materials[i] in materials;
      }
      forall d | d in lengths ensures exists i :: 0 <= i < |blobs| && blobs[i].digest == d {
        var m :| m in materials && m.resultDigest == d;
        var i :| 0 <= i < |materials| && materials[i] == m;
        assert blobs[i].digest == d;
      }
    }
  }

  lemma {:induction false} LimitsExactly(ops: seq<FileOperation>, materials: seq<AggregateMaterial>)
    ensures WithinBounds(ops, materials) <==> LimitsKept(ops, materials)
  {
    AccountedExactly(AggregateBlobs(materials), MAX_TOTAL_BYTES);
    forall lengths ensures LengthsIn(materials, lengths) <==> LengthsOf(AggregateBlobs(materials), lengths) {
      LengthsInExactly(materials, lengths);
    }
    assert (forall i :: 0 <= i < |materials| ==> AggregateBlobs(materials)[i].byteLength <= 16777216) <==>
      forall m :: m in materials ==> m.byteLength <= 16777216;
  }

  /** Materials that are listed right are the ones the operations call for. */
  lemma {:induction false} ListedAreDescribed(result: Files, ops: seq<FileOperation>, materials: seq<AggregateMaterial>)
    requires MaterialsListed(result, ops, materials)
    ensures MaterialsDescribe(result, ops, materials)
  {
    ListedCuts(result, ops, materials, |ops|);
    if materials != [] {
      assert materials[|materials| - 1] in materials;
    }
    forall i | 0 <= i < |ops| && NeedsMaterial(ops[i])
      ensures MaterialIndex(ops, i) < |materials| && MaterialDescribes(result, ops, i, materials[MaterialIndex(ops, i)])
    {
      ListedCuts(result, ops, materials, i);
      ListedCuts(result, ops, materials, i + 1);
      var m :| m in materials && m.operationIndex == i;
      var k :| 0 <= k < |materials| && materials[k] == m;
      assert k == MaterialIndex(ops, i) && Restates(result, ops, m);
    }
  }

  /** Exactly the first `at` materials belong to the first `n` operations. */
  ghost predicate CutAt(materials: seq<AggregateMaterial>, n: nat, at: nat) {
    && at <= |materials|
    && (forall k :: 0 <= k < |materials| ==> (k < at <==> materials[k].operationIndex < n))
  }

  lemma {:induction false} ListedCuts(result: Files, ops: seq<FileOperation>, materials: seq<AggregateMaterial>, n: nat)
    requires MaterialsListed(result, ops, materials) && n <= |ops|
    ensures CutAt(materials, n, MaterialIndex(ops, n))
  {
    if n > 0 {
      ListedCuts(result, ops, materials, n - 1);
      CutNext(result, ops, materials, n - 1, MaterialIndex(ops, n - 1));
    }
  }

  lemma {:induction false} Rises(result: Files, ops: seq<FileOperation>, materials: seq<AggregateMaterial>, k: nat,
                                 l: nat)
    requires MaterialsListed(result, ops, materials) && k <= l < |materials|
    ensures k < l ==> materials[k].operationIndex < materials[l].operationIndex
  {
  }

  lemma {:induction false} CutNext(result: Files, ops: seq<FileOperation>, materials: seq<AggregateMaterial>, n: nat,
                                   at: nat)
    requires MaterialsListed(result, ops, materials) && n < |ops| && CutAt(materials, n, at)
    ensures CutAt(materials, n + 1, at + if NeedsMaterial(ops[n]) then 1 else 0)
  {
    if NeedsMaterial(ops[n]) {
      var m :| m in materials && m.operationIndex == n;
      var l :| 0 <= l < |materials| && materials[l] == m;
      assert at <= l;
      Rises(result, ops, materials, at, l);
      forall k | at < k < |materials| ensures materials[k].operationIndex > n {
        assert materials[at].operationIndex < materials[k].operationIndex;
      }
    } else {
      forall k | 0 <= k < |materials| ensures materials[k].operationIndex != n {
        assert materials[k] in materials;
      }
    }
  }

  lemma {:induction false} AggregateExactly(base: Files, result: Files, ops: seq<FileOperation>,
                                            materials: seq<AggregateMaterial>)
    ensures AggregateOf(base, result, ops, materials) <==>
      DiffListed(base, result, ops) && MaterialsListed(result, ops, materials)
  {
    DiffExactly(base, result, ops);
    if MaterialsDescribe(result, ops, materials) { DescribedAreListed(result, ops, materials); }
    if MaterialsListed(result, ops, materials) { ListedAreDescribed(result, ops, materials); }
  }

  lemma {:induction false} AggregatesExactly(hash: ByteString -> Digest, base: Files, final: Files)
    ensures Aggregable(base, final) && !Collides(hash, base, final) <==> AggregatesWithin(hash, base, final)
  {
    CompatibleExactly(base, final);
    ConfusedExactly(hash, base, final);
    forall ops, materials
      ensures AggregateOf(base, final, ops, materials) && WithinBounds(ops, materials) <==>
        DiffListed(base, final, ops) && MaterialsListed(final, ops, materials) && LimitsKept(ops, materials)
    {
      AggregateExactly(base, final, ops, materials);
      LimitsExactly(ops, materials);
    }
  }

  /** The trees of a run through all sources are the trees after each prefix of them. */
  lemma {:induction false} TreesAre(sources: seq<Source>, trees: seq<Tree>, k: nat)
    requires |trees| == |sources| + 1 && k <= |sources|
    requires forall j :: 0 <= j < |sources| ==> LeadsTo(sources, trees, j)
    ensures TreeIs(sources, trees, k)
  {
    forall i: nat | i < k && TreeIs(sources, trees, i) ensures TreeIs(sources, trees, i + 1) {
      assert LeadsTo(sources, trees, i);
      TreeNext(sources, trees, i);
    }
    Climb(k, (i: nat) => i <= k && TreeIs(sources, trees, i));
  }

  ghost predicate TreeIs(sources: seq<Source>, trees: seq<Tree>, k: nat)
    requires |trees| == |sources| + 1 && k <= |sources|
  {
    TreeAfter(sources, k, trees[0]) == Some(trees[k])
  }

  lemma {:induction false} TreeNext(sources: seq<Source>, trees: seq<Tree>, k: nat)
    requires |trees| == |sources| + 1 && k < |sources| && LeadsTo(sources, trees, k)
    requires TreeAfter(sources, k, trees[0]) == Some(trees[k])
    ensures TreeAfter(sources, k + 1, trees[0]) == Some(trees[k + 1])
  {
    TreeAfterNext(sources, k, trees[0]);
  }

  lemma {:induction false} LeadsClaims(hash: ByteString -> Digest, b: Projection, sources: seq<Source>,
                                       trees: seq<Tree>, k: nat)
    requires |trees| == |sources| + 1 && k < |sources| && trees[0] == BaseTree(b)
    requires forall j :: 0 <= j < |sources| ==> LeadsOn(hash, sources, trees, j)
    ensures LeavesClaimed(hash, b, sources, k)
  {
    forall j | 0 <= j < |sources| ensures LeadsTo(sources, trees, j) {
      assert LeadsOn(hash, sources, trees, j);
    }
    TreesAre(sources, trees, k + 1);
    ClaimedAt(hash, sources, trees, k);
  }

  lemma {:induction false} ClaimedAt(hash: ByteString -> Digest, sources: seq<Source>, trees: seq<Tree>, k: nat)
    requires k < |sources| && |trees| == |sources| + 1 && LeadsOn(hash, sources, trees, k)
    ensures SnapshotIs(hash, trees[k + 1].files, sources[k].resultSnapshot)
  {
    SnapshotExactly(hash, trees[k + 1].files, sources[k].resultSnapshot);
  }

  lemma {:induction false} LeadsMeansClaims(hash: ByteString -> Digest, b: Projection, sources: seq<Source>,
                                            trees: seq<Tree>)
    requires ValidShape(b.files, b.directories) && LeadsThrough(hash, b, sources, trees)
    ensures forall k :: 0 <= k < |sources| ==> LeavesClaimed(hash, b, sources, k)
    ensures FinalTree(b, sources) == Some(trees[|sources|]) && trees[0] == BaseTree(b)
  {
    StartIsBase(b, trees[0]);
    forall k | 0 <= k < |sources| ensures LeadsTo(sources, trees, k) && LeavesClaimed(hash, b, sources, k) {
      LeadsClaims(hash, b, sources, trees, k);
      assert LeadsOn(hash, sources, trees, k);
    }
    TreesAre(sources, trees, |sources|);
  }

  /** The trees after each prefix of the sources, as far as they replay. */
  ghost function TreesOf(b: Projection, sources: seq<Source>): (trees: seq<Tree>)
    ensures |trees| == |sources| + 1
  {
    seq(|sources| + 1, k requires 0 <= k < |sources| + 1 => TreeOrBase(b, sources, k))
  }

  ghost function TreeOrBase(b: Projection, sources: seq<Source>, k: nat): Tree
    requires k <= |sources|
  {
    match TreeAfter(sources, k, BaseTree(b))
    case None => BaseTree(b)
    case Some(t) => t
  }

  lemma {:induction false} ClaimLeadsOn(hash: ByteString -> Digest, b: Projection, sources: seq<Source>,
                                        trees: seq<Tree>, k: nat)
    requires k < |sources| && |trees| == |sources| + 1
    requires TreeAfter(sources, k, BaseTree(b)) == Some(trees[k])
    requires TreeAfter(sources, k + 1, BaseTree(b)) == Some(trees[k + 1])
    requires SnapshotIs(hash, trees[k + 1].files, sources[k].resultSnapshot)
    ensures LeadsOn(hash, sources, trees, k)
  {
    TreeAfterNext(sources, k, BaseTree(b));
    SnapshotExactly(hash, trees[k + 1].files, sources[k].resultSnapshot);
  }

  lemma {:induction false} TreeKnown(hash: ByteString -> Digest, b: Projection, sources: seq<Source>, k: nat)
    requires k <= |sources| && (k > 0 ==> LeavesClaimed(hash, b, sources, k - 1))
    ensures TreeAfter(sources, k, BaseTree(b)) == Some(TreesOf(b, sources)[k])
    ensures k > 0 ==> SnapshotIs(hash, TreesOf(b, sources)[k].files, sources[k - 1].resultSnapshot)
  {
  }

  lemma {:induction false} ClaimsMeanLeads(hash: ByteString -> Digest, b: Projection, sources: seq<Source>)
    returns (trees: seq<Tree>)
    requires ValidShape(b.files, b.directories) && forall k :: 0 <= k < |sources| ==> LeavesClaimed(hash, b, sources, k)
    ensures LeadsThrough(hash, b, sources, trees)
  {
    trees := TreesOf(b, sources);
    forall k | 0 <= k < |sources| ensures LeadsOn(hash, sources, trees, k) {
      assert LeavesClaimed(hash, b, sources, k);
      assert k > 0 ==> LeavesClaimed(hash, b, sources, k - 1);
      TreeKnown(hash, b, sources, k);
      TreeKnown(hash, b, sources, k + 1);
      ClaimLeadsOn(hash, b, sources, trees, k);
    }
    TreeKnown(hash, b, sources, 0);
    BaseStarts(b);
  }

  /** What admits the sources of a list, apart from what they leave behind. */
  ghost predicate Linked(inputs: CompositionInputs, b: Projection, sources: seq<Source>) {
    && IdentitySetValid(inputs.sourceIdentities) && |sources| == |inputs.sourceIdentities|
    && b.snapshot == inputs.baseSnapshot && ExpectedInput(b, sources, |sources|) == inputs.resultSnapshot
    && forall k :: 0 <= k < |sources| ==> LinkedAt(inputs, b, sources, k)
  }

  lemma {:induction false} ChainLinks(inputs: CompositionInputs, b: Projection, sources: seq<Source>)
    requires |sources| > 0
    ensures Unbroken(inputs, b, sources) <==>
      && b.snapshot == inputs.baseSnapshot && ExpectedInput(b, sources, |sources|) == inputs.resultSnapshot
      && forall k :: 0 <= k < |sources| ==> sources[k].inputSnapshot == ExpectedInput(b, sources, k)
  {
  }

  lemma {:induction false} ListCovers(inputs: CompositionInputs, sources: seq<Source>)
    requires |sources| == |inputs.sourceIdentities|
    ensures AdmittedList(inputs, sources) <==>
      && IdentitySetValid(inputs.sourceIdentities)
      && forall k :: 0 <= k < |sources| ==>
           sources[k].ordinal == k && ValidSource(sources[k]) && CoverageHolds(inputs.sourceIdentities, sources, k)
  {
    CoverageExactly(inputs.sourceIdentities, sources);
    forall j, k | 0 <= j < k < |sources|
      ensures ShareNothing(sources[j].members, sources[k].members) <==>
        && sources[j].members.taskId != sources[k].members.taskId
        && sources[j].members.attemptId != sources[k].members.attemptId
        && sources[j].members.taskDoneProofId != sources[k].members.taskDoneProofId
        && sources[j].members.integrationReceiptId != sources[k].members.integrationReceiptId
    {
    }
  }

  lemma {:induction false} LinkedExactly(inputs: CompositionInputs, b: Projection, sources: seq<Source>)
    ensures Linked(inputs, b, sources) <==> Unbroken(inputs, b, sources) && AdmittedList(inputs, sources)
  {
    if |sources| > 0 && |sources| == |inputs.sourceIdentities| {
      ChainLinks(inputs, b, sources);
      ListCovers(inputs, sources);
      LinkedSplits(inputs, b, sources);
    }
  }

  lemma {:induction false} LinkedSplits(inputs: CompositionInputs, b: Projection, sources: seq<Source>)
    requires |sources| == |inputs.sourceIdentities|
    ensures (forall k :: 0 <= k < |sources| ==> LinkedAt(inputs, b, sources, k)) <==>
      && (forall k :: 0 <= k < |sources| ==>
           sources[k].ordinal == k && ValidSource(sources[k]) && CoverageHolds(inputs.sourceIdentities, sources, k))
      && (forall k :: 0 <= k < |sources| ==> sources[k].inputSnapshot == ExpectedInput(b, sources, k))
  {
    if forall k :: 0 <= k < |sources| ==> LinkedAt(inputs, b, sources, k) {
      forall k | 0 <= k < |sources|
        ensures sources[k].ordinal == k && ValidSource(sources[k]) && CoverageHolds(inputs.sourceIdentities, sources, k)
        ensures sources[k].inputSnapshot == ExpectedInput(b, sources, k)
      {
        assert LinkedAt(inputs, b, sources, k);
      }
    }
  }

  /** What source `k` must be, apart from what it leaves behind. */
  ghost predicate LinkedAt(inputs: CompositionInputs, b: Projection, sources: seq<Source>, k: nat)
    requires k < |sources| == |inputs.sourceIdentities|
  {
    && sources[k].ordinal == k && ValidSource(sources[k]) && CoverageHolds(inputs.sourceIdentities, sources, k)
    && sources[k].inputSnapshot == ExpectedInput(b, sources, k)
  }

  lemma {:induction false} AdmittedSplits(hash: ByteString -> Digest, inputs: CompositionInputs, b: Projection,
                                          sources: seq<Source>, k: nat)
    requires k < |sources| == |inputs.sourceIdentities|
    ensures SourceAdmitted(hash, b, inputs.sourceIdentities, sources, k) <==>
      LinkedAt(inputs, b, sources, k) && LeavesClaimed(hash, b, sources, k)
  {
  }

  lemma {:induction false} AllSplit(hash: ByteString -> Digest, inputs: CompositionInputs, b: Projection,
                                    sources: seq<Source>)
    requires |sources| == |inputs.sourceIdentities|
    ensures (forall k :: 0 <= k < |sources| ==> SourceAdmitted(hash, b, inputs.sourceIdentities, sources, k)) <==>
      && (forall k :: 0 <= k < |sources| ==> LinkedAt(inputs, b, sources, k))
      && (forall k :: 0 <= k < |sources| ==> LeavesClaimed(hash, b, sources, k))
  {
    forall k | 0 <= k < |sources|
      ensures SourceAdmitted(hash, b, inputs.sourceIdentities, sources, k) <==>
        LinkedAt(inputs, b, sources, k) && LeavesClaimed(hash, b, sources, k)
    {
      AdmittedSplits(hash, inputs, b, sources, k);
    }
  }

  lemma {:induction false} SourcesLinkSplits(hash: ByteString -> Digest, inputs: CompositionInputs, b: Projection,
                                             sources: seq<Source>)
    ensures SourcesLink(hash, inputs, b, sources) <==>
      Linked(inputs, b, sources) && ValidBase(hash, b)
      && forall k :: 0 <= k < |sources| ==> LeavesClaimed(hash, b, sources, k)
  {
    if |sources| == |inputs.sourceIdentities| {
      AllSplit(hash, inputs, b, sources);
    }
  }

  /** A plan comes out exactly for inputs of which all of this is true. */
  lemma {:induction false} ComposableExactly(hash: ByteString -> Digest, inputs: CompositionInputs, b: Projection,
                                             sources: seq<Source>)
    ensures Composable(hash, inputs, b, sources) <==> ComposableAs(hash, inputs, b, sources)
  {
    SourcesLinkSplits(hash, inputs, b, sources);
    LinkedExactly(inputs, b, sources);
    BaseExactly(hash, b);
    if ValidBase(hash, b) {
      ReplayExactly(hash, b, sources);
    }
  }

  lemma {:induction false} ReplayExactly(hash: ByteString -> Digest, b: Projection, sources: seq<Source>)
    requires ValidBase(hash, b)
    ensures (&& (forall k :: 0 <= k < |sources| ==> LeavesClaimed(hash, b, sources, k))
             && FinalTree(b, sources).Some?
             && Aggregable(BaseTree(b).files, FinalTree(b, sources).value.files)
             && !Collides(hash, BaseTree(b).files, FinalTree(b, sources).value.files)) <==>
      exists trees: seq<Tree> ::
        LeadsThrough(hash, b, sources, trees) && AggregatesWithin(hash, trees[0].files, trees[|sources|].files)
  {
    if FinalTree(b, sources).Some? {
      AggregatesExactly(hash, BaseTree(b).files, FinalTree(b, sources).value.files);
    }
    if forall k :: 0 <= k < |sources| ==> LeavesClaimed(hash, b, sources, k) {
      var trees := ClaimsMeanLeads(hash, b, sources);
      LeadsMeansClaims(hash, b, sources, trees);
    }
    if trees: seq<Tree> :|
      LeadsThrough(hash, b, sources, trees) && AggregatesWithin(hash, trees[0].files, trees[|sources|].files)
    {
      LeadsMeansClaims(hash, b, sources, trees);
    }
  }

  // ---------- the plan ----------

  /** Every file of the one tree is in the other with its digest, length and mode, and the other has no more. */
  ghost predicate SameContents(t: Tree, u: Tree) {
    forall p ::
      && (p in t.files <==> p in u.files)
      && (p in t.files ==>
           && t.files[p].digest == u.files[p].digest && t.files[p].byteLength == u.files[p].byteLength
           && t.files[p].mode == u.files[p].mode)
  }

  /**
   * The canonical operations and materials between the two trees, which replay from the one onto the contents of the
   * other, and the directories of the base and above the files that are new.
   */
  ghost predicate PlanAs(base: Tree, final: Tree, plan: Plan) {
    && DiffListed(base.files, final.files, plan.operations)
    && MaterialsListed(final.files, plan.operations, plan.materials)
    && LimitsKept(plan.operations, plan.materials)
    && ReplaysOnto(base, final, plan) && NetDirectoriesListed(base, final, plan.finalDirectories)
  }

  ghost predicate ReplaysOnto(base: Tree, final: Tree, plan: Plan) {
    exists t :: RunAll(AggregateSteps(plan.operations, plan.materials), base) == Some(t) && SameContents(t, final)
  }

  ghost predicate NetDirectoriesListed(base: Tree, final: Tree, directories: seq<Path>) {
    && (forall i, j :: 0 <= i < j < |directories| ==> ComesBefore(directories[i], directories[j]))
    && (forall d :: d in directories <==>
         d in base.directories || exists p :: p in final.files && p !in base.files && d + [47] <= p)
  }

  lemma {:induction false} ContentsExactly(t: Tree, u: Tree)
    ensures (forall p :: SameEndpoint(p, t.files, u.files)) <==> SameContents(t, u)
  {
    forall p
      ensures SameEndpoint(p, t.files, u.files) <==>
        && (p in t.files <==> p in u.files)
        && (p in t.files ==>
             && t.files[p].digest == u.files[p].digest && t.files[p].byteLength == u.files[p].byteLength
             && t.files[p].mode == u.files[p].mode)
    {
    }
  }

  lemma {:induction false} DirectoriesExactly(base: Tree, final: Tree, directories: seq<Path>)
    ensures StrictlySorted(directories) && NetDirectories(base, final, Elements(directories)) <==>
      NetDirectoriesListed(base, final, directories)
  {
    DirectoryOrder(directories);
    forall d
      ensures d in Elements(directories) <==> d in directories
      ensures (exists p :: p in final.files && p !in base.files && IsAncestor(d, p)) <==>
        exists p :: p in final.files && p !in base.files && d + [47] <= p
    {
      AboveNewExactly(base, final, d);
    }
  }

  lemma {:induction false} AboveNewExactly(base: Tree, final: Tree, d: Path)
    ensures (exists p :: p in final.files && p !in base.files && IsAncestor(d, p)) <==>
      exists p :: p in final.files && p !in base.files && d + [47] <= p
  {
    forall p | p in final.files ensures IsAncestor(d, p) <==> d + [47] <= p {
      AncestorExactly(d, p);
    }
  }

  lemma {:induction false} ReplaysExactly(base: Tree, final: Tree, plan: Plan)
    ensures (var t := RunAll(AggregateSteps(plan.operations, plan.materials), base);
             t.Some? && forall p :: SameEndpoint(p, t.value.files, final.files)) <==>
      ReplaysOnto(base, final, plan)
  {
    var t := RunAll(AggregateSteps(plan.operations, plan.materials), base);
    if t.Some? {
      ContentsExactly(t.value, final);
    }
  }

  /** What a derived plan says, between the base and the tree after every source. */
  lemma {:induction false} PlanExactly(base: Tree, final: Tree, plan: Plan)
    ensures PlanOf(base, final, plan) && WithinBounds(plan.operations, plan.materials) <==> PlanAs(base, final, plan)
  {
    AggregateExactly(base.files, final.files, plan.operations, plan.materials);
    LimitsExactly(plan.operations, plan.materials);
    DirectoriesExactly(base, final, plan.finalDirectories);
    ReplaysExactly(base, final, plan);
  }
}
