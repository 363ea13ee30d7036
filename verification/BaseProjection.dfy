/**
 * The base projection, its shape, and the manifest that names a tree's regular files by path, length and mode
 * (application_composition.rs).
 */
module BaseProjection {
  import opened Outcomes
  import opened Bytes
  import opened Finite
  import opened Paths
  import opened Manifest
  import opened Replay
  import opened Sources
  import opened Topology
  import opened Aggregate

  datatype Projection = Projection(snapshot: Digest, files: seq<Entry>, directories: seq<Path>)

  // ---------- manifests of trees ----------

  /** `replay_state_snapshot`'s entries: the files in key order, without origins. */
  function ManifestOf(files: Files): (entries: seq<Entry>)
    ensures PathsOf(entries) == SortedKeys(files.Keys)
    ensures forall e :: e in entries ==> e.path in files && e == EntryAt(files, e.path)
  {
    var keys := SortedKeys(files.Keys);
    seq(|keys|, i requires 0 <= i < |keys| => assert keys[i] in keys; EntryAt(files, keys[i]))
  }

  function EntryAt(files: Files, p: Path): Entry
    requires p in files
  {
    Entry(p, files[p].digest, files[p].byteLength, files[p].mode)
  }

  lemma {:induction false} SameEndpointsSameManifest(a: Files, b: Files)
    requires forall p :: SameEndpoint(p, a, b)
    ensures ManifestOf(a) == ManifestOf(b)
  {
    forall p ensures p in a.Keys <==> p in b.Keys {
      assert SameEndpoint(p, a, b);
    }
    assert a.Keys == b.Keys;
    var left, right := ManifestOf(a), ManifestOf(b);
    assert |left| == |PathsOf(left)| == |PathsOf(right)| == |right|;
    forall i | 0 <= i < |left| ensures left[i] == right[i] {
      assert PathsOf(left)[i] == PathsOf(right)[i];
      assert left[i] in left && right[i] in right;
      assert SameEndpoint(left[i].path, a, b);
    }
  }

  /** Two trees have the same manifest exactly when every path has the same endpoint. */
  lemma {:induction false} SameManifestIffSameEndpoints(a: Files, b: Files)
    ensures ManifestOf(a) == ManifestOf(b) <==> forall p :: SameEndpoint(p, a, b)
  {
    if ManifestOf(a) == ManifestOf(b) {
      forall p ensures SameEndpoint(p, a, b) {
      }
    } else if forall p :: SameEndpoint(p, a, b) {
      SameEndpointsSameManifest(a, b);
    }
  }

  /** A reachable tree's manifest is rejected for its size only. */
  lemma {:induction false} TopologicalManifest(t: Tree)
    requires Topological(t)
    ensures ValidManifest(ManifestOf(t.files)) <==> |t.files| <= MAX_MANIFEST_ENTRIES
    ensures AllEncodable(ManifestOf(t.files)) || |t.files| > MAX_MANIFEST_ENTRIES
  {
    var entries := ManifestOf(t.files);
    assert |entries| == |PathsOf(entries)| == |t.files.Keys|;
    forall e | e in entries ensures EntryError(e).None? {
      ManifestPathValidIffPortable(e.path);
      assert FileOk(e.path, t.files[e.path]);
    }
    forall a, b | a in entries && b in entries ensures !IsAncestor(a.path, b.path) {
      assert a.path in t.files && b.path in t.files;
    }
    if |t.files| <= MAX_MANIFEST_ENTRIES {
      ValidManifestEncodable(entries);
    }
  }

  /** `replay_state_snapshot`. */
  method ReplayStateSnapshot(hash: ByteString -> Digest, files: Files) returns (r: Result<Digest, CompositionConflict>)
    ensures r.Ok? <==> ValidManifest(ManifestOf(files))
    ensures r.Ok? ==> AllEncodable(ManifestOf(files)) && r.value == hash(Encode(ManifestOf(files)))
    ensures r.Err? ==> r.error.ManifestRejected?
    ensures r.Err? ==> (r.error.error.TooManyEntries? <==> |files| > MAX_MANIFEST_ENTRIES)
  {
    var entries := ManifestOf(files);
    assert |entries| == |PathsOf(entries)| == |files.Keys|;
    var digest := ManifestDigest(hash, entries);
    if digest.Err? {
      return Err(ManifestRejected(digest.error));
    }
    return Ok(digest.value);
  }

  // ---------- the base tree ----------

  /** Collecting the listed files into an ordered map. */
  function BaseFiles(files: seq<Entry>): Files {
    if files == [] then map[]
    else
      var e := files[|files| - 1];
      BaseFiles(files[..|files| - 1])[e.path := Endpoint(e.digest, e.byteLength, e.mode, None)]
  }

  function BaseTree(b: Projection): Tree {
    Tree(BaseFiles(b.files), set d | d in b.directories)
  }

  lemma {:induction false} BaseFilesAre(files: seq<Entry>)
    requires StrictlySorted(PathsOf(files))
    ensures forall p :: p in BaseFiles(files) <==> p in PathsOf(files)
    ensures forall e :: e in files ==> e.path in BaseFiles(files) && EntryAt(BaseFiles(files), e.path) == e
    ensures forall p :: p in BaseFiles(files) ==> BaseFiles(files)[p].origin.None?
  {
    if files != [] {
      var front, last := files[..|files| - 1], files[|files| - 1];
      BaseFilesSplit(files);
      BaseFilesAre(front);
      forall e | e in files ensures e.path in BaseFiles(files) && EntryAt(BaseFiles(files), e.path) == e {
        assert e in front || e == last;
      }
    }
  }

  lemma {:induction false} BaseFilesSplit(files: seq<Entry>)
    requires StrictlySorted(PathsOf(files)) && files != []
    ensures var front, last := files[..|files| - 1], files[|files| - 1];
      && StrictlySorted(PathsOf(front)) && PathsOf(files) == PathsOf(front) + [last.path]
      && forall e :: e in front ==> e.path != last.path
  {
    var front, last := files[..|files| - 1], files[|files| - 1];
    assert PathsOf(files) == PathsOf(front) + [last.path];
    forall i, j | 0 <= i < j < |front| ensures Lt(PathsOf(front)[i], PathsOf(front)[j]) {
      assert Lt(PathsOf(files)[i], PathsOf(files)[j]);
    }
    forall e | e in front ensures e.path != last.path {
      var i :| 0 <= i < |front| && front[i] == e;
      assert Lt(PathsOf(files)[i], PathsOf(files)[|files| - 1]);
      LtIrreflexive(last.path);
    }
  }

  /** The base tree's own manifest is the list it was collected from. */
  lemma {:induction false} BaseManifest(files: seq<Entry>)
    requires StrictlySorted(PathsOf(files))
    ensures ManifestOf(BaseFiles(files)) == files
  {
    BaseFilesAre(files);
    var entries := ManifestOf(BaseFiles(files));
    SortedUnique(PathsOf(entries), PathsOf(files));
    assert |PathsOf(entries)| == |PathsOf(files)|;
    forall i | 0 <= i < |files| ensures entries[i] == files[i] {
      assert PathsOf(entries)[i] == PathsOf(files)[i];
      assert entries[i] in entries && files[i] in files;
    }
  }

  // ---------- validation ----------

  predicate FileMetadataOk(e: Entry) {
    Portable(e.path) && e.byteLength <= MAX_DURABLE_LENGTH && e.mode <= MAX_UNIX_MODE
  }

  /** No ancestor of `p` is a file, and every one is a directory. */
  ghost predicate AncestorsProjected(p: Path, files: set<Path>, directories: set<Path>) {
    forall a :: IsAncestor(a, p) ==> a !in files && a in directories
  }

  ghost predicate ValidShape(files: seq<Entry>, directories: seq<Path>) {
    && |files| + |directories| <= MAX_MANIFEST_ENTRIES
    && (forall e :: e in files ==> FileMetadataOk(e)) && StrictlySorted(PathsOf(files))
    && (forall d :: d in directories ==> Portable(d)) && StrictlySorted(directories)
    && (forall d :: d in directories ==> d !in PathsOf(files))
    && (forall d :: d in directories ==> AncestorsProjected(d, Elements(PathsOf(files)), Elements(directories)))
    && (forall p :: p in PathsOf(files) ==> AncestorsProjected(p, Elements(PathsOf(files)), Elements(directories)))
  }

  ghost predicate ValidBase(hash: ByteString -> Digest, b: Projection) {
    ValidShape(b.files, b.directories) && SnapshotIs(hash, BaseFiles(b.files), b.snapshot)
  }

  /** `snapshot` is the digest of the manifest of `files`, and that manifest is within its size. */
  ghost predicate SnapshotIs(hash: ByteString -> Digest, files: Files, snapshot: Digest) {
    |files| <= MAX_MANIFEST_ENTRIES && AllEncodable(ManifestOf(files)) && hash(Encode(ManifestOf(files))) == snapshot
  }

  /** A valid base projection is a topological tree whose files have no origin. */
  lemma {:induction false} BaseTopological(b: Projection)
    requires ValidShape(b.files, b.directories)
    ensures Topological(BaseTree(b))
    ensures forall p :: p in BaseTree(b).files ==> BaseTree(b).files[p].origin.None?
    ensures |BaseTree(b).files| <= MAX_MANIFEST_ENTRIES
  {
    BaseFilesAre(b.files);
    BaseManifest(b.files);
    var t := BaseTree(b);
    assert |t.files.Keys| == |PathsOf(b.files)|;
    forall p | p in t.files ensures FileOk(p, t.files[p]) && p !in t.directories {
      var i :| 0 <= i < |b.files| && PathsOf(b.files)[i] == p;
      assert b.files[i] in b.files && FileMetadataOk(b.files[i]);
      assert EntryAt(t.files, p) == b.files[i];
    }
    forall p, a | p in t.files && IsAncestor(a, p) ensures a in t.directories {
      assert AncestorsProjected(p, Elements(PathsOf(b.files)), Elements(b.directories));
    }
    forall d, a | d in t.directories && IsAncestor(a, d) ensures a in t.directories {
      assert AncestorsProjected(d, Elements(PathsOf(b.files)), Elements(b.directories));
    }
    SetSize(b.directories);
  }

  lemma {:induction false} SetSize(paths: seq<Path>)
    ensures |Elements(paths)| <= |paths|
  {
    if paths != [] {
      SetSize(paths[1..]);
      assert paths == [paths[0]] + paths[1..];
      assert Elements(paths) == {paths[0]} + Elements(paths[1..]);
    }
  }

  method ValidateCanonicalBaseFiles(files: seq<Entry>) returns (r: Result<(), CompositionConflict>)
    ensures r.Ok? <==> (forall e :: e in files ==> FileMetadataOk(e)) && StrictlySorted(PathsOf(files))
    ensures r.Err? ==> IsInputConflict(r.error)
  {
    var previous: Option<Path> := None;
    for i := 0 to |files|
      invariant forall e :: e in files[..i] ==> FileMetadataOk(e)
      invariant StrictlySorted(PathsOf(files)[..i])
      invariant previous == if i == 0 then None else Some(files[i - 1].path)
    {
      assert files[i] in files;
      var conflict := PathConflictOf(files[i].path);
      if conflict.Some? {
        return Err(NonPortablePath(None, files[i].path, conflict.value));
      }
      if files[i].byteLength > MAX_DURABLE_LENGTH || files[i].mode > MAX_UNIX_MODE {
        return Err(BaseFileMetadata);
      }
      if previous.Some? && !Lt(previous.value, files[i].path) {
        assert !Lt(PathsOf(files)[i - 1], PathsOf(files)[i]);
        return Err(NonCanonicalPathOrder);
      }
      OrderExtends(PathsOf(files), i);
      previous := Some(files[i].path);
    }
    assert files[..|files|] == files && PathsOf(files)[..|files|] == PathsOf(files);
    return Ok(());
  }

  /** Used for the base directories and for the final directory list. */
  method ValidateCanonicalPaths(paths: seq<Path>) returns (r: Result<(), CompositionConflict>)
    ensures r.Ok? <==> (forall p :: p in paths ==> Portable(p)) && StrictlySorted(paths)
    ensures r.Err? ==> IsInputConflict(r.error)
  {
    var previous: Option<Path> := None;
    for i := 0 to |paths|
      invariant forall p :: p in paths[..i] ==> Portable(p)
      invariant StrictlySorted(paths[..i])
      invariant previous == if i == 0 then None else Some(paths[i - 1])
    {
      assert paths[i] in paths;
      var conflict := PathConflictOf(paths[i]);
      if conflict.Some? {
        return Err(NonPortablePath(None, paths[i], conflict.value));
      }
      if previous.Some? && !Lt(previous.value, paths[i]) {
        return Err(NonCanonicalPathOrder);
      }
      OrderExtends(paths, i);
      previous := Some(paths[i]);
    }
    assert paths[..|paths|] == paths;
    return Ok(());
  }

  /** The ancestors of one node against both sets, nearest the root first. */
  method ValidateAncestors(p: Path, files: set<Path>, directories: set<Path>)
    returns (r: Result<(), CompositionConflict>)
    ensures r.Ok? <==> AncestorsProjected(p, files, directories)
    ensures r.Err? ==> IsInputConflict(r.error)
  {
    for k := 0 to |p|
      invariant forall a :: IsAncestor(a, p) && |a| < k ==> a !in files && a in directories
    {
      if p[k] == SLASH {
        assert IsAncestor(p[..k], p);
        if p[..k] in files {
          return Err(BaseTopologyConflict(p, p[..k]));
        }
        if p[..k] !in directories {
          return Err(IncompleteDirectoryProjection(p, p[..k]));
        }
      }
    }
    return Ok(());
  }

  method ValidateBaseTopology(files: seq<Path>, directories: seq<Path>) returns (r: Result<(), CompositionConflict>)
    ensures r.Ok? <==>
      && (forall d :: d in directories ==> d !in files)
      && (forall d :: d in directories ==> AncestorsProjected(d, Elements(files), Elements(directories)))
      && (forall p :: p in files ==> AncestorsProjected(p, Elements(files), Elements(directories)))
    ensures r.Err? ==> IsInputConflict(r.error)
  {
    var fileSet, directorySet := Elements(files), Elements(directories);
    for i := 0 to |directories|
      invariant forall d :: d in directories[..i] ==> d !in files && AncestorsProjected(d, fileSet, directorySet)
    {
      assert directories[i] in directories;
      if directories[i] in fileSet {
        return Err(BaseTopologyConflict(directories[i], directories[i]));
      }
      var ancestors := ValidateAncestors(directories[i], fileSet, directorySet);
      if ancestors.Err? {
        return ancestors;
      }
    }
    for i := 0 to |files|
      invariant forall p :: p in files[..i] ==> AncestorsProjected(p, fileSet, directorySet)
    {
      assert files[i] in files;
      var ancestors := ValidateAncestors(files[i], fileSet, directorySet);
      if ancestors.Err? {
        return ancestors;
      }
    }
    assert files[..|files|] == files && directories[..|directories|] == directories;
    return Ok(());
  }

  lemma {:induction false} BaseManifestAccepted(b: Projection)
    requires ValidShape(b.files, b.directories)
    ensures ValidManifest(b.files) && ManifestOf(BaseFiles(b.files)) == b.files
    ensures |BaseFiles(b.files)| <= MAX_MANIFEST_ENTRIES
  {
    BaseTopological(b);
    BaseManifest(b.files);
    TopologicalManifest(BaseTree(b));
  }

  /** The digest of the listed files against the projection's snapshot. */
  method CompareBaseSnapshot(hash: ByteString -> Digest, b: Projection) returns (r: Result<(), CompositionConflict>)
    requires ValidShape(b.files, b.directories)
    ensures r.Ok? <==> ValidBase(hash, b)
    ensures r.Err? ==> IsInputConflict(r.error)
  {
    BaseManifestAccepted(b);
    var computed := ManifestDigest(hash, b.files);
    assert computed.Ok?;
    if computed.value != b.snapshot {
      return Err(BaseSnapshotMismatch);
    }
    return Ok(());
  }

  /** `validate_base_projection_shape`. */
  method ValidateBaseProjection(hash: ByteString -> Digest, b: Projection) returns (r: Result<(), CompositionConflict>)
    ensures r.Ok? <==> ValidBase(hash, b)
    ensures r.Err? ==> IsInputConflict(r.error)
  {
    if |b.files| + |b.directories| > MAX_MANIFEST_ENTRIES {
      return Err(LimitExceeded(NodeCount));
    }
    var files := ValidateCanonicalBaseFiles(b.files);
    if files.Err? {
      return files;
    }
    var directories := ValidateCanonicalPaths(b.directories);
    if directories.Err? {
      return directories;
    }
    var topology := ValidateBaseTopology(PathsOf(b.files), b.directories);
    if topology.Err? {
      return topology;
    }
    r := CompareBaseSnapshot(hash, b);
  }
}
