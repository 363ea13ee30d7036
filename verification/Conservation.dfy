/** Composition adds nothing of its own (application_composition.rs). */
module Conservation {
  import opened Outcomes
  import opened Bytes
  import opened Finite
  import opened Paths
  import opened Replay
  import opened BlobAccounting
  import opened Sources
  import opened Topology
  import opened Aggregate
  import opened BaseProjection
  import opened Composition

  const MAX_REOPENED_BYTES := 64 * 1048576
  const MAX_REOPENED_OPERATIONS := 16384

  // ---------- operations ----------

  function TouchedPaths(steps: seq<Step>, n: nat): (paths: set<Path>)
    requires n <= |steps|
    ensures |paths| <= n
    ensures forall i :: 0 <= i < n ==> steps[i].op.path in paths
  {
    if n == 0 then {} else TouchedPaths(steps, n - 1) + {steps[n - 1].op.path}
  }

  /** Only a path that some source names can differ in the end. */
  lemma {:induction false} DifferingPathTouched(base: Tree, sources: seq<Source>, t: Tree, p: Path)
    requires TreeAfter(sources, |sources|, base) == Some(t) && Differs(base.files, t.files, p)
    ensures p in TouchedPaths(AllSteps(sources, |sources|), |AllSteps(sources, |sources|)|)
  {
    var steps := AllSteps(sources, |sources|);
    LastWriterWins(steps, |steps|, base, p);
    assert LastTouch(steps, |steps|, p).Some?;
  }

  /** The aggregate never has more operations than its sources together. */
  lemma {:induction false} OperationsConserved(base: Tree, sources: seq<Source>, t: Tree, ops: seq<FileOperation>)
    requires TreeAfter(sources, |sources|, base) == Some(t) && CanonicalDiff(base.files, t.files, ops)
    ensures |ops| <= Offset(sources, |sources|)
  {
    var steps := AllSteps(sources, |sources|);
    var touched := TouchedPaths(steps, |steps|);
    AllStepsLength(sources, |sources|);
    forall p | p in Elements(OperationPaths(ops)) ensures p in touched {
      var i :| 0 <= i < |ops| && OperationPaths(ops)[i] == p;
      DifferingPathTouched(base, sources, t, p);
    }
    SortedSize(OperationPaths(ops));
    SubsetSize(Elements(OperationPaths(ops)), touched);
  }

  // ---------- blob bytes ----------

  /** The blob map of one source, empty when it does not build. */
  function SourceBlobMap(s: Source): map<ByteString, nat> {
    var m := BlobMap(SourceBlobs(s), |SourceBlobs(s)|);
    if m.Some? then m.value else map[]
  }

  function SourceBlobMaps(sources: seq<Source>): (maps: seq<map<ByteString, nat>>)
    ensures |maps| == |sources|
    ensures forall k :: 0 <= k < |sources| ==> maps[k] == SourceBlobMap(sources[k])
  {
    seq(|sources|, k requires 0 <= k < |sources| => SourceBlobMap(sources[k]))
  }

  /** The distinct bytes reopened from each of the first `n` sources, added up. */
  ghost function ReopenedTo(sources: seq<Source>, n: nat): nat
    requires n <= |sources|
  {
    if n == 0 then 0 else ReopenedTo(sources, n - 1) + Total(SourceBlobMap(sources[n - 1]))
  }

  ghost function ReopenedBytes(sources: seq<Source>): nat {
    ReopenedTo(sources, |sources|)
  }

  lemma {:induction false} ReopenedSum(sources: seq<Source>, n: nat)
    requires n <= |sources|
    ensures ReopenedTo(sources, n) == SumOfTotals(SourceBlobMaps(sources)[..n])
  {
    if n > 0 {
      ReopenedSum(sources, n - 1);
      assert SourceBlobMaps(sources)[..n][..n - 1] == SourceBlobMaps(sources)[..n - 1];
    }
  }

  /** The running totals only grow, so stopping at the first excess loses nothing. */
  lemma {:induction false} ReopenedMonotone(sources: seq<Source>, n: nat, m: nat)
    requires n <= m <= |sources|
    ensures ReopenedTo(sources, n) <= ReopenedTo(sources, m) && Offset(sources, n) <= Offset(sources, m)
    decreases m
  {
    if n < m {
      ReopenedMonotone(sources, n, m - 1);
    }
  }

  /** Source `k` is valid, in its place, and keeps the running totals within the limits. */
  ghost predicate ReopensAt(sources: seq<Source>, k: nat)
    requires k < |sources|
  {
    && ValidSource(sources[k]) && sources[k].ordinal == k
    && ReopenedTo(sources, k + 1) <= MAX_REOPENED_BYTES && Offset(sources, k + 1) <= MAX_REOPENED_OPERATIONS
  }

  /** All sources are valid and in place, and together within the limits. */
  ghost predicate Reopenable(sources: seq<Source>) {
    && (forall k :: 0 <= k < |sources| ==> sources[k].ordinal == k && ValidSource(sources[k]))
    && ReopenedBytes(sources) <= MAX_REOPENED_BYTES && Offset(sources, |sources|) <= MAX_REOPENED_OPERATIONS
  }

  lemma {:induction false} ReopenableEach(sources: seq<Source>, k: nat)
    requires Reopenable(sources) && k < |sources|
    ensures ReopensAt(sources, k)
  {
    ReopenedMonotone(sources, k + 1, |sources|);
  }

  lemma {:induction false} EachReopenable(sources: seq<Source>)
    requires forall k :: 0 <= k < |sources| ==> ReopensAt(sources, k)
    ensures Reopenable(sources)
  {
    forall k | 0 <= k < |sources| ensures sources[k].ordinal == k && ValidSource(sources[k]) {
      assert ReopensAt(sources, k);
    }
    if sources != [] {
      assert ReopensAt(sources, |sources| - 1);
    }
  }

  /** The blob total of a valid source comes out of its own accounting. */
  method SourceResultBlobBytes(s: Source) returns (bytes: nat)
    requires ValidSource(s)
    ensures bytes == Total(SourceBlobMap(s)) <= MAX_TOTAL_BYTES
  {
    var total := DistinctBlobBytes(SourceBlobs(s));
    return total.value;
  }

  /** The readback of one source: its own totals on top of those before it. The checked addition never overflows. */
  method ReopenSource(sources: seq<Source>, k: nat, bytes: nat, operations: nat)
    returns (r: Result<(nat, nat), CompositionConflict>)
    requires k < |sources| && bytes == ReopenedTo(sources, k) <= MAX_REOPENED_BYTES && operations == Offset(sources, k)
    ensures r.Ok? <==> ReopensAt(sources, k)
    ensures r.Ok? ==> r.value == (ReopenedTo(sources, k + 1), Offset(sources, k + 1))
    ensures r.Err? ==> IsInputConflict(r.error)
  {
    var valid := ValidateSource(sources[k]);
    if valid.Err? {
      return Err(valid.error);
    }
    var own := SourceResultBlobBytes(sources[k]);
    assert bytes + own < U64_LIMIT;
    if bytes + own > MAX_REOPENED_BYTES {
      return Err(LimitExceeded(BlobBytes));
    }
    if operations + |sources[k].operations| > MAX_REOPENED_OPERATIONS {
      return Err(LimitExceeded(OperationCount));
    }
    if sources[k].ordinal != k {
      return Err(SourceOrdinalMismatch);
    }
    return Ok((bytes + own, operations + |sources[k].operations|));
  }

  /** The cumulative readback loop, up to the comparison with the published claim. */
  method ReopenSources(sources: seq<Source>) returns (r: Result<(nat, nat), CompositionConflict>)
    ensures r.Ok? <==> Reopenable(sources)
    ensures r.Ok? ==> r.value == (ReopenedBytes(sources), Offset(sources, |sources|))
    ensures r.Err? ==> IsInputConflict(r.error)
  {
    var bytes, operations := 0, 0;
    for k := 0 to |sources|
      invariant forall j :: 0 <= j < k ==> ReopensAt(sources, j)
      invariant bytes == ReopenedTo(sources, k) <= MAX_REOPENED_BYTES && operations == Offset(sources, k)
    {
      var reopened := ReopenSource(sources, k, bytes, operations);
      if reopened.Err? {
        if Reopenable(sources) { ReopenableEach(sources, k); }
        return Err(reopened.error);
      }
      bytes, operations := reopened.value.0, reopened.value.1;
    }
    EachReopenable(sources);
    return Ok((bytes, operations));
  }

  /** Every material of the aggregate names a source that holds its blob under that artifact. */
  lemma {:induction false} MaterialHeld(b: Projection, sources: seq<Source>, t: Tree, ops: seq<FileOperation>,
                                        materials: seq<AggregateMaterial>, j: nat)
    returns (k: nat, m: SourceMaterial)
    requires ValidShape(b.files, b.directories) && Ready(sources, |sources|)
    requires forall i :: 0 <= i < |sources| ==> sources[i].ordinal == i
    requires TreeAfter(sources, |sources|, BaseTree(b)) == Some(t)
    requires MaterialsDescribe(t.files, ops, materials) && j < |materials|
    ensures k < |sources| && m in sources[k].materials && materials[j].ordinal == k
    ensures materials[j].artifact == sources[k].artifact == m.artifact && materials[j].path == m.path
    ensures materials[j].resultDigest == m.resultDigest && materials[j].byteLength == m.byteLength
    ensures Avoids(sources, k + 1, |sources|, m.path)
  {
    BaseTopological(b);
    var i := MaterialIndexSurjective(ops, |ops|, j);
    assert MaterialDescribes(t.files, ops, i, materials[j]);
    Provenance(sources, |sources|, BaseTree(b), ops[i].path);
    k, m :| HeldBy(sources, |sources|, ops[i].path, t.files[ops[i].path], k, m);
  }

  /** Whenever the aggregate's blob map builds, its distinct bytes are at most those of the sources. */
  lemma {:induction false} BytesConserved(b: Projection, sources: seq<Source>, t: Tree, ops: seq<FileOperation>,
                                          materials: seq<AggregateMaterial>)
    requires ValidShape(b.files, b.directories)
    requires forall i :: 0 <= i < |sources| ==> sources[i].ordinal == i && ValidSource(sources[i])
    requires TreeAfter(sources, |sources|, BaseTree(b)) == Some(t)
    requires MaterialsDescribe(t.files, ops, materials)
    requires BlobMap(AggregateBlobs(materials), |materials|).Some?
    ensures Total(BlobMap(AggregateBlobs(materials), |materials|).value) <= ReopenedBytes(sources)
  {
    var total := BlobMap(AggregateBlobs(materials), |materials|).value;
    var maps := SourceBlobMaps(sources);
    forall d | d in total ensures exists k :: 0 <= k < |maps| && Records(maps[k], d, total[d]) {
      var j := BlobMapOnly(AggregateBlobs(materials), |materials|, d);
      var k, m := MaterialHeld(b, sources, t, ops, materials, j);
      HeldBlobRecorded(sources[k], m);
      assert Records(maps[k], d, total[d]);
    }
    CoveredTotal(total.Keys, total, maps);
    ReopenedSum(sources, |sources|);
    assert maps[..|sources|] == maps;
  }

  lemma {:induction false} HeldBlobRecorded(s: Source, m: SourceMaterial)
    requires ValidSource(s) && m in s.materials
    ensures Records(SourceBlobMap(s), m.resultDigest, m.byteLength)
  {
    var i :| 0 <= i < |s.materials| && s.materials[i] == m;
    BlobMapRecords(SourceBlobs(s), |SourceBlobs(s)|);
    assert SourceBlobs(s)[i] == Blob(m.resultDigest, m.byteLength);
  }

  /** Equal digests come with equal lengths. */
  ghost predicate LengthsAgree(materials: seq<AggregateMaterial>) {
    forall i, j ::
      0 <= i < |materials| && 0 <= j < |materials| && materials[i].resultDigest == materials[j].resultDigest ==>
      materials[i].byteLength == materials[j].byteLength
  }

  /**
   * Sources within the cumulative readback limit can never make the aggregate byte limit fire: its bounds fail
   * only for too many operations, or because two sources give one digest two lengths.
   */
  lemma {:induction false} ReadbackLimitSuffices(b: Projection, sources: seq<Source>, t: Tree, ops: seq<FileOperation>,
                                                 materials: seq<AggregateMaterial>)
    requires ValidShape(b.files, b.directories)
    requires Reopenable(sources)
    requires TreeAfter(sources, |sources|, BaseTree(b)) == Some(t) && MaterialsDescribe(t.files, ops, materials)
    ensures WithinBounds(ops, materials) <==> |ops| <= MAX_OPERATIONS && LengthsAgree(materials)
  {
    forall j | 0 <= j < |materials| ensures materials[j].byteLength <= MAX_FILE_BYTES {
      MaterialBounded(b, sources, t, ops, materials, j);
    }
    BlobMapBuildsIffAgree(materials);
    if LengthsAgree(materials) {
      BytesConserved(b, sources, t, ops, materials);
    }
  }

  lemma {:induction false} BlobMapBuildsIffAgree(materials: seq<AggregateMaterial>)
    requires forall j :: 0 <= j < |materials| ==> materials[j].byteLength <= MAX_FILE_BYTES
    ensures BlobMap(AggregateBlobs(materials), |materials|).Some? <==> LengthsAgree(materials)
  {
    var blobs := AggregateBlobs(materials);
    BlobMapBuilds(blobs);
    if LengthsAgree(materials) {
      forall i, j | 0 <= i < |blobs| && 0 <= j < |blobs| && blobs[i].digest == blobs[j].digest
        ensures blobs[i].byteLength == blobs[j].byteLength
      {
        assert materials[i].resultDigest == materials[j].resultDigest;
      }
    } else {
      var i, j :| 0 <= i < |materials| && 0 <= j < |materials| && materials[i].resultDigest == materials[j].resultDigest
        && materials[i].byteLength != materials[j].byteLength;
      assert blobs[i].digest == blobs[j].digest;
    }
  }

  lemma {:induction false} MaterialBounded(b: Projection, sources: seq<Source>, t: Tree, ops: seq<FileOperation>,
                                           materials: seq<AggregateMaterial>, j: nat)
    requires ValidShape(b.files, b.directories)
    requires forall i :: 0 <= i < |sources| ==> sources[i].ordinal == i && ValidSource(sources[i])
    requires TreeAfter(sources, |sources|, BaseTree(b)) == Some(t)
    requires MaterialsDescribe(t.files, ops, materials) && j < |materials|
    ensures materials[j].byteLength <= MAX_FILE_BYTES
  {
    var k, m := MaterialHeld(b, sources, t, ops, materials, j);
    var i :| 0 <= i < |sources[k].materials| && sources[k].materials[i] == m;
    var o := MaterialIndexSurjective(sources[k].operations, |sources[k].operations|, i);
    assert MaterialFits(sources[k], o, m);
  }
}
