/**
 * Distinct-blob byte accounting: one entry for each digest, agreeing lengths, and a checked 64-bit total
 * (application_composition.rs).
 */
module BlobAccounting {
  import opened Outcomes
  import opened Bytes

  const MAX_FILE_BYTES := 16 * 1048576
  const U64_LIMIT := 0x1_0000_0000_0000_0000

  datatype Blob = Blob(digest: ByteString, byteLength: nat)

  datatype BlobConflict =
    | TooLong(digest: ByteString, observed: nat)
    | LengthConflict(digest: ByteString, first: nat, second: nat)
    | Overflow

  /** The digest-to-length map of the first `n` blobs; None when one is too long or contradicts an earlier one. */
  function BlobMap(blobs: seq<Blob>, n: nat): Option<map<ByteString, nat>>
    requires n <= |blobs|
  {
    if n == 0 then Some(map[])
    else match BlobMap(blobs, n - 1)
      case None => None
      case Some(m) =>
        var b := blobs[n - 1];
        if b.byteLength > MAX_FILE_BYTES || (b.digest in m && m[b.digest] != b.byteLength) then None
        else Some(m[b.digest := b.byteLength])
  }

  /** The sum of the lengths recorded for the digests in `s`. */
  ghost function SumOf(s: set<ByteString>, m: map<ByteString, nat>): nat
    requires s <= m.Keys
  {
    if s == {} then 0
    else
      var d :| d in s;
      m[d] + SumOf(s - {d}, m)
  }

  ghost function Total(m: map<ByteString, nat>): nat {
    SumOf(m.Keys, m)
  }

  /** The blobs have one admissible length per digest, and the distinct ones total at most `limit` bytes. */
  ghost predicate Accounted(blobs: seq<Blob>, limit: nat) {
    BlobMap(blobs, |blobs|).Some? && Total(BlobMap(blobs, |blobs|).value) <= limit
  }

  lemma {:induction false} SumRemove(s: set<ByteString>, m: map<ByteString, nat>, d: ByteString)
    requires s <= m.Keys && d in s
    ensures SumOf(s, m) == m[d] + SumOf(s - {d}, m)
  {
    var e :| e in s && SumOf(s, m) == m[e] + SumOf(s - {e}, m);
    if e != d {
      SumRemove(s - {e}, m, d);
      SumRemove(s - {d}, m, e);
      assert s - {e} - {d} == s - {d} - {e};
    }
  }

  lemma {:induction false} BlobMapFailed(blobs: seq<Blob>, n: nat)
    requires n <= |blobs| && BlobMap(blobs, n).None?
    ensures BlobMap(blobs, |blobs|).None?
    decreases |blobs| - n
  {
    if n < |blobs| {
      BlobMapFailed(blobs, n + 1);
    }
  }

  /** The map records every given blob... */
  lemma {:induction false} BlobMapRecords(blobs: seq<Blob>, n: nat)
    requires n <= |blobs| && BlobMap(blobs, n).Some?
    ensures var m := BlobMap(blobs, n).value;
      |m| <= n && forall i :: 0 <= i < n ==> blobs[i].digest in m && m[blobs[i].digest] == blobs[i].byteLength
  {
    if n > 0 {
      BlobMapRecords(blobs, n - 1);
      var before, m := BlobMap(blobs, n - 1).value, BlobMap(blobs, n).value;
      assert m.Keys == before.Keys + {blobs[n - 1].digest};
    }
  }

  /** ...and nothing else. */
  lemma {:induction false} BlobMapOnly(blobs: seq<Blob>, n: nat, d: ByteString) returns (i: nat)
    requires n <= |blobs| && BlobMap(blobs, n).Some? && d in BlobMap(blobs, n).value
    ensures i < n && blobs[i] == Blob(d, BlobMap(blobs, n).value[d]) && blobs[i].byteLength <= MAX_FILE_BYTES
  {
    if d == blobs[n - 1].digest {
      i := n - 1;
    } else {
      i := BlobMapOnly(blobs, n - 1, d);
    }
  }

  /** The map builds exactly when no blob is too long and equal digests have equal lengths. */
  lemma {:induction false} BlobMapBuilds(blobs: seq<Blob>)
    ensures BlobMap(blobs, |blobs|).Some? <==>
      (forall i :: 0 <= i < |blobs| ==> blobs[i].byteLength <= MAX_FILE_BYTES)
      && (forall i, j :: 0 <= i < |blobs| && 0 <= j < |blobs| && blobs[i].digest == blobs[j].digest ==>
            blobs[i].byteLength == blobs[j].byteLength)
  {
    if BlobMap(blobs, |blobs|).Some? {
      BlobMapRecords(blobs, |blobs|);
      var m := BlobMap(blobs, |blobs|).value;
      forall i | 0 <= i < |blobs| ensures m[blobs[i].digest] == blobs[i].byteLength <= MAX_FILE_BYTES {
        var j := BlobMapOnly(blobs, |blobs|, blobs[i].digest);
      }
    } else {
      var n := FirstFailure(blobs, |blobs|);
      BlobMapRecords(blobs, n);
      var m := BlobMap(blobs, n).value;
      if blobs[n].byteLength <= MAX_FILE_BYTES {
        var i := BlobMapOnly(blobs, n, blobs[n].digest);
      }
    }
  }

  lemma {:induction false} FirstFailure(blobs: seq<Blob>, n: nat) returns (k: nat)
    requires n <= |blobs| && BlobMap(blobs, n).None?
    ensures k < n && BlobMap(blobs, k).Some? && BlobMap(blobs, k + 1).None?
  {
    if BlobMap(blobs, n - 1).Some? {
      k := n - 1;
    } else {
      k := FirstFailure(blobs, n - 1);
    }
  }

  /** The lengths of the blobs' digests, and of no other. */
  ghost predicate LengthsOf(blobs: seq<Blob>, lengths: map<ByteString, nat>) {
    && (forall i :: 0 <= i < |blobs| ==> blobs[i].digest in lengths && lengths[blobs[i].digest] == blobs[i].byteLength)
    && (forall d :: d in lengths ==> exists i :: 0 <= i < |blobs| && blobs[i].digest == d)
  }

  lemma {:induction false} BlobMapIsLengths(blobs: seq<Blob>, lengths: map<ByteString, nat>)
    requires BlobMap(blobs, |blobs|).Some?
    ensures LengthsOf(blobs, lengths) <==> lengths == BlobMap(blobs, |blobs|).value
  {
    var recorded := BlobMap(blobs, |blobs|).value;
    BlobMapRecords(blobs, |blobs|);
    forall d | d in recorded ensures exists i :: 0 <= i < |blobs| && blobs[i].digest == d {
      var i := BlobMapOnly(blobs, |blobs|, d);
    }
    if LengthsOf(blobs, lengths) {
      forall d | d in lengths || d in recorded ensures d in recorded && d in lengths && recorded[d] == lengths[d] {
        var i :| 0 <= i < |blobs| && blobs[i].digest == d;
      }
    }
  }

  /** Blobs are accounted for exactly when each digest has one admissible length and those add up to the limit. */
  lemma {:induction false} AccountedExactly(blobs: seq<Blob>, limit: nat)
    ensures Accounted(blobs, limit) <==>
      && (forall i :: 0 <= i < |blobs| ==> blobs[i].byteLength <= 16777216)
      && exists lengths :: LengthsOf(blobs, lengths) && Total(lengths) <= limit
  {
    BlobMapBuilds(blobs);
    if BlobMap(blobs, |blobs|).Some? {
      BlobMapIsLengths(blobs, BlobMap(blobs, |blobs|).value);
    }
    if lengths :| LengthsOf(blobs, lengths) && Total(lengths) <= limit {
      if BlobMap(blobs, |blobs|).Some? {
        BlobMapIsLengths(blobs, lengths);
      }
    }
  }

  lemma {:induction false} SumBound(s: set<ByteString>, m: map<ByteString, nat>)
    requires s <= m.Keys && forall d :: d in m ==> m[d] <= MAX_FILE_BYTES
    ensures SumOf(s, m) <= |s| * MAX_FILE_BYTES
  {
    if s != {} {
      var d :| d in s && SumOf(s, m) == m[d] + SumOf(s - {d}, m);
      SumBound(s - {d}, m);
    }
  }

  /** So the checked u64 sum of a bounded list of blobs never overflows. */
  lemma {:induction false} AccountedTotalFits(blobs: seq<Blob>)
    ensures BlobMap(blobs, |blobs|).Some? ==> Total(BlobMap(blobs, |blobs|).value) <= |blobs| * MAX_FILE_BYTES
  {
    if BlobMap(blobs, |blobs|).Some? {
      BlobMapRecords(blobs, |blobs|);
      var m := BlobMap(blobs, |blobs|).value;
      forall d | d in m ensures m[d] <= MAX_FILE_BYTES {
        var i := BlobMapOnly(blobs, |blobs|, d);
      }
      SumBound(m.Keys, m);
    }
  }

  /** `insert_blob_length`. */
  method InsertBlobLength(blobs: map<ByteString, nat>, digest: ByteString, byteLength: nat)
    returns (r: Result<map<ByteString, nat>, BlobConflict>)
    ensures r.Ok? <==> byteLength <= MAX_FILE_BYTES && (digest in blobs ==> blobs[digest] == byteLength)
    ensures r.Ok? ==> r.value == blobs[digest := byteLength]
    ensures r.Err? ==> r.error == if byteLength > MAX_FILE_BYTES then TooLong(digest, byteLength)
      else LengthConflict(digest, blobs[digest], byteLength)
  {
    if byteLength > MAX_FILE_BYTES {
      return Err(TooLong(digest, byteLength));
    }
    if digest in blobs && blobs[digest] != byteLength {
      return Err(LengthConflict(digest, blobs[digest], byteLength));
    }
    return Ok(blobs[digest := byteLength]);
  }

  ghost function KeysFrom(keys: seq<ByteString>, i: nat): set<ByteString>
    requires i <= |keys|
  {
    set k | k in keys[i..]
  }

  lemma {:induction false} KeysFromNext(keys: seq<ByteString>, i: nat)
    requires i < |keys| && StrictlySorted(keys)
    ensures keys[i] in KeysFrom(keys, i) && KeysFrom(keys, i) - {keys[i]} == KeysFrom(keys, i + 1)
  {
    assert keys[i..] == [keys[i]] + keys[i + 1..];
    LtIrreflexive(keys[i]);
    assert keys[i] !in keys[i + 1..];
  }

  /** `checked_blob_total`: a u64 sum over the map's values in key order. */
  method CheckedBlobTotal(blobs: map<ByteString, nat>) returns (r: Result<nat, BlobConflict>)
    ensures r.Ok? <==> Total(blobs) < U64_LIMIT
    ensures r.Ok? ==> r.value == Total(blobs)
    ensures r.Err? ==> r.error == Overflow
  {
    var keys := SortedKeys(blobs.Keys);
    var total: nat := 0;
    assert KeysFrom(keys, 0) == blobs.Keys;
    for i := 0 to |keys|
      invariant KeysFrom(keys, i) <= blobs.Keys
      invariant total + SumOf(KeysFrom(keys, i), blobs) == Total(blobs)
      invariant total < U64_LIMIT
    {
      KeysFromNext(keys, i);
      SumRemove(KeysFrom(keys, i), blobs, keys[i]);
      if total + blobs[keys[i]] >= U64_LIMIT {
        return Err(Overflow);
      }
      total := total + blobs[keys[i]];
    }
    return Ok(total);
  }

  /** A whole list of blobs: `insert_blob_length` for each, then the checked total. */
  method DistinctBlobBytes(blobs: seq<Blob>) returns (r: Result<nat, BlobConflict>)
    ensures r.Ok? <==> BlobMap(blobs, |blobs|).Some? && Total(BlobMap(blobs, |blobs|).value) < U64_LIMIT
    ensures r.Ok? ==> r.value == Total(BlobMap(blobs, |blobs|).value)
  {
    var recorded: map<ByteString, nat> := map[];
    for i := 0 to |blobs|
      invariant BlobMap(blobs, i) == Some(recorded)
    {
      var inserted := InsertBlobLength(recorded, blobs[i].digest, blobs[i].byteLength);
      if inserted.Err? {
        BlobMapFailed(blobs, i + 1);
        return Err(inserted.error);
      }
      recorded := inserted.value;
    }
    r := CheckedBlobTotal(recorded);
  }

  // ---------- comparing totals ----------

  lemma {:induction false} SumSplit(a: set<ByteString>, c: set<ByteString>, m: map<ByteString, nat>)
    requires a <= m.Keys && c <= m.Keys && a !! c
    ensures SumOf(a + c, m) == SumOf(a, m) + SumOf(c, m)
  {
    if a == {} {
      assert a + c == c;
    } else {
      var d :| d in a;
      SumRemove(a, m, d);
      SumRemove(a + c, m, d);
      assert a + c - {d} == (a - {d}) + c;
      SumSplit(a - {d}, c, m);
    }
  }

  /** Digests recorded with the same lengths elsewhere weigh at most as much as everything recorded there. */
  lemma {:induction false} SumWithin(a: set<ByteString>, m: map<ByteString, nat>, c: set<ByteString>,
                                     n: map<ByteString, nat>)
    requires a <= m.Keys && c <= n.Keys && a <= c && forall d :: d in a ==> m[d] == n[d]
    ensures SumOf(a, m) <= SumOf(c, n)
  {
    if a != {} {
      var d :| d in a;
      SumRemove(a, m, d);
      SumRemove(c, n, d);
      SumWithin(a - {d}, m, c - {d}, n);
    }
  }

  predicate Records(m: map<ByteString, nat>, d: ByteString, byteLength: nat) {
    d in m && m[d] == byteLength
  }

  ghost function SumOfTotals(maps: seq<map<ByteString, nat>>): nat {
    if maps == [] then 0 else SumOfTotals(maps[..|maps| - 1]) + Total(maps[|maps| - 1])
  }

  /** Digests that are each recorded in some map, with the same length, weigh at most as much as all the maps. */
  lemma {:induction false} CoveredTotal(a: set<ByteString>, m: map<ByteString, nat>, maps: seq<map<ByteString, nat>>)
    requires a <= m.Keys
    requires forall d :: d in a ==> exists k :: 0 <= k < |maps| && Records(maps[k], d, m[d])
    ensures SumOf(a, m) <= SumOfTotals(maps)
  {
    if maps == [] {
      assert forall d :: d !in a;
    } else {
      var last, front := maps[|maps| - 1], maps[..|maps| - 1];
      var here := set d | d in a && Records(last, d, m[d]);
      SumSplit(here, a - here, m);
      assert here + (a - here) == a;
      SumWithin(here, m, last.Keys, last);
      forall d | d in a - here ensures exists k :: 0 <= k < |front| && Records(front[k], d, m[d]) {
        var k :| 0 <= k < |maps| && Records(maps[k], d, m[d]);
        assert front[k] == maps[k];
      }
      CoveredTotal(a - here, m, front);
    }
  }
}
