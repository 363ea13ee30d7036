/** The workspace manifest: its one-pass validation and its digest preimage (live_state.rs). */
module Manifest {
  import opened Outcomes
  import opened Bytes
  import opened Paths

  const DIGEST_TEXT_BYTES := 64

  /** The fixed-width text of a SHA-256 value. */
  type Digest = text: ByteString | |text| == DIGEST_TEXT_BYTES witness seq(DIGEST_TEXT_BYTES, _ => 48)

  const MAX_DURABLE_LENGTH := 0x7FFF_FFFF_FFFF_FFFF
  const MAX_UNIX_MODE := 511
  const MANIFEST_DOMAIN := Ascii("grok-build.workspace-manifest.sha256.v1\0")

  datatype Entry = Entry(path: Path, digest: Digest, byteLength: nat, mode: nat)

  datatype ManifestError =
    | TooManyEntries | InvalidPath | InvalidLength | InvalidMode | NotStrictlyOrdered | FileIsPrefix

  /** The manifest's own path check: the same conditions as `PathConflictOf` in another order. */
  predicate ManifestPathValid(p: Path) {
    if p == [] then false
    else if |p| > MAX_PATH_BYTES then false
    else if p[0] == SLASH || BACKSLASH in p || NUL in p then false
    else forall c :: c in Split(p) ==> !BadComponent(c)
  }

  function EntryError(e: Entry): Option<ManifestError> {
    if !ManifestPathValid(e.path) then Some(InvalidPath)
    else if e.byteLength > MAX_DURABLE_LENGTH then Some(InvalidLength)
    else if e.mode > MAX_UNIX_MODE then Some(InvalidMode)
    else None
  }

  lemma {:induction false} ManifestPathValidIffPortable(p: Path)
    ensures ManifestPathValid(p) <==> Portable(p)
  {
  }

  function PathsOf(entries: seq<Entry>): (paths: seq<Path>)
    ensures |paths| == |entries|
    ensures forall i :: 0 <= i < |entries| ==> paths[i] == entries[i].path
  {
    seq(|entries|, i requires 0 <= i < |entries| => entries[i].path)
  }

  /** All-pairs meaning of an admissible manifest. */
  ghost predicate ValidManifest(entries: seq<Entry>) {
    && |entries| <= MAX_MANIFEST_ENTRIES
    && (forall e :: e in entries ==> EntryError(e).None?)
    && StrictlySorted(PathsOf(entries))
    && (forall a, b :: a in entries && b in entries ==> !IsAncestor(a.path, b.path))
  }

  /** The same, on the fields: bounds as numbers, order by the first byte that differs, no path below another. */
  ghost predicate Admissible(entries: seq<Entry>) {
    && |entries| <= 65536
    && (forall e :: e in entries ==> Portable(e.path) && e.byteLength <= 0x7FFF_FFFF_FFFF_FFFF && e.mode <= 511)
    && (forall i, j :: 0 <= i < j < |entries| ==> ComesBefore(entries[i].path, entries[j].path))
    && (forall a, b :: a in entries && b in entries ==> !(a.path + [47] <= b.path))
  }

  lemma {:induction false} ValidExactly(entries: seq<Entry>)
    ensures ValidManifest(entries) <==> Admissible(entries)
  {
    SortedExactly(PathsOf(entries));
    forall e | e in entries
      ensures EntryError(e).None? <==>
        Portable(e.path) && e.byteLength <= 0x7FFF_FFFF_FFFF_FFFF && e.mode <= 511
    {
      ManifestPathValidIffPortable(e.path);
    }
    forall a, b | a in entries && b in entries ensures IsAncestor(a.path, b.path) <==> a.path + [47] <= b.path {
      AncestorExactly(a.path, b.path);
    }
    OrderOfPaths(entries);
  }

  lemma {:induction false} OrderOfPaths(entries: seq<Entry>)
    ensures InByteOrder(PathsOf(entries)) <==>
      forall i, j :: 0 <= i < j < |entries| ==> ComesBefore(entries[i].path, entries[j].path)
  {
    forall i, j | 0 <= i < j < |entries|
      ensures ComesBefore(PathsOf(entries)[i], PathsOf(entries)[j]) <==> ComesBefore(entries[i].path, entries[j].path)
    {
    }
  }

  /** What each rejection says about the list. */
  ghost predicate Fault(error: ManifestError, entries: seq<Entry>) {
    match error
    case TooManyEntries => |entries| > MAX_MANIFEST_ENTRIES
    case NotStrictlyOrdered => exists i :: 0 < i < |entries| && !Lt(PathsOf(entries)[i - 1], PathsOf(entries)[i])
    case FileIsPrefix => exists a, b :: a in entries && b in entries && IsAncestor(a.path, b.path)
    case _ => exists e :: e in entries && EntryError(e) == Some(error)
  }

  /** Why entry `i` cannot follow the ones before it. */
  ghost predicate EntryFault(error: ManifestError, entries: seq<Entry>, i: nat)
    requires i < |entries|
  {
    match error
    case TooManyEntries => false
    case NotStrictlyOrdered => i > 0 && !Lt(entries[i - 1].path, entries[i].path)
    case FileIsPrefix => exists a :: a in PathsOf(entries)[..i] && IsAncestor(a, entries[i].path)
    case _ => EntryError(entries[i]) == Some(error)
  }

  lemma {:induction false} EntryFaultIsFault(error: ManifestError, entries: seq<Entry>, i: nat)
    requires i < |entries| && EntryFault(error, entries, i)
    ensures Fault(error, entries) && !ValidManifest(entries)
  {
    assert entries[i] in entries;
    match error {
      case NotStrictlyOrdered =>
        assert !Lt(PathsOf(entries)[i - 1], PathsOf(entries)[i]);
      case FileIsPrefix =>
        var a :| a in PathsOf(entries)[..i] && IsAncestor(a, entries[i].path);
        var j :| 0 <= j < i && PathsOf(entries)[..i][j] == a;
        assert entries[j] in entries && IsAncestor(entries[j].path, entries[i].path);
      case _ =>
    }
  }

  /** The checks of one entry, in the pass's order. */
  method CheckEntry(entries: seq<Entry>, i: nat, priorPaths: set<Path>) returns (error: Option<ManifestError>)
    requires i < |entries| && forall p :: p in priorPaths <==> p in PathsOf(entries)[..i]
    ensures error.Some? ==> EntryFault(error.value, entries, i)
    ensures error.None? ==> EntryError(entries[i]).None? && (i > 0 ==> Lt(entries[i - 1].path, entries[i].path))
    ensures error.None? ==> forall a :: a in PathsOf(entries)[..i] ==> !IsAncestor(a, entries[i].path)
  {
    error := EntryError(entries[i]);
    if error.Some? {
      return;
    }
    if i > 0 && !Lt(entries[i - 1].path, entries[i].path) {
      return Some(NotStrictlyOrdered);
    }
    var prefix := AncestorAmong(priorPaths, entries[i].path);
    if prefix.Some? {
      return Some(FileIsPrefix);
    }
    return None;
  }

  lemma {:induction false} WholePrefixValid(entries: seq<Entry>)
    requires |entries| <= MAX_MANIFEST_ENTRIES && ValidPrefix(entries, |entries|)
    ensures ValidManifest(entries)
  {
    assert entries[..|entries|] == entries;
    assert PathsOf(entries)[..|entries|] == PathsOf(entries);
  }

  /** One forward pass: each path against its predecessor and its ancestors against the paths before it. */
  method ScanEntries(entries: seq<Entry>) returns (r: Result<(), ManifestError>)
    requires |entries| <= MAX_MANIFEST_ENTRIES
    ensures r.Ok? <==> ValidManifest(entries)
    ensures r.Err? ==> Fault(r.error, entries) && !r.error.TooManyEntries?
  {
    var priorPaths: set<Path> := {};
    for i := 0 to |entries|
      invariant ValidPrefix(entries, i)
      invariant forall p :: p in priorPaths <==> p in PathsOf(entries)[..i]
    {
      var error := CheckEntry(entries, i, priorPaths);
      if error.Some? {
        EntryFaultIsFault(error.value, entries, i);
        return Err(error.value);
      }
      ForwardScanSuffices(entries, i);
      priorPaths := priorPaths + {entries[i].path};
    }
    WholePrefixValid(entries);
    return Ok(());
  }

  /** The size, then the pass: accepts exactly the admissible lists, and otherwise names a fault. */
  method ValidateManifestEntries(entries: seq<Entry>) returns (r: Result<(), ManifestError>)
    ensures r.Ok? <==> ValidManifest(entries)
    ensures r.Ok? <==> Admissible(entries)
    ensures r.Err? ==> Fault(r.error, entries)
    ensures r.Err? ==> (r.error.TooManyEntries? <==> |entries| > MAX_MANIFEST_ENTRIES)
  {
    ValidExactly(entries);
    if |entries| > MAX_MANIFEST_ENTRIES {
      return Err(TooManyEntries);
    }
    r := ScanEntries(entries);
  }

  /** The first `i` entries are individually valid, strictly sorted and prefix-free. */
  ghost predicate ValidPrefix(entries: seq<Entry>, i: nat)
    requires i <= |entries|
  {
    && (forall e :: e in entries[..i] ==> EntryError(e).None?)
    && StrictlySorted(PathsOf(entries)[..i])
    && (forall a, b :: a in entries[..i] && b in entries[..i] ==> !IsAncestor(a.path, b.path))
  }

  /** Comparing with the predecessor and with earlier paths extends order and prefix-freedom by one entry. */
  lemma {:induction false} ForwardScanSuffices(entries: seq<Entry>, i: nat)
    requires i < |entries| && ValidPrefix(entries, i) && EntryError(entries[i]).None?
    requires i > 0 ==> Lt(entries[i - 1].path, entries[i].path)
    requires forall a :: a in PathsOf(entries)[..i] ==> !IsAncestor(a, entries[i].path)
    ensures ValidPrefix(entries, i + 1)
  {
    OrderExtends(PathsOf(entries), i);
    forall e | e in entries[..i + 1] ensures EntryError(e).None? {
      assert e in entries[..i] || e == entries[i];
    }
    forall a, b | a in entries[..i + 1] && b in entries[..i + 1] ensures !IsAncestor(a.path, b.path) {
      assert a in entries[..i] || a == entries[i];
      assert b in entries[..i] || b == entries[i];
      if a in entries[..i] {
        var j :| 0 <= j < i && entries[j] == a;
        assert PathsOf(entries)[..i][j] == a.path;
      } else if IsAncestor(a.path, b.path) {
        AncestorLt(a.path, b.path);
        LtIrreflexive(a.path);
        var j :| 0 <= j < i && entries[j] == b;
        assert Lt(PathsOf(entries)[..i + 1][j], PathsOf(entries)[..i + 1][i]);
        LtAsymmetric(a.path, b.path);
      }
    }
  }

  lemma {:induction false} OrderExtends(paths: seq<Path>, i: nat)
    requires i < |paths| && StrictlySorted(paths[..i]) && (i > 0 ==> Lt(paths[i - 1], paths[i]))
    ensures StrictlySorted(paths[..i + 1])
  {
    var longer := paths[..i + 1];
    forall j, k | 0 <= j < k < i + 1 ensures Lt(longer[j], longer[k]) {
      if k < i {
        assert Lt(paths[..i][j], paths[..i][k]);
      } else if j < i - 1 {
        assert Lt(paths[..i][j], paths[..i][i - 1]);
        LtTransitive(paths[j], paths[i - 1], paths[i]);
      }
    }
  }

  // ---------- digest preimage ----------

  predicate Encodable(e: Entry) {
    |e.path| < Pow256(U64_BYTES) && e.byteLength < Pow256(U64_BYTES) && e.mode < Pow256(U32_BYTES)
  }

  predicate AllEncodable(entries: seq<Entry>) {
    |entries| < Pow256(U64_BYTES) && forall e :: e in entries ==> Encodable(e)
  }

  function EncodeEntry(e: Entry): ByteString
    requires Encodable(e)
  {
    BigEndian(|e.path|, U64_BYTES) + e.path + BigEndian(e.byteLength, U64_BYTES) + e.digest
    + BigEndian(e.mode, U32_BYTES)
  }

  function EncodeEntries(entries: seq<Entry>): ByteString
    requires forall e :: e in entries ==> Encodable(e)
  {
    if entries == [] then [] else EncodeEntry(entries[0]) + EncodeEntries(entries[1..])
  }

  function Encode(entries: seq<Entry>): ByteString
    requires AllEncodable(entries)
  {
    MANIFEST_DOMAIN + BigEndian(|entries|, U64_BYTES) + EncodeEntries(entries)
  }

  /** Splits `n` bytes off the front. */
  function TakeBytes(b: ByteString, n: nat): (r: Option<(ByteString, ByteString)>)
    ensures r.Some? <==> n <= |b|
    ensures r.Some? ==> |r.value.0| == n && b == r.value.0 + r.value.1
  {
    if n <= |b| then Some((b[..n], b[n..])) else None
  }

  /** Reads a big-endian integer off the front. */
  function TakeInt(b: ByteString, width: nat): (r: Option<(nat, ByteString)>)
    ensures r.Some? <==> width <= |b|
    ensures r.Some? ==> |r.value.1| == |b| - width && r.value.0 < Pow256(width)
  {
    if width <= |b| then Some((FromBigEndian(b[..width]), b[width..])) else None
  }

  lemma {:induction false} TakeBytesInverse(x: ByteString, rest: ByteString)
    ensures TakeBytes(x + rest, |x|) == Some((x, rest))
  {
  }

  lemma {:induction false} TakeIntInverse(v: nat, width: nat, rest: ByteString)
    requires v < Pow256(width)
    ensures TakeInt(BigEndian(v, width) + rest, width) == Some((v, rest))
  {
    BigEndianRoundTrip(v, width);
    assert (BigEndian(v, width) + rest)[..width] == BigEndian(v, width);
  }

  lemma {:induction false} TakeIntRebuilds(b: ByteString, width: nat)
    requires width <= |b|
    ensures BigEndian(TakeInt(b, width).value.0, width) + TakeInt(b, width).value.1 == b
  {
    FromBigEndianRoundTrip(b[..width]);
  }

  /** Reads one entry off the front. */
  function DecodeEntry(b: ByteString): (r: Option<(Entry, ByteString)>)
    ensures r.Some? ==> |r.value.1| < |b| && Encodable(r.value.0)
  {
    match TakeInt(b, U64_BYTES)
    case None => None
    case Some((n, b1)) =>
      match TakeBytes(b1, n)
      case None => None
      case Some((path, b2)) =>
        match TakeInt(b2, U64_BYTES)
        case None => None
        case Some((byteLength, b3)) =>
          match TakeBytes(b3, DIGEST_TEXT_BYTES)
          case None => None
          case Some((digest, b4)) =>
            match TakeInt(b4, U32_BYTES)
            case None => None
            case Some((mode, rest)) => Some((Entry(path, digest, byteLength, mode), rest))
  }

  lemma {:induction false} Reassociate(a: ByteString, b: ByteString, c: ByteString, d: ByteString, e: ByteString,
                                       rest: ByteString)
    ensures a + b + c + d + e + rest == a + (b + (c + (d + (e + rest))))
  {
  }

  lemma {:induction false} EncodeEntryAfterDecode(b: ByteString, e: Entry, rest: ByteString)
    requires DecodeEntry(b) == Some((e, rest))
    ensures EncodeEntry(e) + rest == b
  {
    var b1 := TakeInt(b, U64_BYTES).value.1;
    var b2 := TakeBytes(b1, |e.path|).value.1;
    var b3 := TakeInt(b2, U64_BYTES).value.1;
    var b4 := TakeBytes(b3, DIGEST_TEXT_BYTES).value.1;
    TakeIntRebuilds(b, U64_BYTES);
    TakeIntRebuilds(b2, U64_BYTES);
    TakeIntRebuilds(b4, U32_BYTES);
    Reassociate(BigEndian(|e.path|, U64_BYTES), e.path, BigEndian(e.byteLength, U64_BYTES), e.digest,
                BigEndian(e.mode, U32_BYTES), rest);
  }

  lemma {:induction false} EncodeFirst(first: Entry, others: seq<Entry>)
    requires Encodable(first) && forall e :: e in others ==> Encodable(e)
    ensures forall e :: e in [first] + others ==> Encodable(e)
    ensures EncodeEntries([first] + others) == EncodeEntry(first) + EncodeEntries(others)
  {
    assert ([first] + others)[1..] == others;
  }

  lemma {:induction false} Rebuilt(b: ByteString, first: Entry, rest: ByteString, others: seq<Entry>)
    requires Encodable(first) && EncodeEntry(first) + rest == b
    requires (forall e :: e in others ==> Encodable(e)) && EncodeEntries(others) == rest
    ensures forall e :: e in [first] + others ==> Encodable(e)
    ensures EncodeEntries([first] + others) == b
  {
    EncodeFirst(first, others);
  }

  /** Reads `count` entries: what comes out encodes to exactly the bytes that were read. */
  function DecodeEntries(b: ByteString, count: nat): (r: Option<seq<Entry>>)
    ensures r.Some? ==> |r.value| == count && forall e :: e in r.value ==> Encodable(e)
    ensures r.Some? ==> EncodeEntries(r.value) == b
    decreases count
  {
    if count == 0 then (if b == [] then Some([]) else None)
    else
      match DecodeEntry(b)
      case None => None
      case Some((first, rest)) =>
        match DecodeEntries(rest, count - 1)
        case None => None
        case Some(others) =>
          EncodeEntryAfterDecode(b, first, rest);
          Rebuilt(b, first, rest, others);
          Some([first] + others)
  }

  function Decode(b: ByteString): (r: Option<seq<Entry>>)
    ensures r.Some? ==> AllEncodable(r.value)
  {
    match TakeBytes(b, |MANIFEST_DOMAIN|)
    case None => None
    case Some((domain, body)) =>
      if domain != MANIFEST_DOMAIN then None
      else match TakeInt(body, U64_BYTES)
        case None => None
        case Some((count, entries)) => DecodeEntries(entries, count)
  }

  lemma {:induction false} DecodeEntryAfterEncode(e: Entry, rest: ByteString)
    requires Encodable(e)
    ensures DecodeEntry(EncodeEntry(e) + rest) == Some((e, rest))
  {
    var b4 := BigEndian(e.mode, U32_BYTES) + rest;
    var b3 := e.digest + b4;
    var b2 := BigEndian(e.byteLength, U64_BYTES) + b3;
    var b1 := e.path + b2;
    Reassociate(BigEndian(|e.path|, U64_BYTES), e.path, BigEndian(e.byteLength, U64_BYTES), e.digest,
                BigEndian(e.mode, U32_BYTES), rest);
    TakeIntInverse(|e.path|, U64_BYTES, b1);
    TakeBytesInverse(e.path, b2);
    TakeIntInverse(e.byteLength, U64_BYTES, b3);
    TakeBytesInverse(e.digest, b4);
    TakeIntInverse(e.mode, U32_BYTES, rest);
  }

  lemma {:induction false} DecodeEntriesAfterEncode(entries: seq<Entry>)
    requires forall e :: e in entries ==> Encodable(e)
    ensures DecodeEntries(EncodeEntries(entries), |entries|) == Some(entries)
  {
    if entries != [] {
      DecodeEntryAfterEncode(entries[0], EncodeEntries(entries[1..]));
      DecodeEntriesAfterEncode(entries[1..]);
      assert [entries[0]] + entries[1..] == entries;
    }
  }

  /** The decoder inverts the encoder. */
  lemma {:induction false} DecodeAfterEncode(entries: seq<Entry>)
    requires AllEncodable(entries)
    ensures Decode(Encode(entries)) == Some(entries)
  {
    var body := BigEndian(|entries|, U64_BYTES) + EncodeEntries(entries);
    assert Encode(entries) == MANIFEST_DOMAIN + body;
    TakeBytesInverse(MANIFEST_DOMAIN, body);
    TakeIntInverse(|entries|, U64_BYTES, EncodeEntries(entries));
    DecodeEntriesAfterEncode(entries);
  }

  /** Every byte string the decoder accepts is the one encoding of what it returns. */
  lemma {:induction false} EncodeAfterDecode(b: ByteString)
    requires Decode(b).Some?
    ensures Encode(Decode(b).value) == b
  {
    var body := TakeBytes(b, |MANIFEST_DOMAIN|).value.1;
    TakeIntRebuilds(body, U64_BYTES);
  }

  lemma {:induction false} EncodeInjective(a: seq<Entry>, b: seq<Entry>)
    requires AllEncodable(a) && AllEncodable(b)
    ensures Encode(a) == Encode(b) <==> a == b
  {
    DecodeAfterEncode(a);
    DecodeAfterEncode(b);
  }

  // ---------- the preimage, byte by byte ----------

  /** The path's length in eight bytes, the path, the file's length in eight, the digest, the mode in four. */
  ghost predicate EntryFields(b: ByteString, e: Entry, pathBytes: ByteString, fileBytes: ByteString, mode: ByteString) {
    && |pathBytes| == 8 && EightByteValue(pathBytes) == |e.path|
    && |fileBytes| == 8 && EightByteValue(fileBytes) == e.byteLength
    && |mode| == 4 && FourByteValue(mode) == e.mode
    && b == pathBytes + e.path + fileBytes + e.digest + mode
  }

  ghost predicate EntryBytes(b: ByteString, e: Entry) {
    exists pathBytes, fileBytes, mode :: EntryFields(b, e, pathBytes, fileBytes, mode)
  }

  /** The domain with its closing NUL, the count in eight bytes, one part per entry in the order of the list. */
  ghost predicate ListFields(b: ByteString, entries: seq<Entry>, domain: ByteString, count: ByteString,
                             parts: seq<ByteString>) {
    && Spells(domain, "grok-build.workspace-manifest.sha256.v1\0")
    && |count| == 8 && EightByteValue(count) == |entries|
    && |parts| == |entries| && (forall i :: 0 <= i < |entries| ==> EntryBytes(parts[i], entries[i]))
    && b == domain + count + Joined(parts)
  }

  ghost predicate LaidOut(b: ByteString, entries: seq<Entry>) {
    exists domain, count, parts :: ListFields(b, entries, domain, count, parts)
  }

  lemma {:induction false} EntryLayout(e: Entry)
    requires Encodable(e)
    ensures EntryBytes(EncodeEntry(e), e)
  {
    EightBytesExactly(|e.path|);
    EightBytesExactly(e.byteLength);
    FourBytesExactly(e.mode);
    assert EntryFields(EncodeEntry(e), e, BigEndian(|e.path|, 8), BigEndian(e.byteLength, 8), BigEndian(e.mode, 4));
  }

  lemma {:induction false} EntriesLayout(entries: seq<Entry>) returns (parts: seq<ByteString>)
    requires forall e :: e in entries ==> Encodable(e)
    ensures |parts| == |entries| && (forall i :: 0 <= i < |entries| ==> EntryBytes(parts[i], entries[i]))
    ensures EncodeEntries(entries) == Joined(parts)
  {
    if entries == [] {
      parts := [];
    } else {
      EntryLayout(entries[0]);
      var rest := EntriesLayout(entries[1..]);
      parts := [EncodeEntry(entries[0])] + rest;
      assert parts[1..] == rest;
    }
  }

  lemma {:induction false} EncodeLayout(entries: seq<Entry>)
    requires AllEncodable(entries)
    ensures LaidOut(Encode(entries), entries)
  {
    EightBytesExactly(|entries|);
    var parts := EntriesLayout(entries);
    assert ListFields(Encode(entries), entries, MANIFEST_DOMAIN, BigEndian(|entries|, 8), parts);
  }

  lemma {:induction false} ValidManifestEncodable(entries: seq<Entry>)
    requires ValidManifest(entries)
    ensures AllEncodable(entries)
  {
    U64Range();
    assert forall e :: e in entries ==> EntryError(e).None?;
  }

  lemma {:induction false} NextEntry(before: ByteString, entries: seq<Entry>, i: nat)
    requires i < |entries| && forall e :: e in entries ==> Encodable(e)
    ensures before + EncodeEntries(entries[i..]) == before + EncodeEntry(entries[i]) + EncodeEntries(entries[i + 1..])
  {
    assert entries[i..][0] == entries[i] && entries[i..][1..] == entries[i + 1..];
  }

  lemma {:induction false} FieldsFormEntry(before: ByteString, e: Entry)
    requires Encodable(e)
    ensures before + BigEndian(|e.path|, U64_BYTES) + e.path + BigEndian(e.byteLength, U64_BYTES) + e.digest
      + BigEndian(e.mode, U32_BYTES)
      == before + EncodeEntry(e)
  {
  }

  /** The updates of one entry, field by field. */
  method FeedEntry(before: ByteString, e: Entry) returns (preimage: ByteString)
    requires Encodable(e)
    ensures preimage == before + EncodeEntry(e)
  {
    preimage := before + BigEndian(|e.path|, U64_BYTES);
    preimage := preimage + e.path;
    preimage := preimage + BigEndian(e.byteLength, U64_BYTES);
    preimage := preimage + e.digest;
    preimage := preimage + BigEndian(e.mode, U32_BYTES);
    FieldsFormEntry(before, e);
  }

  /** Feeds the hasher entry by entry; `hash` stands for SHA-256 and its text form. */
  method ManifestDigest(hash: ByteString -> Digest, entries: seq<Entry>) returns (r: Result<Digest, ManifestError>)
    ensures r.Ok? <==> ValidManifest(entries)
    ensures r.Ok? <==> Admissible(entries)
    ensures r.Ok? ==> AllEncodable(entries) && r.value == hash(Encode(entries))
    ensures r.Ok? ==> LaidOut(Encode(entries), entries)
    ensures r.Err? ==> (r.error.TooManyEntries? <==> |entries| > MAX_MANIFEST_ENTRIES)
  {
    var valid := ValidateManifestEntries(entries);
    if valid.Err? {
      return Err(valid.error);
    }
    ValidManifestEncodable(entries);
    EncodeLayout(entries);
    var preimage := MANIFEST_DOMAIN;
    preimage := preimage + BigEndian(|entries|, U64_BYTES);
    for i := 0 to |entries|
      invariant preimage + EncodeEntries(entries[i..]) == Encode(entries)
    {
      assert entries[i] in entries;
      NextEntry(preimage, entries, i);
      preimage := FeedEntry(preimage, entries[i]);
    }
    assert preimage + [] == preimage;
    return Ok(hash(preimage));
  }
}
