/** The canonical policy encoding, its unique readability, and compilation (trust.rs). */
module PolicyEncoding {
  import opened Bytes
  import opened Framing
  import opened Outcomes
  import opened PolicyOrder

  const POLICY_DOMAIN: Text := Ascii("grok-build/execution-policy/v1")
  const PATH_COMPONENT_COUNT_LABEL: Text := Ascii("path_component_count")
  const SCOPE_KIND_LABEL: Text := Ascii("scope_kind")
  const SCOPE_PATH_LABEL: Text := Ascii("scope_path")
  const ENVIRONMENT_NAME_LABEL: Text := Ascii("environment_name")
  const ENVIRONMENT_VALUE_LABEL: Text := Ascii("environment_value")
  const ENVIRONMENT_COUNT_LABEL: Text := Ascii("environment_count")
  const NETWORK_LABEL: Text := Ascii("network")
  const MUTATION_MODE_LABEL: Text := Ascii("mutation_mode")
  const WALL_TIME_MS_LABEL: Text := Ascii("wall_time_ms")
  const MAX_OUTPUT_BYTES_LABEL: Text := Ascii("max_output_bytes")
  const MAX_PROCESSES_LABEL: Text := Ascii("max_processes")
  const MAX_MEMORY_BYTES_PRESENCE_LABEL: Text := Ascii("max_memory_bytes_presence")
  const MAX_MEMORY_BYTES_LABEL: Text := Ascii("max_memory_bytes")
  const APPROVAL_ID_PRESENCE_LABEL: Text := Ascii("approval_id_presence")
  const APPROVAL_ID_LABEL: Text := Ascii("approval_id")
  const POLICY_ID_LABEL: Text := Ascii("policy_id")
  const GRANT_HASH_LABEL: Text := Ascii("grant_hash")
  const WORKSPACE_ROOT_LABEL: Text := Ascii("workspace_root")
  const READ_SCOPES_LABEL: Text := Ascii("read_scopes")
  const WRITE_SCOPES_LABEL: Text := Ascii("write_scopes")

  datatype PathFault = MustBeAbsolute | MustBeRelative | EmptyRelative | NotNormalized

  // ---------- portable paths ----------

  predicate IsAbsolute(p: NativePath) {
    p != [] && p[0].RootDir?
  }

  /** Absolute exactly when asked, not empty when relative, and otherwise only normal components. */
  predicate NormalPath(p: NativePath, mustBeAbsolute: bool) {
    && IsAbsolute(p) == mustBeAbsolute
    && (!mustBeAbsolute ==> p != [])
    && forall i :: 0 <= i < |p| ==> p[i].Normal? || (mustBeAbsolute && i == 0)
  }

  /** The names of the first `n` components. */
  function Names(p: NativePath, n: nat): (names: seq<Text>)
    requires n <= |p|
    ensures |names| <= n
  {
    if n == 0 then [] else Names(p, n - 1) + if p[n - 1].Normal? then [p[n - 1].name] else []
  }

  /** `portable_components`. */
  method PortableComponents(p: NativePath, mustBeAbsolute: bool) returns (r: Result<seq<Text>, PathFault>)
    ensures r.Ok? <==> NormalPath(p, mustBeAbsolute)
    ensures r.Ok? ==> r.value == Names(p, |p|)
  {
    if IsAbsolute(p) != mustBeAbsolute {
      return Err(if mustBeAbsolute then MustBeAbsolute else MustBeRelative);
    }
    if !mustBeAbsolute && p == [] {
      return Err(EmptyRelative);
    }
    var normalized: seq<Text> := [];
    for i := 0 to |p|
      invariant normalized == Names(p, i)
      invariant forall k :: 0 <= k < i ==> p[k].Normal? || (mustBeAbsolute && k == 0)
    {
      if p[i].Normal? {
        normalized := normalized + [p[i].name];
      } else if !(p[i].RootDir? && mustBeAbsolute) {
        return Err(NotNormalized);
      }
    }
    return Ok(normalized);
  }

  lemma {:induction false} NamesAt(p: NativePath, mustBeAbsolute: bool, n: nat)
    requires NormalPath(p, mustBeAbsolute) && n <= |p|
    ensures var skipped := if mustBeAbsolute && n > 0 then 1 else 0;
      |Names(p, n)| == n - skipped && forall i :: skipped <= i < n ==> p[i] == Normal(Names(p, n)[i - skipped])
  {
    if n > 0 {
      NamesAt(p, mustBeAbsolute, n - 1);
    }
  }

  /** Kind and names determine a portable path. */
  lemma {:induction false} NamesInjective(p: NativePath, q: NativePath, mustBeAbsolute: bool)
    requires NormalPath(p, mustBeAbsolute) && NormalPath(q, mustBeAbsolute) && Names(p, |p|) == Names(q, |q|)
    ensures p == q
  {
    NamesAt(p, mustBeAbsolute, |p|);
    NamesAt(q, mustBeAbsolute, |q|);
    var skipped := if mustBeAbsolute then 1 else 0;
    assert |p| == |q|;
    forall i | skipped <= i < |p| ensures p[i] == q[i] {
      assert p[i] == Normal(Names(p, |p|)[i - skipped]) && q[i] == Normal(Names(q, |q|)[i - skipped]);
    }
  }

  // ---------- frames ----------

  function PathHead(name: Text, p: NativePath): seq<Text> {
    [name, Flag(IsAbsolute(p)), PATH_COMPONENT_COUNT_LABEL, U64Bytes(|Names(p, |p|)|)]
  }

  function PathFrames(name: Text, p: NativePath): seq<Text> {
    PathHead(name, p) + Names(p, |p|)
  }

  function ScopeFrames(scope: Scope): seq<Text> {
    match scope
    case Workspace => [SCOPE_KIND_LABEL, [0]]
    case Relative(path) => [SCOPE_KIND_LABEL, [1]] + PathFrames(SCOPE_PATH_LABEL, path)
  }

  function EachScope(scopes: seq<Scope>, n: nat): seq<Text>
    requires n <= |scopes|
  {
    if n == 0 then [] else EachScope(scopes, n - 1) + ScopeFrames(scopes[n - 1])
  }

  function ScopesFrames(name: Text, scopes: Scopes): seq<Text> {
    [name, U64Bytes(|scopes|)] + EachScope(scopes, |scopes|)
  }

  function VariableFrames(v: Variable): (frames: seq<Text>)
    ensures |frames| == 4
  {
    [ENVIRONMENT_NAME_LABEL, v.name, ENVIRONMENT_VALUE_LABEL, v.value]
  }

  function EachVariable(environment: seq<Variable>, n: nat): (frames: seq<Text>)
    requires n <= |environment|
    ensures |frames| == 4 * n
  {
    if n == 0 then [] else EachVariable(environment, n - 1) + VariableFrames(environment[n - 1])
  }

  function EnvironmentFrames(environment: Environment): seq<Text> {
    [ENVIRONMENT_COUNT_LABEL, U64Bytes(|environment|)] + EachVariable(environment, |environment|)
  }

  function LimitFrames(p: Policy): seq<Text> {
    [NETWORK_LABEL, [if p.network.NoNetwork? then 0 else 1], MUTATION_MODE_LABEL,
     [if p.mutationMode.ReadOnly? then 0 else 1],
     WALL_TIME_MS_LABEL, U64Bytes(p.wallTimeMs), MAX_OUTPUT_BYTES_LABEL, U64Bytes(p.maxOutputBytes),
     MAX_PROCESSES_LABEL, U32Bytes(p.maxProcesses)]
  }

  function MemoryFrames(limit: Option<U64>): seq<Text> {
    match limit
    case None => [MAX_MEMORY_BYTES_PRESENCE_LABEL, [0]]
    case Some(bytes) => [MAX_MEMORY_BYTES_PRESENCE_LABEL, [1], MAX_MEMORY_BYTES_LABEL, U64Bytes(bytes)]
  }

  function ApprovalFrames(approval: Option<Text>): seq<Text> {
    match approval
    case None => [APPROVAL_ID_PRESENCE_LABEL, [0]]
    case Some(id) => [APPROVAL_ID_PRESENCE_LABEL, [1], APPROVAL_ID_LABEL, id]
  }

  function HeadFrames(p: Policy): seq<Text> {
    [POLICY_DOMAIN, POLICY_ID_LABEL, p.policyId, GRANT_HASH_LABEL, p.grantHash]
  }

  function FromLimits(p: Policy): seq<Text> {
    LimitFrames(p) + (MemoryFrames(p.maxMemoryBytes) + ApprovalFrames(p.approvalId))
  }

  function FromWrites(p: Policy): seq<Text> {
    ScopesFrames(WRITE_SCOPES_LABEL, p.writeScopes) + (EnvironmentFrames(p.environment) + FromLimits(p))
  }

  function FromRoot(p: Policy): seq<Text> {
    PathFrames(WORKSPACE_ROOT_LABEL, p.root) + (ScopesFrames(READ_SCOPES_LABEL, p.readScopes) + FromWrites(p))
  }

  /** The frames of a policy whose lists are already in order. */
  function OrderedFrames(p: Policy): seq<Text> {
    HeadFrames(p) + FromRoot(p)
  }

  /** The hash input of `canonical_policy_hash`. */
  function Preimage(p: Policy): ByteString {
    Flatten(OrderedFrames(Canonical(p)))
  }

  predicate ScopeEncodable(s: Scope) {
    s.Relative? ==> NormalPath(s.path, false)
  }

  predicate ScopesEncodable(scopes: seq<Scope>) {
    forall i :: 0 <= i < |scopes| ==> ScopeEncodable(scopes[i])
  }

  /** When the encoder succeeds. */
  predicate PolicyEncodable(p: Policy) {
    NormalPath(p.root, true) && ScopesEncodable(p.readScopes) && ScopesEncodable(p.writeScopes)
  }

  // ---------- unique readability ----------

  /** Prefixes of one length part the same list in the same place. */
  lemma {:induction false} SameSplit<T>(a: seq<T>, b: seq<T>, restA: seq<T>, restB: seq<T>)
    requires a + restA == b + restB && |a| == |b|
    ensures a == b && restA == restB
  {
    var all := a + restA;
    assert all[..|a|] == a && all[..|a|] == b;
    assert all[|a|..] == restA && all[|a|..] == restB;
  }

  /** The path is over where its count says, whatever frames follow. */
  lemma {:induction false} PathDelimited(name: Text, p: NativePath, q: NativePath, restP: seq<Text>, restQ: seq<Text>,
                                         mustBeAbsolute: bool)
    requires NormalPath(p, mustBeAbsolute) && NormalPath(q, mustBeAbsolute)
    requires PathFrames(name, p) + restP == PathFrames(name, q) + restQ
    ensures p == q && restP == restQ
  {
    var all := PathFrames(name, p) + restP;
    var n, m := |Names(p, |p|)|, |Names(q, |q|)|;
    assert all[3] == U64Bytes(n) && all[3] == U64Bytes(m);
    U64BytesInjective(n, m);
    SameSplit(PathFrames(name, p), PathFrames(name, q), restP, restQ);
    assert PathFrames(name, p)[4..] == Names(p, |p|) && PathFrames(name, q)[4..] == Names(q, |q|);
    NamesInjective(p, q, mustBeAbsolute);
  }

  function KindByte(s: Scope): Byte {
    if s.Workspace? then 0 else 1
  }

  lemma {:induction false} ScopeDelimited(s: Scope, t: Scope, restS: seq<Text>, restT: seq<Text>)
    requires ScopeEncodable(s) && ScopeEncodable(t) && ScopeFrames(s) + restS == ScopeFrames(t) + restT
    ensures s == t && restS == restT
  {
    var all := ScopeFrames(s) + restS;
    assert all[1] == [KindByte(s)] && all[1] == [KindByte(t)];
    assert KindByte(s) == [KindByte(s)][0] == [KindByte(t)][0];
    if s.Relative? {
      RelativeSplit(s.path, restS);
      RelativeSplit(t.path, restT);
      SameSplit([SCOPE_KIND_LABEL, [1]], [SCOPE_KIND_LABEL, [1]],
                PathFrames(SCOPE_PATH_LABEL, s.path) + restS, PathFrames(SCOPE_PATH_LABEL, t.path) + restT);
      PathDelimited(SCOPE_PATH_LABEL, s.path, t.path, restS, restT, false);
    } else {
      SameSplit(ScopeFrames(s), ScopeFrames(t), restS, restT);
    }
  }

  lemma {:induction false} RelativeSplit(path: NativePath, rest: seq<Text>)
    ensures ScopeFrames(Relative(path)) + rest == [SCOPE_KIND_LABEL, [1]] + (PathFrames(SCOPE_PATH_LABEL, path) + rest)
  {
  }

  /** Frames of a list read from the front. */
  lemma {:induction false} EachScopeFirst(scopes: seq<Scope>, n: nat)
    requires 0 < n <= |scopes|
    ensures EachScope(scopes, n) == ScopeFrames(scopes[0]) + EachScope(scopes[1..], n - 1)
  {
    if n > 1 {
      EachScopeFirst(scopes, n - 1);
      assert scopes[1..][n - 2] == scopes[n - 1];
    }
  }

  lemma {:induction false} EachScopeSplit(scopes: seq<Scope>, rest: seq<Text>)
    requires scopes != []
    ensures EachScope(scopes, |scopes|) + rest == ScopeFrames(scopes[0]) + (EachScope(scopes[1..], |scopes| - 1) + rest)
  {
    EachScopeFirst(scopes, |scopes|);
    Associate(ScopeFrames(scopes[0]), EachScope(scopes[1..], |scopes| - 1), rest);
  }

  lemma {:induction false} Associate<T>(a: seq<T>, b: seq<T>, c: seq<T>)
    ensures (a + b) + c == a + (b + c)
  {
  }

  lemma {:induction false} EachScopeDelimited(s: seq<Scope>, t: seq<Scope>, restS: seq<Text>, restT: seq<Text>)
    requires ScopesEncodable(s) && ScopesEncodable(t) && |s| == |t|
    requires EachScope(s, |s|) + restS == EachScope(t, |t|) + restT
    ensures s == t && restS == restT
  {
    if s == [] {
      SameSplit(EachScope(s, 0), EachScope(t, 0), restS, restT);
    } else {
      EachScopeSplit(s, restS);
      EachScopeSplit(t, restT);
      ScopeDelimited(s[0], t[0], EachScope(s[1..], |s| - 1) + restS, EachScope(t[1..], |t| - 1) + restT);
      EachScopeDelimited(s[1..], t[1..], restS, restT);
      assert s == [s[0]] + s[1..] && t == [t[0]] + t[1..];
    }
  }

  lemma {:induction false} ScopesDelimited(name: Text, s: Scopes, t: Scopes, restS: seq<Text>, restT: seq<Text>)
    requires ScopesEncodable(s) && ScopesEncodable(t)
    requires ScopesFrames(name, s) + restS == ScopesFrames(name, t) + restT
    ensures s == t && restS == restT
  {
    var headS, headT := [name, U64Bytes(|s|)], [name, U64Bytes(|t|)];
    Associate(headS, EachScope(s, |s|), restS);
    Associate(headT, EachScope(t, |t|), restT);
    SameSplit(headS, headT, EachScope(s, |s|) + restS, EachScope(t, |t|) + restT);
    assert headS[1] == headT[1];
    U64BytesInjective(|s|, |t|);
    EachScopeDelimited(s, t, restS, restT);
  }

  lemma {:induction false} EachVariableAt(e: seq<Variable>, n: nat, k: nat)
    requires k < n <= |e|
    ensures EachVariable(e, n)[4 * k + 1] == e[k].name && EachVariable(e, n)[4 * k + 3] == e[k].value
  {
    if k < n - 1 {
      EachVariableAt(e, n - 1, k);
    }
  }

  lemma {:induction false} EnvironmentDelimited(e: Environment, f: Environment, restE: seq<Text>, restF: seq<Text>)
    requires EnvironmentFrames(e) + restE == EnvironmentFrames(f) + restF
    ensures e == f && restE == restF
  {
    var all := EnvironmentFrames(e) + restE;
    assert all[1] == U64Bytes(|e|) && all[1] == U64Bytes(|f|);
    U64BytesInjective(|e|, |f|);
    SameSplit(EnvironmentFrames(e), EnvironmentFrames(f), restE, restF);
    assert EnvironmentFrames(e)[2..] == EachVariable(e, |e|) && EnvironmentFrames(f)[2..] == EachVariable(f, |f|);
    forall k | 0 <= k < |e| ensures e[k] == f[k] {
      EachVariableAt(e, |e|, k);
      EachVariableAt(f, |f|, k);
    }
  }

  lemma {:induction false} LimitsDelimited(p: Policy, q: Policy, restP: seq<Text>, restQ: seq<Text>)
    requires LimitFrames(p) + restP == LimitFrames(q) + restQ
    ensures p.network == q.network && p.mutationMode == q.mutationMode && p.wallTimeMs == q.wallTimeMs
    ensures p.maxOutputBytes == q.maxOutputBytes && p.maxProcesses == q.maxProcesses && restP == restQ
  {
    var a, b := LimitFrames(p), LimitFrames(q);
    SameSplit(a, b, restP, restQ);
    assert a[1][0] == b[1][0] && a[3][0] == b[3][0];
    assert a[5] == b[5] && a[7] == b[7] && a[9] == b[9];
    U64BytesInjective(p.wallTimeMs, q.wallTimeMs);
    U64BytesInjective(p.maxOutputBytes, q.maxOutputBytes);
    U32BytesInjective(p.maxProcesses, q.maxProcesses);
  }

  lemma {:induction false} MemoryDelimited(m: Option<U64>, n: Option<U64>, restM: seq<Text>, restN: seq<Text>)
    requires MemoryFrames(m) + restM == MemoryFrames(n) + restN
    ensures m == n && restM == restN
  {
    var all := MemoryFrames(m) + restM;
    assert all[1] == MemoryFrames(m)[1] == MemoryFrames(n)[1];
    assert MemoryFrames(m)[1][0] == MemoryFrames(n)[1][0];
    SameSplit(MemoryFrames(m), MemoryFrames(n), restM, restN);
    if m.Some? {
      assert MemoryFrames(m)[3] == MemoryFrames(n)[3];
      U64BytesInjective(m.value, n.value);
    }
  }

  lemma {:induction false} FromLimitsInjective(p: Policy, q: Policy)
    requires FromLimits(p) == FromLimits(q)
    ensures p.network == q.network && p.mutationMode == q.mutationMode && p.wallTimeMs == q.wallTimeMs
    ensures p.maxOutputBytes == q.maxOutputBytes && p.maxProcesses == q.maxProcesses
    ensures p.maxMemoryBytes == q.maxMemoryBytes && p.approvalId == q.approvalId
  {
    LimitsDelimited(p, q, MemoryFrames(p.maxMemoryBytes) + ApprovalFrames(p.approvalId),
                    MemoryFrames(q.maxMemoryBytes) + ApprovalFrames(q.approvalId));
    MemoryDelimited(p.maxMemoryBytes, q.maxMemoryBytes, ApprovalFrames(p.approvalId), ApprovalFrames(q.approvalId));
  }

  /** The frames of ordered policies determine them. */
  lemma {:induction false} OrderedInjective(p: Policy, q: Policy)
    requires PolicyEncodable(p) && PolicyEncodable(q) && OrderedFrames(p) == OrderedFrames(q)
    ensures p == q
  {
    SameSplit(HeadFrames(p), HeadFrames(q), FromRoot(p), FromRoot(q));
    assert HeadFrames(p)[2] == HeadFrames(q)[2] && HeadFrames(p)[4] == HeadFrames(q)[4];
    PathDelimited(WORKSPACE_ROOT_LABEL, p.root, q.root, ScopesFrames(READ_SCOPES_LABEL, p.readScopes) + FromWrites(p),
                  ScopesFrames(READ_SCOPES_LABEL, q.readScopes) + FromWrites(q), true);
    ScopesDelimited(READ_SCOPES_LABEL, p.readScopes, q.readScopes, FromWrites(p), FromWrites(q));
    ScopesDelimited(WRITE_SCOPES_LABEL, p.writeScopes, q.writeScopes, EnvironmentFrames(p.environment) + FromLimits(p),
                    EnvironmentFrames(q.environment) + FromLimits(q));
    EnvironmentDelimited(p.environment, q.environment, FromLimits(p), FromLimits(q));
    FromLimitsInjective(p, q);
  }

  /** Reordering scopes cannot change whether they encode. */
  lemma {:induction false} EncodableCanonical(p: Policy)
    ensures PolicyEncodable(Canonical(p)) <==> PolicyEncodable(p)
  {
    SameScopesEncodable(p.readScopes, SortScopes(p.readScopes));
    SameScopesEncodable(p.writeScopes, SortScopes(p.writeScopes));
  }

  lemma {:induction false} SameScopesEncodable(s: seq<Scope>, t: seq<Scope>)
    requires multiset(s) == multiset(t)
    ensures ScopesEncodable(s) <==> ScopesEncodable(t)
  {
    forall i | 0 <= i < |s| ensures s[i] in t {
      assert s[i] in multiset(t);
    }
    forall i | 0 <= i < |t| ensures t[i] in s {
      assert t[i] in multiset(s);
    }
  }

  /** Two policies share a hash input exactly when they differ in nothing but the order of scopes and environment. */
  lemma {:induction false} PreimageExact(p: Policy, q: Policy)
    requires PolicyEncodable(p) && PolicyEncodable(q)
    ensures Preimage(p) == Preimage(q) <==> SameUpToOrder(p, q)
  {
    CanonicalForgetsOrder(p, q);
    if Preimage(p) == Preimage(q) {
      FlattenInjective(OrderedFrames(Canonical(p)), OrderedFrames(Canonical(q)));
      EncodableCanonical(p);
      EncodableCanonical(q);
      OrderedInjective(Canonical(p), Canonical(q));
    }
  }

  // ---------- the encoder ----------

  method EncodeNames(h: CanonicalHasher, names: seq<Text>)
    requires h.Valid()
    modifies h
    ensures h.Valid() && h.frames == old(h.frames) + names
  {
    for i := 0 to |names|
      invariant h.Valid() && h.frames == old(h.frames) + names[..i]
    {
      h.Frame(names[i]);
      assert names[..i + 1] == names[..i] + [names[i]];
    }
    assert names[..|names|] == names;
  }

  method EncodePath(h: CanonicalHasher, name: Text, p: NativePath, mustBeAbsolute: bool)
    returns (r: Result<(), PathFault>)
    requires h.Valid()
    modifies h
    ensures h.Valid()
    ensures r.Ok? <==> NormalPath(p, mustBeAbsolute)
    ensures r.Ok? ==> h.frames == old(h.frames) + PathFrames(name, p)
  {
    var components := PortableComponents(p, mustBeAbsolute);
    if components.Err? {
      return Err(components.error);
    }
    h.Frame(name);
    h.Frame(Flag(IsAbsolute(p)));
    h.UInt64(PATH_COMPONENT_COUNT_LABEL, |components.value|);
    EncodeNames(h, components.value);
    Associate(old(h.frames), PathHead(name, p), components.value);
    return Ok(());
  }

  method EncodeScope(h: CanonicalHasher, scope: Scope) returns (r: Result<(), PathFault>)
    requires h.Valid()
    modifies h
    ensures h.Valid()
    ensures r.Ok? <==> ScopeEncodable(scope)
    ensures r.Ok? ==> h.frames == old(h.frames) + ScopeFrames(scope)
  {
    match scope {
      case Workspace =>
        h.Tag(SCOPE_KIND_LABEL, 0);
        r := Ok(());
      case Relative(path) =>
        h.Tag(SCOPE_KIND_LABEL, 1);
        r := EncodePath(h, SCOPE_PATH_LABEL, path, false);
        assert r.Ok? ==> h.frames == old(h.frames) + ScopeFrames(scope);
    }
  }

  lemma {:induction false} EachScopeNext(start: seq<Text>, scopes: seq<Scope>, i: nat)
    requires i < |scopes|
    ensures start + EachScope(scopes, i) + ScopeFrames(scopes[i]) == start + EachScope(scopes, i + 1)
  {
  }

  lemma {:induction false} ScopesWhole(before: seq<Text>, name: Text, scopes: Scopes)
    ensures before + [name, U64Bytes(|scopes|)] + EachScope(scopes, |scopes|) == before + ScopesFrames(name, scopes)
  {
  }

  method EncodeScopes(h: CanonicalHasher, name: Text, scopes: Scopes) returns (r: Result<(), PathFault>)
    requires h.Valid()
    modifies h
    ensures h.Valid()
    ensures r.Ok? <==> ScopesEncodable(scopes)
    ensures r.Ok? ==> h.frames == old(h.frames) + ScopesFrames(name, scopes)
  {
    h.UInt64(name, |scopes|);
    ghost var start := h.frames;
    for i := 0 to |scopes|
      invariant h.Valid() && h.frames == start + EachScope(scopes, i)
      invariant forall k :: 0 <= k < i ==> ScopeEncodable(scopes[k])
    {
      r := EncodeScope(h, scopes[i]);
      if r.Err? {
        return;
      }
      EachScopeNext(start, scopes, i);
    }
    ScopesWhole(old(h.frames), name, scopes);
    return Ok(());
  }

  method EncodeVariable(h: CanonicalHasher, v: Variable)
    requires h.Valid()
    modifies h
    ensures h.Valid() && h.frames == old(h.frames) + VariableFrames(v)
  {
    h.String(ENVIRONMENT_NAME_LABEL, v.name);
    h.String(ENVIRONMENT_VALUE_LABEL, v.value);
  }

  lemma {:induction false} EachVariableNext(start: seq<Text>, environment: seq<Variable>, i: nat)
    requires i < |environment|
    ensures start + EachVariable(environment, i) + VariableFrames(environment[i])
      == start + EachVariable(environment, i + 1)
  {
  }

  method EncodeEnvironment(h: CanonicalHasher, environment: Environment)
    requires h.Valid()
    modifies h
    ensures h.Valid() && h.frames == old(h.frames) + EnvironmentFrames(environment)
  {
    h.UInt64(ENVIRONMENT_COUNT_LABEL, |environment|);
    ghost var start := h.frames;
    for i := 0 to |environment|
      invariant h.Valid() && h.frames == start + EachVariable(environment, i)
    {
      EncodeVariable(h, environment[i]);
      EachVariableNext(start, environment, i);
    }
  }

  method EncodeLimits(h: CanonicalHasher, p: Policy)
    requires h.Valid()
    modifies h
    ensures h.Valid() && h.frames == old(h.frames) + LimitFrames(p)
  {
    h.Tag(NETWORK_LABEL, if p.network.NoNetwork? then 0 else 1);
    h.Tag(MUTATION_MODE_LABEL, if p.mutationMode.ReadOnly? then 0 else 1);
    h.UInt64(WALL_TIME_MS_LABEL, p.wallTimeMs);
    h.UInt64(MAX_OUTPUT_BYTES_LABEL, p.maxOutputBytes);
    h.UInt32(MAX_PROCESSES_LABEL, p.maxProcesses);
  }

  method EncodeOptions(h: CanonicalHasher, p: Policy)
    requires h.Valid()
    modifies h
    ensures h.Valid() && h.frames == old(h.frames) + (MemoryFrames(p.maxMemoryBytes) + ApprovalFrames(p.approvalId))
  {
    match p.maxMemoryBytes {
      case None => h.Tag(MAX_MEMORY_BYTES_PRESENCE_LABEL, 0);
      case Some(bytes) =>
        h.Tag(MAX_MEMORY_BYTES_PRESENCE_LABEL, 1);
        h.UInt64(MAX_MEMORY_BYTES_LABEL, bytes);
    }
    assert h.frames == old(h.frames) + MemoryFrames(p.maxMemoryBytes);
    match p.approvalId {
      case None => h.Tag(APPROVAL_ID_PRESENCE_LABEL, 0);
      case Some(id) =>
        h.Tag(APPROVAL_ID_PRESENCE_LABEL, 1);
        h.String(APPROVAL_ID_LABEL, id);
    }
  }

  /** Read scopes, write scopes, environment and limits, in canonical order. */
  method EncodeLists(h: CanonicalHasher, p: Policy) returns (r: Result<(), PathFault>)
    requires h.Valid()
    modifies h
    ensures h.Valid()
    ensures r.Ok? <==> ScopesEncodable(SortScopes(p.readScopes)) && ScopesEncodable(SortScopes(p.writeScopes))
    ensures r.Ok? ==>
      h.frames == old(h.frames) + (ScopesFrames(READ_SCOPES_LABEL, SortScopes(p.readScopes)) + FromWrites(Canonical(p)))
  {
    r := EncodeScopes(h, READ_SCOPES_LABEL, SortScopes(p.readScopes));
    if r.Err? {
      return;
    }
    r := EncodeScopes(h, WRITE_SCOPES_LABEL, SortScopes(p.writeScopes));
    if r.Err? {
      return;
    }
    EncodeEnvironment(h, SortEnvironment(p.environment));
    EncodeLimits(h, p);
    EncodeOptions(h, p);
    ListsAssociate(old(h.frames), Canonical(p));
  }

  lemma {:induction false} ListsAssociate(before: seq<Text>, p: Policy)
    ensures
      before + ScopesFrames(READ_SCOPES_LABEL, p.readScopes) + ScopesFrames(WRITE_SCOPES_LABEL, p.writeScopes)
      + EnvironmentFrames(p.environment) + LimitFrames(p)
      + (MemoryFrames(p.maxMemoryBytes) + ApprovalFrames(p.approvalId))
      == before + (ScopesFrames(READ_SCOPES_LABEL, p.readScopes) + FromWrites(p))
  {
    AssociateFive(before, ScopesFrames(READ_SCOPES_LABEL, p.readScopes),
                  ScopesFrames(WRITE_SCOPES_LABEL, p.writeScopes),
                  EnvironmentFrames(p.environment), LimitFrames(p),
                  MemoryFrames(p.maxMemoryBytes) + ApprovalFrames(p.approvalId));
  }

  lemma {:induction false} AssociateFive<T>(before: seq<T>, a: seq<T>, b: seq<T>, c: seq<T>, d: seq<T>, e: seq<T>)
    ensures before + a + b + c + d + e == before + (a + (b + (c + (d + e))))
  {
    Associate(c, d, e);
    Associate(b, c, d + e);
    Associate(a, b, c + (d + e));
    Associate(before, a, b + (c + (d + e)));
  }

  /** Everything after the head: the root, then the lists. */
  method EncodeBody(h: CanonicalHasher, p: Policy) returns (r: Result<(), PathFault>)
    requires h.Valid()
    modifies h
    ensures h.Valid()
    ensures r.Ok? <==> PolicyEncodable(Canonical(p))
    ensures r.Ok? ==> h.frames == old(h.frames) + FromRoot(Canonical(p))
  {
    r := EncodePath(h, WORKSPACE_ROOT_LABEL, p.root, true);
    if r.Err? {
      return;
    }
    r := EncodeLists(h, p);
    RootAssociates(old(h.frames), Canonical(p));
  }

  lemma {:induction false} RootAssociates(before: seq<Text>, p: Policy)
    ensures
      before + PathFrames(WORKSPACE_ROOT_LABEL, p.root)
      + (ScopesFrames(READ_SCOPES_LABEL, p.readScopes) + FromWrites(p))
      == before + FromRoot(p)
  {
  }

  method EncodeHead(p: Policy) returns (h: CanonicalHasher)
    ensures fresh(h) && h.Valid() && h.frames == HeadFrames(p)
  {
    h := new CanonicalHasher(POLICY_DOMAIN);
    h.String(POLICY_ID_LABEL, p.policyId);
    h.String(GRANT_HASH_LABEL, p.grantHash);
  }

  /** `canonical_policy_hash`, up to the hash function itself. */
  method EncodePolicy(p: Policy) returns (r: Result<ByteString, PathFault>)
    ensures r.Ok? <==> PolicyEncodable(p)
    ensures r.Ok? ==> r.value == Preimage(p)
  {
    EncodableCanonical(p);
    var h := EncodeHead(Canonical(p));
    var encoded := EncodeBody(h, p);
    if encoded.Err? {
      return Err(encoded.error);
    }
    return Ok(h.input);
  }

  // ---------- compilation ----------

  datatype CompileFault = UnsoundGrant | Unacceptable | Unencodable(fault: PathFault) | HashMismatch

  datatype Compiled = Compiled(policy: Policy, policyHash: Text)

  /** What a request compiles to, if it does: its canonical policy under the hash of its encoding. */
  function CompilesTo(requested: Policy, acceptable: Policy -> bool, hash: ByteString -> Text): Option<Compiled> {
    if acceptable(Canonical(requested)) && PolicyEncodable(requested)
    then Some(Compiled(Canonical(requested), hash(Preimage(requested))))
    else None
  }

  /**
   * `compile`, for the policy that a request and its grant describe: `grantSound` is the grant's own integrity and
   * `acceptable` the production check on the sorted policy under that grant.
   */
  method Compile(requested: Policy, grantSound: bool, acceptable: Policy -> bool, hash: ByteString -> Text)
    returns (r: Result<Compiled, CompileFault>)
    ensures r.Ok? <==> grantSound && CompilesTo(requested, acceptable, hash).Some?
    ensures r.Ok? ==> CompilesTo(requested, acceptable, hash) == Some(r.value)
    ensures r.Err? ==> r.error != HashMismatch
  {
    if !grantSound {
      return Err(UnsoundGrant);
    }
    var policy := Canonical(requested);
    assert SameUpToOrder(policy, requested);
    CanonicalForgetsOrder(policy, requested);
    EncodableCanonical(requested);
    if !acceptable(policy) {
      return Err(Unacceptable);
    }
    var encoded := EncodePolicy(policy);
    if encoded.Err? {
      return Err(Unencodable(encoded.error));
    }
    var policyHash := hash(encoded.value);
    var again := EncodePolicy(policy);
    if !grantSound || !acceptable(policy) || again.Err? || hash(again.value) != policyHash {
      return Err(HashMismatch);
    }
    return Ok(Compiled(policy, policyHash));
  }

  /** Requests that differ only in list order compile to the same thing. */
  lemma {:induction false} CompileForgetsOrder(p: Policy, q: Policy, acceptable: Policy -> bool,
                                               hash: ByteString -> Text)
    requires SameUpToOrder(p, q)
    ensures CompilesTo(p, acceptable, hash) == CompilesTo(q, acceptable, hash)
  {
    CanonicalForgetsOrder(p, q);
    ReorderedAlike(p, q);
  }

  /**
   * Only they do: requests that compile to one policy, or to one hash without a collision, differ only in list order.
   */
  lemma {:induction false} CompileSeparates(p: Policy, q: Policy, acceptable: Policy -> bool, hash: ByteString -> Text)
    requires CompilesTo(p, acceptable, hash).Some? && CompilesTo(q, acceptable, hash).Some?
    ensures var a, b := CompilesTo(p, acceptable, hash).value, CompilesTo(q, acceptable, hash).value;
      && (a.policy == b.policy <==> SameUpToOrder(p, q))
      && (a.policyHash == b.policyHash <==> SameUpToOrder(p, q) || HashCollides(hash, Preimage(p), Preimage(q)))
  {
    CanonicalForgetsOrder(p, q);
    PreimageExact(p, q);
  }

  lemma {:induction false} ReorderedAlike(p: Policy, q: Policy)
    ensures SameUpToOrder(p, q) ==> (PolicyEncodable(p) <==> PolicyEncodable(q)) && Preimage(p) == Preimage(q)
  {
    CanonicalForgetsOrder(p, q);
    EncodableCanonical(p);
    EncodableCanonical(q);
  }

  predicate HashCollides(hash: ByteString -> Text, a: ByteString, b: ByteString) {
    a != b && hash(a) == hash(b)
  }
}
