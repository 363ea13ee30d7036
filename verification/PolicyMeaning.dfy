/** The hash inputs of policies and grants, frame by frame (trust.rs). */
module PolicyMeaning {
  import opened Bytes
  import opened Framing
  import opened PolicyOrder
  import opened PolicyEncoding
  import opened GrantEncoding

  /** What one frame holds: a label, bytes as they are, one byte, or a number in eight or four bytes. */
  datatype Field = Label(text: string) | Raw(bytes: Text) | Octet(value: int) | Eight(number: int) | Four(number: int)

  ghost predicate Holds(frame: Text, field: Field) {
    match field
    case Label(text) => Spells(frame, text)
    case Raw(bytes) => frame == bytes
    case Octet(value) => |frame| == 1 && frame[0] as int == value
    case Eight(number) => |frame| == 8 && EightByteValue(frame) == number
    case Four(number) => |frame| == 4 && FourByteValue(frame) == number
  }

  ghost predicate HoldAll(frames: seq<Text>, fields: seq<Field>) {
    |frames| == |fields| && forall i :: 0 <= i < |frames| ==> Holds(frames[i], fields[i])
  }

  // ---------- what a policy is written as ----------

  /** Every component is a name. */
  ghost predicate AllNormal(p: seq<Component>) {
    forall i :: 0 <= i < |p| ==> p[i].Normal?
  }

  ghost function NameFields(p: seq<Component>): (fields: seq<Field>)
    requires AllNormal(p)
  {
    if p == [] then [] else [Raw(p[0].name)] + NameFields(p[1..])
  }

  /** Flag 1 and the names after the root, or flag 0 and all names. */
  ghost function RootFields(name: string, p: NativePath): seq<Field>
    requires p != [] && AllNormal(p[1..])
  {
    [Label(name), Octet(1), Label("path_component_count"), Eight(|p| - 1)] + NameFields(p[1..])
  }

  ghost function RelativeFields(name: string, p: NativePath): seq<Field>
    requires AllNormal(p)
  {
    [Label(name), Octet(0), Label("path_component_count"), Eight(|p|)] + NameFields(p)
  }

  ghost predicate ScopeStands(s: Scope) {
    s.Relative? ==> s.path != [] && AllNormal(s.path)
  }

  ghost predicate ScopesStand(scopes: seq<Scope>) {
    forall s :: s in scopes ==> ScopeStands(s)
  }

  ghost function ScopeFields(s: Scope): seq<Field>
    requires ScopeStands(s)
  {
    match s
    case Workspace => [Label("scope_kind"), Octet(0)]
    case Relative(path) => [Label("scope_kind"), Octet(1)] + RelativeFields("scope_path", path)
  }

  ghost function EachScopeFields(scopes: seq<Scope>): seq<Field>
    requires ScopesStand(scopes)
  {
    if scopes == [] then [] else ScopeFields(scopes[0]) + EachScopeFields(scopes[1..])
  }

  ghost function ListFields(name: string, scopes: seq<Scope>): seq<Field>
    requires ScopesStand(scopes)
  {
    [Label(name), Eight(|scopes|)] + EachScopeFields(scopes)
  }

  ghost function VariableFields(v: Variable): seq<Field> {
    [Label("environment_name"), Raw(v.name), Label("environment_value"), Raw(v.value)]
  }

  ghost function EachVariableFields(environment: seq<Variable>): seq<Field> {
    if environment == [] then [] else VariableFields(environment[0]) + EachVariableFields(environment[1..])
  }

  ghost function LimitFields(p: Policy): seq<Field> {
    [Label("network"), Octet(match p.network case NoNetwork => 0 case FullForAction => 1),
     Label("mutation_mode"), Octet(match p.mutationMode case ReadOnly => 0 case ShadowWorkspace => 1),
     Label("wall_time_ms"), Eight(p.wallTimeMs), Label("max_output_bytes"), Eight(p.maxOutputBytes),
     Label("max_processes"), Four(p.maxProcesses)]
  }

  ghost function OptionFields(p: Policy): seq<Field> {
    (match p.maxMemoryBytes
     case None => [Label("max_memory_bytes_presence"), Octet(0)]
     case Some(bytes) =>
       [Label("max_memory_bytes_presence"), Octet(1), Label("max_memory_bytes"), Eight(bytes)])
    + (match p.approvalId
       case None => [Label("approval_id_presence"), Octet(0)]
       case Some(id) => [Label("approval_id_presence"), Octet(1), Label("approval_id"), Raw(id)])
  }

  /** An absolute root of plain names, and scopes that are the workspace or nonempty relative paths of plain names. */
  ghost predicate PolicyStands(p: Policy) {
    && p.root != [] && p.root[0] == RootDir && AllNormal(p.root[1..])
    && ScopesStand(p.readScopes) && ScopesStand(p.writeScopes)
  }

  /** The fields of a policy, in the order they are hashed. */
  ghost function PolicyFields(p: Policy): seq<Field>
    requires PolicyStands(p)
  {
    [Label("grok-build/execution-policy/v1"), Label("policy_id"), Raw(p.policyId), Label("grant_hash"),
     Raw(p.grantHash)]
    + RootFields("workspace_root", p.root)
    + ListFields("read_scopes", p.readScopes)
    + ListFields("write_scopes", p.writeScopes)
    + [Label("environment_count"), Eight(|p.environment|)] + EachVariableFields(p.environment)
    + LimitFields(p) + OptionFields(p)
  }

  // ---------- the encoder writes exactly that ----------

  lemma {:induction false} HoldConcat(a: seq<Text>, b: seq<Text>, fieldsA: seq<Field>, fieldsB: seq<Field>)
    requires HoldAll(a, fieldsA) && HoldAll(b, fieldsB)
    ensures HoldAll(a + b, fieldsA + fieldsB)
  {
  }

  lemma {:induction false} EightHolds(value: U64)
    ensures Holds(U64Bytes(value), Eight(value))
  {
    U64Range();
    EightBytesExactly(value);
  }

  lemma {:induction false} FourHolds(value: U32)
    ensures Holds(U32Bytes(value), Four(value))
  {
    U64Range();
    FourBytesExactly(value);
  }

  lemma {:induction false} RelativeNames(p: NativePath)
    requires AllNormal(p)
    ensures HoldAll(Names(p, |p|), NameFields(p)) && |Names(p, |p|)| == |p|
  {
    if p != [] {
      NamesOf(p, |p|);
      NameFieldsAt(p);
    }
  }

  lemma {:induction false} NameFieldsAt(p: seq<Component>)
    requires AllNormal(p)
    ensures |NameFields(p)| == |p| && forall i :: 0 <= i < |p| ==> NameFields(p)[i] == Raw(p[i].name)
  {
    if p != [] {
      NameFieldsAt(p[1..]);
      forall i | 0 <= i < |p| ensures NameFields(p)[i] == Raw(p[i].name) {
        assert i > 0 ==> p[1..][i - 1] == p[i];
      }
    }
  }

  lemma {:induction false} NamesOf(p: NativePath, n: nat)
    requires AllNormal(p) && n <= |p|
    ensures |Names(p, n)| == n && forall i :: 0 <= i < n ==> Names(p, n)[i] == p[i].name
  {
    if n > 0 {
      NamesOf(p, n - 1);
    }
  }

  lemma {:induction false} RootNames(p: NativePath)
    requires p != [] && p[0] == RootDir && AllNormal(p[1..])
    ensures HoldAll(Names(p, |p|), NameFields(p[1..])) && |Names(p, |p|)| == |p| - 1
  {
    forall i | 0 < i < |p| ensures p[i].Normal? {
      assert p[1..][i - 1] == p[i];
    }
    NamesAt(p, true, |p|);
    NameFieldsAt(p[1..]);
    forall i | 0 <= i < |p| - 1 ensures Names(p, |p|)[i] == p[1..][i].name {
      assert p[i + 1] == Normal(Names(p, |p|)[i]);
    }
  }

  lemma {:induction false} PathLabels()
    ensures Holds(PATH_COMPONENT_COUNT_LABEL, Label("path_component_count"))
    ensures Holds(WORKSPACE_ROOT_LABEL, Label("workspace_root")) && Holds(SCOPE_PATH_LABEL, Label("scope_path"))
    ensures Holds(SCOPE_KIND_LABEL, Label("scope_kind"))
  {
    AsciiSpells("path_component_count");
    AsciiSpells("workspace_root");
    AsciiSpells("scope_path");
    AsciiSpells("scope_kind");
  }

  lemma {:induction false} ListLabels()
    ensures Holds(READ_SCOPES_LABEL, Label("read_scopes")) && Holds(WRITE_SCOPES_LABEL, Label("write_scopes"))
    ensures Holds(ENVIRONMENT_COUNT_LABEL, Label("environment_count"))
    ensures Holds(ENVIRONMENT_NAME_LABEL, Label("environment_name"))
    ensures Holds(ENVIRONMENT_VALUE_LABEL, Label("environment_value"))
  {
    AsciiSpells("read_scopes");
    AsciiSpells("write_scopes");
    AsciiSpells("environment_count");
    AsciiSpells("environment_name");
    AsciiSpells("environment_value");
  }

  lemma {:induction false} LimitLabels()
    ensures Holds(NETWORK_LABEL, Label("network")) && Holds(MUTATION_MODE_LABEL, Label("mutation_mode"))
    ensures Holds(WALL_TIME_MS_LABEL, Label("wall_time_ms"))
    ensures Holds(MAX_OUTPUT_BYTES_LABEL, Label("max_output_bytes"))
    ensures Holds(MAX_PROCESSES_LABEL, Label("max_processes"))
  {
    AsciiSpells("network");
    AsciiSpells("mutation_mode");
    AsciiSpells("wall_time_ms");
    AsciiSpells("max_output_bytes");
    AsciiSpells("max_processes");
  }

  lemma {:induction false} OptionLabels()
    ensures Holds(MAX_MEMORY_BYTES_PRESENCE_LABEL, Label("max_memory_bytes_presence"))
    ensures Holds(MAX_MEMORY_BYTES_LABEL, Label("max_memory_bytes"))
    ensures Holds(APPROVAL_ID_PRESENCE_LABEL, Label("approval_id_presence"))
    ensures Holds(APPROVAL_ID_LABEL, Label("approval_id"))
  {
    AsciiSpells("max_memory_bytes_presence");
    AsciiSpells("max_memory_bytes");
    AsciiSpells("approval_id_presence");
    AsciiSpells("approval_id");
  }

  lemma {:induction false} HeadLabels()
    ensures Holds(POLICY_DOMAIN, Label("grok-build/execution-policy/v1"))
    ensures Holds(POLICY_ID_LABEL, Label("policy_id")) && Holds(GRANT_HASH_LABEL, Label("grant_hash"))
  {
    AsciiSpells("grok-build/execution-policy/v1");
    AsciiSpells("policy_id");
    AsciiSpells("grant_hash");
  }

  lemma {:induction false} RootFrames(title: Text, name: string, p: NativePath)
    requires p != [] && p[0] == RootDir && AllNormal(p[1..]) && Holds(title, Label(name))
    ensures HoldAll(PathFrames(title, p), RootFields(name, p))
  {
    PathLabels();
    RootNames(p);
    EightHolds(|p| - 1);
    HoldConcat(PathHead(title, p), Names(p, |p|),
               [Label(name), Octet(1), Label("path_component_count"), Eight(|p| - 1)], NameFields(p[1..]));
  }

  lemma {:induction false} RelativeFrames(title: Text, name: string, p: NativePath)
    requires p != [] && AllNormal(p) && Holds(title, Label(name))
    ensures HoldAll(PathFrames(title, p), RelativeFields(name, p))
  {
    PathLabels();
    RelativeNames(p);
    EightHolds(|p|);
    HoldConcat(PathHead(title, p), Names(p, |p|),
               [Label(name), Octet(0), Label("path_component_count"), Eight(|p|)], NameFields(p));
  }

  lemma {:induction false} ScopeHolds(s: Scope)
    requires ScopeStands(s)
    ensures HoldAll(ScopeFrames(s), ScopeFields(s))
  {
    PathLabels();
    if s.Relative? {
      RelativeFrames(SCOPE_PATH_LABEL, "scope_path", s.path);
      HoldConcat([SCOPE_KIND_LABEL, [1]], PathFrames(SCOPE_PATH_LABEL, s.path), [Label("scope_kind"), Octet(1)],
                 RelativeFields("scope_path", s.path));
    }
  }

  lemma {:induction false} EachScopeHolds(scopes: seq<Scope>)
    requires ScopesStand(scopes)
    ensures HoldAll(EachScope(scopes, |scopes|), EachScopeFields(scopes))
  {
    if scopes != [] {
      ScopeHolds(scopes[0]);
      EachScopeHolds(scopes[1..]);
      EachScopeFirst(scopes, |scopes|);
      HoldConcat(ScopeFrames(scopes[0]), EachScope(scopes[1..], |scopes| - 1), ScopeFields(scopes[0]),
                 EachScopeFields(scopes[1..]));
    }
  }

  lemma {:induction false} ListHolds(title: Text, name: string, scopes: Scopes)
    requires ScopesStand(scopes) && Holds(title, Label(name))
    ensures HoldAll(ScopesFrames(title, scopes), ListFields(name, scopes))
  {
    EightHolds(|scopes|);
    EachScopeHolds(scopes);
    HoldConcat([title, U64Bytes(|scopes|)], EachScope(scopes, |scopes|), [Label(name), Eight(|scopes|)],
               EachScopeFields(scopes));
  }

  lemma {:induction false} EachVariableFirst(environment: seq<Variable>, n: nat)
    requires 0 < n <= |environment|
    ensures EachVariable(environment, n) == VariableFrames(environment[0]) + EachVariable(environment[1..], n - 1)
  {
    if n > 1 {
      EachVariableFirst(environment, n - 1);
      assert environment[1..][n - 2] == environment[n - 1];
    }
  }

  lemma {:induction false} EachVariableHolds(environment: seq<Variable>)
    ensures HoldAll(EachVariable(environment, |environment|), EachVariableFields(environment))
  {
    if environment != [] {
      ListLabels();
      EachVariableHolds(environment[1..]);
      EachVariableFirst(environment, |environment|);
      HoldConcat(VariableFrames(environment[0]), EachVariable(environment[1..], |environment| - 1),
                 VariableFields(environment[0]), EachVariableFields(environment[1..]));
    }
  }

  lemma {:induction false} EnvironmentHolds(environment: Environment)
    ensures HoldAll(EnvironmentFrames(environment),
                    [Label("environment_count"), Eight(|environment|)] + EachVariableFields(environment))
  {
    ListLabels();
    EightHolds(|environment|);
    EachVariableHolds(environment);
    HoldConcat([ENVIRONMENT_COUNT_LABEL, U64Bytes(|environment|)], EachVariable(environment, |environment|),
               [Label("environment_count"), Eight(|environment|)], EachVariableFields(environment));
  }

  lemma {:induction false} LimitsHold(p: Policy)
    ensures HoldAll(LimitFrames(p), LimitFields(p))
  {
    LimitLabels();
    EightHolds(p.wallTimeMs);
    EightHolds(p.maxOutputBytes);
    FourHolds(p.maxProcesses);
  }

  lemma {:induction false} OptionsHold(p: Policy)
    ensures HoldAll(MemoryFrames(p.maxMemoryBytes) + ApprovalFrames(p.approvalId), OptionFields(p))
  {
    OptionLabels();
    if p.maxMemoryBytes.Some? { EightHolds(p.maxMemoryBytes.value); }
  }

  lemma {:induction false} HeadHolds(p: Policy)
    ensures HoldAll(HeadFrames(p), [Label("grok-build/execution-policy/v1"), Label("policy_id"), Raw(p.policyId),
                                    Label("grant_hash"), Raw(p.grantHash)])
  {
    HeadLabels();
  }

  lemma {:induction false} OrderedHold(p: Policy)
    requires PolicyStands(p)
    ensures HoldAll(OrderedFrames(p), PolicyFields(p))
  {
    PathLabels();
    ListLabels();
    HeadHolds(p);
    RootFrames(WORKSPACE_ROOT_LABEL, "workspace_root", p.root);
    ListHolds(READ_SCOPES_LABEL, "read_scopes", p.readScopes);
    ListHolds(WRITE_SCOPES_LABEL, "write_scopes", p.writeScopes);
    EnvironmentHolds(p.environment);
    LimitsHold(p);
    OptionsHold(p);
    PartsHold(p);
  }

  lemma {:induction false} PartsHold(p: Policy)
    requires PolicyStands(p)
    requires HoldAll(HeadFrames(p), [Label("grok-build/execution-policy/v1"), Label("policy_id"), Raw(p.policyId),
                                     Label("grant_hash"), Raw(p.grantHash)])
    requires HoldAll(PathFrames(WORKSPACE_ROOT_LABEL, p.root), RootFields("workspace_root", p.root))
    requires HoldAll(ScopesFrames(READ_SCOPES_LABEL, p.readScopes), ListFields("read_scopes", p.readScopes))
    requires HoldAll(ScopesFrames(WRITE_SCOPES_LABEL, p.writeScopes), ListFields("write_scopes", p.writeScopes))
    requires HoldAll(EnvironmentFrames(p.environment),
                     [Label("environment_count"), Eight(|p.environment|)] + EachVariableFields(p.environment))
    requires HoldAll(LimitFrames(p), LimitFields(p))
    requires HoldAll(MemoryFrames(p.maxMemoryBytes) + ApprovalFrames(p.approvalId), OptionFields(p))
    ensures HoldAll(OrderedFrames(p), PolicyFields(p))
  {
    var head := [Label("grok-build/execution-policy/v1"), Label("policy_id"), Raw(p.policyId), Label("grant_hash"),
                 Raw(p.grantHash)];
    var root, readable, writable := RootFields("workspace_root", p.root), ListFields("read_scopes", p.readScopes),
      ListFields("write_scopes", p.writeScopes);
    var count, each := [Label("environment_count"), Eight(|p.environment|)], EachVariableFields(p.environment);
    var environment, limits, options := count + each, LimitFields(p), OptionFields(p);
    HoldConcat(LimitFrames(p), MemoryFrames(p.maxMemoryBytes) + ApprovalFrames(p.approvalId), limits, options);
    HoldConcat(EnvironmentFrames(p.environment), FromLimits(p), environment, limits + options);
    HoldConcat(ScopesFrames(WRITE_SCOPES_LABEL, p.writeScopes), EnvironmentFrames(p.environment) + FromLimits(p),
               writable,
               environment + (limits + options));
    HoldConcat(ScopesFrames(READ_SCOPES_LABEL, p.readScopes), FromWrites(p), readable,
               writable + (environment + (limits + options)));
    HoldConcat(PathFrames(WORKSPACE_ROOT_LABEL, p.root), ScopesFrames(READ_SCOPES_LABEL, p.readScopes) + FromWrites(p),
               root, readable + (writable + (environment + (limits + options))));
    HoldConcat(HeadFrames(p), FromRoot(p), head, root + (readable + (writable + (environment + (limits + options)))));
    Regrouped(head, root, readable, writable, count, each, limits, options);
  }

  lemma {:induction false} Regrouped<T>(a: seq<T>, b: seq<T>, c: seq<T>, d: seq<T>, e: seq<T>, f: seq<T>, g: seq<T>,
                                        h: seq<T>)
    ensures a + b + c + d + e + f + g + h == a + (b + (c + (d + ((e + f) + (g + h)))))
  {
    Associate(a + b + c + d, e, f);
    Associate(a + b + c + d + (e + f), g, h);
    Associate(a + b + c + d, e + f, g + h);
    Associate(a + b + c, d, (e + f) + (g + h));
    Associate(a + b, c, d + ((e + f) + (g + h)));
    Associate(a, b, c + (d + ((e + f) + (g + h))));
  }

  lemma {:induction false} RelativeExactly(s: Scope)
    ensures ScopeEncodable(s) <==> ScopeStands(s)
  {
  }

  lemma {:induction false} ScopesExactly(scopes: seq<Scope>)
    ensures ScopesEncodable(scopes) <==> ScopesStand(scopes)
  {
    forall i | 0 <= i < |scopes|
      ensures scopes[i] in scopes && (ScopeEncodable(scopes[i]) <==> ScopeStands(scopes[i]))
    {
      RelativeExactly(scopes[i]);
    }
  }

  lemma {:induction false} RootExactly(p: NativePath)
    ensures NormalPath(p, true) <==> p != [] && p[0] == RootDir && AllNormal(p[1..])
  {
    if p != [] {
      forall i | 0 < i < |p| ensures p[i] == p[1..][i - 1] {
      }
    }
  }

  /** The policies that can be encoded. */
  lemma {:induction false} EncodableExactly(p: Policy)
    ensures PolicyEncodable(p) <==> PolicyStands(p)
  {
    RootExactly(p.root);
    ScopesExactly(p.readScopes);
    ScopesExactly(p.writeScopes);
  }

  /** A policy with the same content and its three lists in order. */
  ghost predicate Ordered(p: Policy, q: Policy) {
    && q.policyId == p.policyId && q.grantHash == p.grantHash && q.root == p.root
    && q.network == p.network && q.mutationMode == p.mutationMode && q.wallTimeMs == p.wallTimeMs
    && q.maxOutputBytes == p.maxOutputBytes && q.maxProcesses == p.maxProcesses
    && q.maxMemoryBytes == p.maxMemoryBytes && q.approvalId == p.approvalId
    && multiset(q.readScopes) == multiset(p.readScopes) && ScopesInOrder(q.readScopes)
    && multiset(q.writeScopes) == multiset(p.writeScopes) && ScopesInOrder(q.writeScopes)
    && multiset(q.environment) == multiset(p.environment) && EnvironmentInOrder(q.environment)
  }

  /** The hash input of a policy: the fields of the policy in canonical order, each in its frame. */
  ghost predicate WrittenAs(b: ByteString, q: Policy) {
    PolicyStands(q) && exists frames :: Framed(b, frames) && HoldAll(frames, PolicyFields(q))
  }

  lemma {:induction false} CanonicalOrdered(p: Policy)
    ensures Ordered(p, Canonical(p))
  {
    CanonicalInOrder(p);
  }

  lemma {:induction false} PreimageWritten(p: Policy)
    requires PolicyEncodable(p)
    ensures WrittenAs(Preimage(p), Canonical(p))
  {
    EncodableCanonical(p);
    EncodableExactly(Canonical(p));
    OrderedHold(Canonical(p));
    FlattenLayout(OrderedFrames(Canonical(p)));
  }

  /** A request compiles exactly when it can be written; then to its ordered form, under the hash of that as written. */
  lemma {:induction false} CompiledExactly(requested: Policy, acceptable: Policy -> bool, hash: ByteString -> Text)
    ensures var compiled := CompilesTo(requested, acceptable, hash);
      && (compiled.Some? <==> PolicyStands(requested) && acceptable(Canonical(requested)))
      && Ordered(requested, Canonical(requested))
      && (compiled.Some? ==>
           && compiled.value.policy == Canonical(requested)
           && exists b :: WrittenAs(b, compiled.value.policy) && compiled.value.policyHash == hash(b))
  {
    CanonicalOrdered(requested);
    EncodableExactly(requested);
    if PolicyEncodable(requested) {
      PreimageWritten(requested);
    }
  }

  // ---------- grants ----------

  ghost function IdentityFields(d: Identity): seq<Field> {
    [Label("root_device_id"), Eight(d.deviceId), Label("root_inode"), Eight(d.inode)]
  }

  ghost function PermissionFields(p: Permissions): seq<Field> {
    [Label("permission_read"), Octet(if p.read then 1 else 0),
     Label("permission_write_regular_files"), Octet(if p.writeRegularFiles then 1 else 0),
     Label("permission_execute_commands"), Octet(if p.executeCommands then 1 else 0),
     Label("permission_integrate_changes"), Octet(if p.integrateChanges then 1 else 0),
     Label("permission_apply_verified_changes"), Octet(if p.applyVerifiedChanges then 1 else 0)]
  }

  ghost function VersionFields(g: Grant): seq<Field> {
    [Label("network"), Octet(if g.networkAllowed then 1 else 0), Label("policy_version"), Four(g.policyVersion)]
  }

  ghost function GrantFields(g: Grant, d: Identity): seq<Field>
    requires g.canonicalRoot != [] && AllNormal(g.canonicalRoot[1..])
  {
    [Label("grok-build/workspace-grant/v1"), Label("grant_id"), Raw(g.grantId)]
    + RootFields("canonical_root", g.canonicalRoot) + IdentityFields(d) + PermissionFields(g.permissions)
    + VersionFields(g)
  }

  lemma {:induction false} GrantHeadHolds(g: Grant)
    ensures HoldAll(GrantHead(g), [Label("grok-build/workspace-grant/v1"), Label("grant_id"), Raw(g.grantId)])
  {
    AsciiSpells("grok-build/workspace-grant/v1");
    AsciiSpells("grant_id");
  }

  lemma {:induction false} IdentityHolds(d: Identity)
    ensures HoldAll(IdentityFrames(d), IdentityFields(d))
  {
    AsciiSpells("root_device_id");
    AsciiSpells("root_inode");
    EightHolds(d.deviceId);
    EightHolds(d.inode);
  }

  lemma {:induction false} FlagHolds(value: bool)
    ensures Holds(Flag(value), Octet(if value then 1 else 0))
  {
  }

  lemma {:induction false} ReadLabels()
    ensures Holds(PERMISSION_READ_LABEL, Label("permission_read"))
    ensures Holds(PERMISSION_WRITE_LABEL, Label("permission_write_regular_files"))
  {
    AsciiSpells("permission_read");
    AsciiSpells("permission_write_regular_files");
  }

  lemma {:induction false} ExecuteLabel()
    ensures Holds(PERMISSION_EXECUTE_LABEL, Label("permission_execute_commands"))
  {
    AsciiSpells("permission_execute_commands");
  }

  lemma {:induction false} IntegrateLabel()
    ensures Holds(PERMISSION_INTEGRATE_LABEL, Label("permission_integrate_changes"))
  {
    AsciiSpells("permission_integrate_changes");
  }

  lemma {:induction false} ApplyLabel()
    ensures Holds(PERMISSION_APPLY_LABEL, Label("permission_apply_verified_changes"))
  {
    AsciiSpells("permission_apply_verified_changes");
  }

  lemma {:induction false} PermissionsHold(p: Permissions)
    ensures HoldAll(PermissionFrames(p), PermissionFields(p))
  {
    ReadLabels();
    ExecuteLabel();
    IntegrateLabel();
    ApplyLabel();
    FlagHolds(p.read);
    FlagHolds(p.writeRegularFiles);
    FlagHolds(p.executeCommands);
    FlagHolds(p.integrateChanges);
    FlagHolds(p.applyVerifiedChanges);
  }

  lemma {:induction false} VersionHolds(g: Grant)
    ensures HoldAll(VersionFrames(g), VersionFields(g))
  {
    AsciiSpells("network");
    AsciiSpells("policy_version");
    FlagHolds(g.networkAllowed);
    FourHolds(g.policyVersion);
  }

  lemma {:induction false} GrantRootHolds(g: Grant)
    requires g.canonicalRoot != [] && g.canonicalRoot[0] == RootDir && AllNormal(g.canonicalRoot[1..])
    ensures HoldAll(PathFrames(CANONICAL_ROOT_LABEL, g.canonicalRoot), RootFields("canonical_root", g.canonicalRoot))
  {
    AsciiSpells("canonical_root");
    RootFrames(CANONICAL_ROOT_LABEL, "canonical_root", g.canonicalRoot);
  }

  lemma {:induction false} GrantPartsHold(g: Grant, d: Identity)
    requires g.canonicalRoot != [] && AllNormal(g.canonicalRoot[1..])
    requires HoldAll(GrantHead(g), [Label("grok-build/workspace-grant/v1"), Label("grant_id"), Raw(g.grantId)])
    requires HoldAll(PathFrames(CANONICAL_ROOT_LABEL, g.canonicalRoot), RootFields("canonical_root", g.canonicalRoot))
    requires HoldAll(IdentityFrames(d), IdentityFields(d))
    requires HoldAll(PermissionFrames(g.permissions), PermissionFields(g.permissions))
    requires HoldAll(VersionFrames(g), VersionFields(g))
    ensures HoldAll(GrantFrames(g, d), GrantFields(g, d))
  {
    var head := [Label("grok-build/workspace-grant/v1"), Label("grant_id"), Raw(g.grantId)];
    var root, identity := RootFields("canonical_root", g.canonicalRoot), IdentityFields(d);
    var permissions, version := PermissionFields(g.permissions), VersionFields(g);
    HoldConcat(PermissionFrames(g.permissions), VersionFrames(g), permissions, version);
    HoldConcat(IdentityFrames(d), PermissionFrames(g.permissions) + VersionFrames(g), identity, permissions + version);
    HoldConcat(PathFrames(CANONICAL_ROOT_LABEL, g.canonicalRoot), FromIdentity(g, d), root,
               identity + (permissions + version));
    HoldConcat(GrantHead(g), PathFrames(CANONICAL_ROOT_LABEL, g.canonicalRoot) + FromIdentity(g, d), head,
               root + (identity + (permissions + version)));
    GroupedRight(head, root, identity, permissions, version);
  }

  lemma {:induction false} GroupedRight<T>(a: seq<T>, b: seq<T>, c: seq<T>, d: seq<T>, e: seq<T>)
    ensures a + b + c + d + e == a + (b + (c + (d + e)))
  {
    Associate(a + b + c, d, e);
    Associate(a + b, c, d + e);
    Associate(a, b, c + (d + e));
  }

  /** The hash input of a grant, frame by frame. */
  lemma {:induction false} GrantWritten(g: Grant, d: Identity)
    requires Bound(g, d)
    ensures g.canonicalRoot != [] && g.canonicalRoot[0] == RootDir && AllNormal(g.canonicalRoot[1..])
    ensures exists frames :: Framed(GrantPreimage(g, d), frames) && HoldAll(frames, GrantFields(g, d))
  {
    RootExactly(g.canonicalRoot);
    GrantHeadHolds(g);
    GrantRootHolds(g);
    IdentityHolds(d);
    PermissionsHold(g.permissions);
    VersionHolds(g);
    GrantPartsHold(g, d);
    FlattenLayout(GrantFrames(g, d));
  }
}
