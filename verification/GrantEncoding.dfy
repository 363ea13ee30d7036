/**
 * The canonical grant encoding, its unique readability, the directory identity it binds, and its separation from
 * policies (trust.rs).
 */
module GrantEncoding {
  import opened Bytes
  import opened Framing
  import opened Outcomes
  import opened PolicyOrder
  import opened PolicyEncoding

  const GRANT_DOMAIN: Text := Ascii("grok-build/workspace-grant/v1")
  const GRANT_ID_LABEL: Text := Ascii("grant_id")
  const CANONICAL_ROOT_LABEL: Text := Ascii("canonical_root")
  const ROOT_DEVICE_ID_LABEL: Text := Ascii("root_device_id")
  const ROOT_INODE_LABEL: Text := Ascii("root_inode")
  const PERMISSION_READ_LABEL: Text := Ascii("permission_read")
  const PERMISSION_WRITE_LABEL: Text := Ascii("permission_write_regular_files")
  const PERMISSION_EXECUTE_LABEL: Text := Ascii("permission_execute_commands")
  const PERMISSION_INTEGRATE_LABEL: Text := Ascii("permission_integrate_changes")
  const PERMISSION_APPLY_LABEL: Text := Ascii("permission_apply_verified_changes")
  const POLICY_VERSION_LABEL: Text := Ascii("policy_version")

  datatype Permissions = Permissions(
    read: bool, writeRegularFiles: bool, executeCommands: bool, integrateChanges: bool, applyVerifiedChanges: bool)

  datatype Grant = Grant(
    grantId: Text, canonicalRoot: NativePath, permissions: Permissions, networkAllowed: bool, policyVersion: U32)

  /** The directory that a grant is bound to. */
  datatype Identity = Identity(canonicalRoot: NativePath, deviceId: U64, inode: U64)

  function IdentityFrames(d: Identity): seq<Text> {
    [ROOT_DEVICE_ID_LABEL, U64Bytes(d.deviceId), ROOT_INODE_LABEL, U64Bytes(d.inode)]
  }

  function PermissionFrames(p: Permissions): seq<Text> {
    [PERMISSION_READ_LABEL, Flag(p.read), PERMISSION_WRITE_LABEL, Flag(p.writeRegularFiles),
     PERMISSION_EXECUTE_LABEL, Flag(p.executeCommands), PERMISSION_INTEGRATE_LABEL, Flag(p.integrateChanges),
     PERMISSION_APPLY_LABEL, Flag(p.applyVerifiedChanges)]
  }

  function VersionFrames(g: Grant): seq<Text> {
    [NETWORK_LABEL, Flag(g.networkAllowed), POLICY_VERSION_LABEL, U32Bytes(g.policyVersion)]
  }

  function GrantHead(g: Grant): seq<Text> {
    [GRANT_DOMAIN, GRANT_ID_LABEL, g.grantId]
  }

  function FromIdentity(g: Grant, d: Identity): seq<Text> {
    IdentityFrames(d) + (PermissionFrames(g.permissions) + VersionFrames(g))
  }

  function GrantFrames(g: Grant, d: Identity): seq<Text> {
    GrantHead(g) + (PathFrames(CANONICAL_ROOT_LABEL, g.canonicalRoot) + FromIdentity(g, d))
  }

  /** The hash input of `canonical_grant_hash`. */
  function GrantPreimage(g: Grant, d: Identity): ByteString {
    Flatten(GrantFrames(g, d))
  }

  /** What `canonical_grant_hash` accepts: the grant's root is the directory's, and portable. */
  predicate Bound(g: Grant, d: Identity) {
    g.canonicalRoot == d.canonicalRoot && NormalPath(g.canonicalRoot, true)
  }

  lemma {:induction false} VersionInjective(g: Grant, h: Grant)
    requires VersionFrames(g) == VersionFrames(h)
    ensures g.networkAllowed == h.networkAllowed && g.policyVersion == h.policyVersion
  {
    assert VersionFrames(g)[1] == VersionFrames(h)[1] && VersionFrames(g)[3] == VersionFrames(h)[3];
    U32BytesInjective(g.policyVersion, h.policyVersion);
  }

  lemma {:induction false} FromIdentityInjective(g: Grant, d: Identity, h: Grant, e: Identity)
    requires FromIdentity(g, d) == FromIdentity(h, e)
    ensures d.deviceId == e.deviceId && d.inode == e.inode && g.permissions == h.permissions
    ensures g.networkAllowed == h.networkAllowed && g.policyVersion == h.policyVersion
  {
    SameSplit(IdentityFrames(d), IdentityFrames(e), PermissionFrames(g.permissions) + VersionFrames(g),
              PermissionFrames(h.permissions) + VersionFrames(h));
    assert IdentityFrames(d)[1] == IdentityFrames(e)[1] && IdentityFrames(d)[3] == IdentityFrames(e)[3];
    U64BytesInjective(d.deviceId, e.deviceId);
    U64BytesInjective(d.inode, e.inode);
    SameSplit(PermissionFrames(g.permissions), PermissionFrames(h.permissions), VersionFrames(g), VersionFrames(h));
    VersionInjective(g, h);
  }

  /** A grant's hash input determines the grant and the directory it is bound to. */
  lemma {:induction false} GrantPreimageInjective(g: Grant, d: Identity, h: Grant, e: Identity)
    requires Bound(g, d) && Bound(h, e)
    ensures GrantPreimage(g, d) == GrantPreimage(h, e) <==> g == h && d == e
  {
    if GrantPreimage(g, d) == GrantPreimage(h, e) {
      FlattenInjective(GrantFrames(g, d), GrantFrames(h, e));
      SameSplit(GrantHead(g), GrantHead(h), PathFrames(CANONICAL_ROOT_LABEL, g.canonicalRoot) + FromIdentity(g, d),
                PathFrames(CANONICAL_ROOT_LABEL, h.canonicalRoot) + FromIdentity(h, e));
      assert GrantHead(g)[2] == GrantHead(h)[2];
      PathDelimited(CANONICAL_ROOT_LABEL, g.canonicalRoot, h.canonicalRoot, FromIdentity(g, d), FromIdentity(h, e),
                    true);
      FromIdentityInjective(g, d, h, e);
    }
  }

  /** No grant shares its hash input with a policy. */
  lemma {:induction false} DomainsApart(g: Grant, d: Identity, p: Policy)
    ensures GrantPreimage(g, d) != Preimage(p)
  {
    var frames, others := GrantFrames(g, d), OrderedFrames(Canonical(p));
    assert frames[0] == GRANT_DOMAIN && others[0] == POLICY_DOMAIN;
    assert |GRANT_DOMAIN| == 29 && |POLICY_DOMAIN| == 30;
    if GrantPreimage(g, d) == Preimage(p) {
      FlattenInjective(frames, others);
    }
  }

  method EncodeIdentity(h: CanonicalHasher, d: Identity)
    requires h.Valid()
    modifies h
    ensures h.Valid() && h.frames == old(h.frames) + IdentityFrames(d)
  {
    h.UInt64(ROOT_DEVICE_ID_LABEL, d.deviceId);
    h.UInt64(ROOT_INODE_LABEL, d.inode);
  }

  method EncodePermissions(h: CanonicalHasher, p: Permissions)
    requires h.Valid()
    modifies h
    ensures h.Valid() && h.frames == old(h.frames) + PermissionFrames(p)
  {
    h.Boolean(PERMISSION_READ_LABEL, p.read);
    h.Boolean(PERMISSION_WRITE_LABEL, p.writeRegularFiles);
    h.Boolean(PERMISSION_EXECUTE_LABEL, p.executeCommands);
    h.Boolean(PERMISSION_INTEGRATE_LABEL, p.integrateChanges);
    h.Boolean(PERMISSION_APPLY_LABEL, p.applyVerifiedChanges);
  }

  method EncodeVersion(h: CanonicalHasher, g: Grant)
    requires h.Valid()
    modifies h
    ensures h.Valid() && h.frames == old(h.frames) + VersionFrames(g)
  {
    h.Boolean(NETWORK_LABEL, g.networkAllowed);
    h.UInt32(POLICY_VERSION_LABEL, g.policyVersion);
  }

  /** Everything after the root. */
  method EncodeFromIdentity(h: CanonicalHasher, g: Grant, d: Identity)
    requires h.Valid()
    modifies h
    ensures h.Valid() && h.frames == old(h.frames) + FromIdentity(g, d)
  {
    ghost var before := h.frames;
    EncodeIdentity(h, d);
    EncodePermissions(h, g.permissions);
    EncodeVersion(h, g);
    Associate(before + IdentityFrames(d), PermissionFrames(g.permissions), VersionFrames(g));
    Associate(before, IdentityFrames(d), PermissionFrames(g.permissions) + VersionFrames(g));
  }

  method EncodeGrantHead(g: Grant) returns (h: CanonicalHasher)
    ensures fresh(h) && h.Valid() && h.frames == GrantHead(g)
  {
    h := new CanonicalHasher(GRANT_DOMAIN);
    h.String(GRANT_ID_LABEL, g.grantId);
  }

  datatype GrantFault = RootMismatch | UnportableRoot(fault: PathFault)

  /** `canonical_grant_hash`, up to the hash function itself. */
  method EncodeGrant(g: Grant, d: Identity) returns (r: Result<ByteString, GrantFault>)
    ensures r.Ok? <==> Bound(g, d)
    ensures r.Ok? ==> r.value == GrantPreimage(g, d)
    ensures r == Err(RootMismatch) <==> g.canonicalRoot != d.canonicalRoot
  {
    if g.canonicalRoot != d.canonicalRoot {
      return Err(RootMismatch);
    }
    var h := EncodeGrantHead(g);
    var encoded := EncodePath(h, CANONICAL_ROOT_LABEL, g.canonicalRoot, true);
    if encoded.Err? {
      return Err(UnportableRoot(encoded.error));
    }
    EncodeFromIdentity(h, g, d);
    Associate(GrantHead(g), PathFrames(CANONICAL_ROOT_LABEL, g.canonicalRoot), FromIdentity(g, d));
    return Ok(h.input);
  }
}
