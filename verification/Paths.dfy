/** Portable workspace paths, their ancestors, and the ordered-map probe for colliding files. */
module Paths {
  import opened Outcomes
  import opened Bytes

  type Path = ByteString

  const SLASH: Byte := 47
  const BACKSLASH: Byte := 92
  const NUL: Byte := 0
  const DOT: Byte := 46
  const MAX_PATH_BYTES := 4096
  const MAX_MANIFEST_ENTRIES := 65536

  /** Why a path cannot take part in portable composition. */
  datatype PathConflict = EmptyOrAbsolute | TooLong | NonPortableSeparatorOrNul | InvalidComponent

  /** `a` names a proper ancestor directory of `p`. */
  predicate IsAncestor(a: Path, p: Path) {
    |a| < |p| && p[..|a|] == a && p[|a|] == SLASH
  }

  /** The ancestors cut at separators before index `k`. */
  function AncestorsBefore(p: Path, k: nat): (all: set<Path>)
    requires k <= |p|
    ensures forall a :: a in all <==> |a| < k && IsAncestor(a, p)
  {
    if k == 0 then {}
    else if p[k - 1] == SLASH then AncestorsBefore(p, k - 1) + {p[..k - 1]}
    else AncestorsBefore(p, k - 1)
  }

  function Ancestors(p: Path): (all: set<Path>)
    ensures forall a :: a in all <==> IsAncestor(a, p)
  {
    AncestorsBefore(p, |p|)
  }

  lemma {:induction false} AncestorTransitive(a: Path, b: Path, c: Path)
    requires IsAncestor(a, b) && IsAncestor(b, c)
    ensures IsAncestor(a, c)
  {
    assert c[..|a|] == c[..|b|][..|a|];
  }

  lemma {:induction false} AncestorLt(a: Path, p: Path)
    requires IsAncestor(a, p)
    ensures Lt(a, p)
  {
    PrefixLt(a, p);
  }

  // ---------- portable paths ----------

  /** One more byte in front of a split path. */
  function Prefixed(b: Byte, components: seq<ByteString>): (longer: seq<ByteString>)
    requires components != []
    ensures longer != []
  {
    if b == SLASH then [[]] + components else [[b] + components[0]] + components[1..]
  }

  /** `path.split('/')`: always at least one component. */
  function Split(p: Path): (components: seq<ByteString>)
    ensures components != []
  {
    if p == [] then [[]] else Prefixed(p[0], Split(p[1..]))
  }

  /** `component.eq_ignore_ascii_case(".git")`. */
  predicate IsGitName(component: ByteString) {
    |component| == 4 && component[0] == DOT && (component[1] == 71 || component[1] == 103)
    && (component[2] == 73 || component[2] == 105) && (component[3] == 84 || component[3] == 116)
  }

  predicate BadComponent(component: ByteString) {
    component == [] || component == [DOT] || component == [DOT, DOT] || IsGitName(component)
  }

  /** The composition boundary's check, in its own order. */
  function PathConflictOf(p: Path): Option<PathConflict> {
    if p == [] || p[0] == SLASH then Some(EmptyOrAbsolute)
    else if |p| > MAX_PATH_BYTES then Some(TooLong)
    else if BACKSLASH in p || NUL in p then Some(NonPortableSeparatorOrNul)
    else if exists c :: c in Split(p) && BadComponent(c) then Some(InvalidComponent)
    else None
  }

  predicate Portable(p: Path) {
    PathConflictOf(p).None?
  }

  lemma {:induction false} PrefixedAppend(b: Byte, front: seq<ByteString>, rest: seq<ByteString>)
    requires front != []
    ensures Prefixed(b, front + rest) == Prefixed(b, front) + rest
  {
    assert (front + rest)[1..] == front[1..] + rest;
  }

  /** Splitting at a separator splits the component list there. */
  lemma {:induction false} SplitAtSeparator(p: Path, k: nat)
    requires k < |p| && p[k] == SLASH
    ensures Split(p) == Split(p[..k]) + Split(p[k + 1..])
  {
    if k == 0 {
      assert p[..0] == [];
    } else {
      SplitAtSeparator(p[1..], k - 1);
      assert p[1..][..k - 1] == p[..k][1..] && p[1..][k - 1 + 1..] == p[k + 1..];
      PrefixedAppend(p[0], Split(p[..k][1..]), Split(p[k + 1..]));
      assert Split(p[..k]) == Prefixed(p[0], Split(p[..k][1..]));
    }
  }

  /** A path is determined by its components. */
  lemma {:induction false} SplitInjective(p: Path, q: Path)
    requires Split(p) == Split(q)
    ensures p == q
  {
    if p != [] && q != [] {
      var a, b := Split(p[1..]), Split(q[1..]);
      assert p == [p[0]] + p[1..] && q == [q[0]] + q[1..];
      PrefixedInjective(p[0], a, q[0], b);
      SplitInjective(p[1..], q[1..]);
    } else if p != [] {
      PrefixedNotEmpty(p[0], Split(p[1..]));
    } else if q != [] {
      PrefixedNotEmpty(q[0], Split(q[1..]));
    }
  }

  lemma {:induction false} PrefixedNotEmpty(b: Byte, x: seq<ByteString>)
    requires x != []
    ensures Prefixed(b, x) != [[]]
  {
    assert b != SLASH ==> Prefixed(b, x)[0] != [];
  }

  lemma {:induction false} PrefixedInjective(b: Byte, x: seq<ByteString>, c: Byte, y: seq<ByteString>)
    requires x != [] && y != [] && Prefixed(b, x) == Prefixed(c, y)
    ensures b == c && x == y
  {
    var l, r := Prefixed(b, x), Prefixed(c, y);
    assert l[0] == r[0] && l[1..] == r[1..];
    if b == SLASH {
      assert l[1..] == x;
    } else {
      assert l[0][1..] == x[0] && l[1..] == x[1..];
      assert x == [x[0]] + x[1..];
    }
    if c == SLASH {
      assert r[1..] == y;
    } else {
      assert r[0][0] == c && r[0][1..] == y[0] && r[1..] == y[1..];
      assert y == [y[0]] + y[1..];
    }
  }

  // ---------- portability, name by name ----------

  /** `p[i..j]` is the name between two neighbouring separators, or between one of them and an end of the path. */
  ghost predicate NameAt(p: Path, i: nat, j: nat) {
    i <= j <= |p| && (i == 0 || p[i - 1] == 47) && (j == |p| || p[j] == 47)
    && forall k :: i <= k < j ==> p[k] != 47
  }

  /** Neither nothing, ".", ".." nor, in any case, ".git". */
  ghost predicate AllowedName(name: ByteString) {
    |name| > 0 && name != [46] && name != [46, 46]
    && !(|name| == 4 && name[0] == 46 && name[1] as int in {71, 103} && name[2] as int in {73, 105}
         && name[3] as int in {84, 116})
  }

  lemma {:induction false} FirstSeparator(p: Path) returns (k: nat)
    requires exists i :: 0 <= i < |p| && p[i] == 47
    ensures k < |p| && p[k] == 47 && forall i :: 0 <= i < k ==> p[i] != 47
  {
    k := 0;
    while p[k] != 47
      invariant k < |p| && forall i :: 0 <= i < k ==> p[i] != 47
      decreases |p| - k
    {
      k := k + 1;
    }
  }

  lemma {:induction false} WithoutSeparator(p: Path)
    requires forall i :: 0 <= i < |p| ==> p[i] != 47
    ensures Split(p) == [p]
  {
    if p != [] {
      WithoutSeparator(p[1..]);
      assert [p[0]] + p[1..] == p;
    }
  }

  /** Past the first separator, names are those of the rest of the path. */
  lemma {:induction false} NameOfRest(p: Path, k: nat, i: nat, j: nat)
    requires k < |p| && p[k] == 47
    ensures NameAt(p, i + (k + 1), j + (k + 1)) <==> NameAt(p[k + 1..], i, j)
    ensures i <= j <= |p| - (k + 1) ==> p[k + 1..][i..j] == p[i + (k + 1)..j + (k + 1)]
  {
    var rest := p[k + 1..];
    if i <= j <= |rest| {
      if NameAt(rest, i, j) {
        forall l | i + (k + 1) <= l < j + (k + 1) ensures p[l] != 47 {
          assert rest[l - (k + 1)] != 47;
        }
      }
    }
  }

  lemma {:induction false} FirstName(p: Path, k: nat, i: nat, j: nat)
    requires k < |p| && p[k] == 47 && (forall l :: 0 <= l < k ==> p[l] != 47) && NameAt(p, i, j)
    ensures if i == 0 then j == k else i > k
  {
  }

  lemma {:induction false} NameIsComponent(p: Path, i: nat, j: nat)
    requires NameAt(p, i, j)
    ensures p[i..j] in Split(p)
    decreases |p|
  {
    if exists k :: 0 <= k < |p| && p[k] == 47 {
      var k := FirstSeparator(p);
      SplitAtSeparator(p, k);
      FirstName(p, k, i, j);
      if i == 0 {
        WithoutSeparator(p[..k]);
      } else {
        NameOfRest(p, k, i - (k + 1), j - (k + 1));
        NameIsComponent(p[k + 1..], i - (k + 1), j - (k + 1));
      }
    } else {
      assert i == 0 && j == |p| && p[i..j] == p;
      WithoutSeparator(p);
    }
  }

  lemma {:induction false} ComponentIsName(p: Path, c: ByteString) returns (i: nat, j: nat)
    requires c in Split(p)
    ensures NameAt(p, i, j) && p[i..j] == c
    decreases |p|
  {
    if exists k :: 0 <= k < |p| && p[k] == 47 {
      var k := FirstSeparator(p);
      SplitAtSeparator(p, k);
      WithoutSeparator(p[..k]);
      if c == p[..k] {
        i, j := 0, k;
      } else {
        var a, b := ComponentIsName(p[k + 1..], c);
        NameOfRest(p, k, a, b);
        i, j := a + (k + 1), b + (k + 1);
      }
    } else {
      WithoutSeparator(p);
      i, j := 0, |p|;
    }
  }

  lemma {:induction false} AllowedExactly(name: ByteString)
    ensures AllowedName(name) <==> !BadComponent(name)
  {
  }

  /** A path is portable by its bytes alone: bounded, relative, without backslash or NUL, every name allowed. */
  lemma {:induction false} PortableExactly(p: Path)
    ensures Portable(p) <==>
      && 0 < |p| <= 4096 && p[0] != 47
      && (forall k :: 0 <= k < |p| ==> p[k] != 92 && p[k] != 0)
      && (forall i: nat, j: nat :: NameAt(p, i, j) ==> AllowedName(p[i..j]))
  {
    forall i: nat, j: nat | NameAt(p, i, j)
      ensures p[i..j] in Split(p) && (AllowedName(p[i..j]) <==> !BadComponent(p[i..j]))
    {
      NameIsComponent(p, i, j);
      AllowedExactly(p[i..j]);
    }
    if c :| c in Split(p) && BadComponent(c) {
      var i, j := ComponentIsName(p, c);
      assert NameAt(p, i, j) && !AllowedName(p[i..j]);
    }
  }

  lemma {:induction false} AncestorExactly(a: Path, p: Path)
    ensures IsAncestor(a, p) <==> a + [47] <= p
  {
    if a + [47] <= p {
      assert p[..|a|] == (a + [47])[..|a|] && p[|a|] == (a + [47])[|a|];
    }
  }

  /** The components that count when paths are compared: empty ones and dots are skipped. */
  function Plain(components: seq<ByteString>): seq<ByteString> {
    if components == [] then []
    else (if components[0] == [] || components[0] == [DOT] then [] else [components[0]]) + Plain(components[1..])
  }

  function Components(p: Path): seq<ByteString> {
    Plain(Split(p))
  }

  lemma {:induction false} NothingSkipped(components: seq<ByteString>)
    requires forall c :: c in components ==> !BadComponent(c)
    ensures Plain(components) == components
  {
    if components != [] {
      assert components[0] in components;
      NothingSkipped(components[1..]);
    }
  }

  /** Portable paths are compared by their bytes and by their components alike. */
  lemma {:induction false} PortableComponentsDetermine(p: Path, q: Path)
    requires Portable(p) && Portable(q)
    ensures Components(p) == Components(q) <==> p == q
  {
    NothingSkipped(Split(p));
    NothingSkipped(Split(q));
    if Components(p) == Components(q) {
      SplitInjective(p, q);
    }
  }

  /** Every ancestor of a portable path is portable, so a directory never needs its own check. */
  lemma {:induction false} AncestorPortable(a: Path, p: Path)
    requires Portable(p) && IsAncestor(a, p)
    ensures Portable(a)
  {
    SplitAtSeparator(p, |a|);
    assert a != [];
    assert forall c :: c in Split(a) ==> c in Split(p);
    assert forall b :: b in a ==> b in p;
  }

  // ---------- file collisions ----------

  /** Walks the separators of `path` for the first ancestor in `paths`. */
  method AncestorAmong(paths: set<Path>, path: Path) returns (found: Option<Path>)
    ensures found.Some? ==> found.value in paths && IsAncestor(found.value, path)
    ensures found.None? ==> forall a :: a in paths ==> !IsAncestor(a, path)
  {
    for k := 0 to |path|
      invariant forall a :: a in paths && IsAncestor(a, path) ==> |a| >= k
    {
      if path[k] == SLASH && path[..k] in paths {
        return Some(path[..k]);
      }
    }
    return None;
  }

  /** Looks for a file above `path`, then for the first file at or after `path/`. */
  method PresentFileCollision(files: set<Path>, path: Path) returns (found: Option<Path>)
    ensures found.Some? ==> found.value in files && (IsAncestor(found.value, path) || IsAncestor(path, found.value))
    ensures found.None? ==> forall f :: f in files ==> !IsAncestor(f, path) && !IsAncestor(path, f)
  {
    found := AncestorAmong(files, path);
    if found.Some? {
      return;
    }
    var prefix := path + [SLASH];
    var candidate := Ceiling(files, prefix);
    ProbeFindsDescendant(files, path);
    if candidate.Some? && prefix <= candidate.value {
      return candidate;
    }
    return None;
  }

  /**
   * Probing one key is enough: some file lies below `path` exactly when the first key
   * at or after `path/` starts with `path/`.
   */
  lemma {:induction false} ProbeFindsDescendant(files: set<Path>, path: Path)
    ensures var candidate := Ceiling(files, path + [SLASH]);
            (exists f :: f in files && IsAncestor(path, f)) <==> candidate.Some? && path + [SLASH] <= candidate.value
    ensures var candidate := Ceiling(files, path + [SLASH]);
            candidate.Some? && path + [SLASH] <= candidate.value ==> IsAncestor(path, candidate.value)
  {
    var prefix := path + [SLASH];
    var candidate := Ceiling(files, prefix);
    if candidate.Some? && prefix <= candidate.value {
      assert candidate.value[..|path|] == prefix[..|path|] == path;
      assert candidate.value[|path|] == prefix[|path|];
    }
    if f :| f in files && IsAncestor(path, f) {
      assert prefix <= f;
      if prefix == f { LtIrreflexive(f); } else { PrefixLt(prefix, f); LtAsymmetric(prefix, f); }
      assert !Lt(f, prefix);
      PrefixInterval(prefix, candidate.value, f);
    }
  }
}
