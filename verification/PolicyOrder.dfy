/** Execution policies: paths by components, scopes, environment, and the orders that canonicalise them (trust.rs). */
module PolicyOrder {
  import opened Bytes
  import opened Framing
  import opened Outcomes
  import opened Sorting

  /** Path components as the standard library iterates and compares them. */
  datatype Component = RootDir | CurDir | ParentDir | Normal(name: Text)

  /** A path is compared by its components; the root can only come first. */
  type NativePath = p: seq<Component> | |p| < 0x1_0000_0000_0000_0000 && forall i :: 0 < i < |p| ==> p[i] != RootDir

  datatype Scope = Workspace | Relative(path: NativePath)

  datatype Variable = Variable(name: Text, value: Text)

  datatype Network = NoNetwork | FullForAction

  datatype MutationMode = ReadOnly | ShadowWorkspace

  type Scopes = s: seq<Scope> | |s| < 0x1_0000_0000_0000_0000
  type Environment = s: seq<Variable> | |s| < 0x1_0000_0000_0000_0000

  datatype Policy = Policy(
    policyId: Text, grantHash: Text, root: NativePath, readScopes: Scopes, writeScopes: Scopes,
    environment: Environment,
    network: Network, mutationMode: MutationMode, wallTimeMs: U64, maxOutputBytes: U64, maxProcesses: U32,
    maxMemoryBytes: Option<U64>, approvalId: Option<Text>)

  // ---------- the derived orders ----------

  function Rank(c: Component): nat {
    match c
    case RootDir => 1
    case CurDir => 2
    case ParentDir => 3
    case Normal(_) => 4
  }

  predicate ComponentLess(a: Component, b: Component) {
    Rank(a) < Rank(b) || (a.Normal? && b.Normal? && Lt(a.name, b.name))
  }

  /** Component by component, a proper prefix first. */
  predicate PathLess(a: seq<Component>, b: seq<Component>) {
    b != [] && (a == [] || ComponentLess(a[0], b[0]) || (a[0] == b[0] && PathLess(a[1..], b[1..])))
  }

  predicate ScopeLess(a: Scope, b: Scope) {
    b.Relative? && (a.Workspace? || PathLess(a.path, b.path))
  }

  predicate VariableLess(a: Variable, b: Variable) {
    Lt(a.name, b.name) || (a.name == b.name && Lt(a.value, b.value))
  }

  lemma {:induction false} ComponentOrder(a: Component, b: Component, c: Component)
    ensures !ComponentLess(a, a)
    ensures ComponentLess(a, b) && ComponentLess(b, c) ==> ComponentLess(a, c)
    ensures ComponentLess(a, b) || a == b || ComponentLess(b, a)
  {
    if a.Normal? { LtIrreflexive(a.name); }
    if a.Normal? && b.Normal? { LtTotal(a.name, b.name); }
    if ComponentLess(a, b) && ComponentLess(b, c) && a.Normal? {
      LtTransitive(a.name, b.name, c.name);
    }
  }

  lemma {:induction false} PathIrreflexive(a: seq<Component>)
    ensures !PathLess(a, a)
  {
    if a != [] {
      ComponentOrder(a[0], a[0], a[0]);
      PathIrreflexive(a[1..]);
    }
  }

  lemma {:induction false} PathTransitive(a: seq<Component>, b: seq<Component>, c: seq<Component>)
    requires PathLess(a, b) && PathLess(b, c)
    ensures PathLess(a, c)
  {
    if a != [] {
      ComponentOrder(a[0], b[0], c[0]);
      if a[0] == b[0] == c[0] && !ComponentLess(a[0], b[0]) && !ComponentLess(b[0], c[0]) {
        PathTransitive(a[1..], b[1..], c[1..]);
      }
    }
  }

  lemma {:induction false} PathTotal(a: seq<Component>, b: seq<Component>)
    ensures PathLess(a, b) || a == b || PathLess(b, a)
  {
    if a != [] && b != [] {
      ComponentOrder(a[0], b[0], a[0]);
      if a[0] == b[0] {
        PathTotal(a[1..], b[1..]);
        assert a == [a[0]] + a[1..] && b == [b[0]] + b[1..];
      }
    }
  }

  lemma {:induction false} ScopeOrder(a: Scope, b: Scope, c: Scope)
    ensures !ScopeLess(a, a)
    ensures ScopeLess(a, b) && ScopeLess(b, c) ==> ScopeLess(a, c)
    ensures ScopeLess(a, b) || a == b || ScopeLess(b, a)
  {
    if a.Relative? { PathIrreflexive(a.path); }
    if a.Relative? && b.Relative? { PathTotal(a.path, b.path); }
    if ScopeLess(a, b) && ScopeLess(b, c) && a.Relative? {
      PathTransitive(a.path, b.path, c.path);
    }
  }

  lemma {:induction false} VariableOrder(a: Variable, b: Variable, c: Variable)
    ensures !VariableLess(a, a)
    ensures VariableLess(a, b) && VariableLess(b, c) ==> VariableLess(a, c)
    ensures VariableLess(a, b) || a == b || VariableLess(b, a)
  {
    LtIrreflexive(a.name);
    LtIrreflexive(a.value);
    LtTotal(a.name, b.name);
    LtTotal(a.value, b.value);
    if VariableLess(a, b) && VariableLess(b, c) {
      if Lt(a.name, b.name) && Lt(b.name, c.name) {
        LtTransitive(a.name, b.name, c.name);
      }
      if Lt(a.value, b.value) && Lt(b.value, c.value) {
        LtTransitive(a.value, b.value, c.value);
      }
    }
  }

  lemma {:induction false} ScopesTotal()
    ensures TotalOrder(ScopeLess)
  {
    forall a, b ensures ScopeLess(a, b) || a == b || ScopeLess(b, a) {
      ScopeOrder(a, b, a);
    }
    forall a, b | ScopeLess(a, b) ensures !ScopeLess(b, a) {
      ScopeOrder(a, b, a);
    }
    forall a, b, c | ScopeLess(a, c) ensures ScopeLess(a, b) || ScopeLess(b, c) {
      ScopeOrder(a, b, c);
      ScopeOrder(b, a, c);
    }
  }

  lemma {:induction false} VariablesTotal()
    ensures TotalOrder(VariableLess)
  {
    forall a, b ensures VariableLess(a, b) || a == b || VariableLess(b, a) {
      VariableOrder(a, b, a);
    }
    forall a, b | VariableLess(a, b) ensures !VariableLess(b, a) {
      VariableOrder(a, b, a);
    }
    forall a, b, c | VariableLess(a, c) ensures VariableLess(a, b) || VariableLess(b, c) {
      VariableOrder(a, b, c);
      VariableOrder(b, a, c);
    }
  }

  // ---------- the orders, place by place ----------

  /** Root before the current directory, that before the parent, that before any name; names by their bytes. */
  ghost predicate ComponentBefore(a: Component, b: Component) {
    match a
    case RootDir => b != RootDir
    case CurDir => b == ParentDir || b.Normal?
    case ParentDir => b.Normal?
    case Normal(name) => b.Normal? && ComesBefore(name, b.name)
  }

  /** The paths first differ at place `k`: there `a` ends and `b` goes on, or `a` has the earlier component. */
  ghost predicate PathBeforeAt(a: seq<Component>, b: seq<Component>, k: nat) {
    k <= |a| && k < |b| && a[..k] == b[..k] && (k < |a| ==> ComponentBefore(a[k], b[k]))
  }

  ghost predicate PathBefore(a: seq<Component>, b: seq<Component>) {
    exists k: nat :: PathBeforeAt(a, b, k)
  }

  ghost predicate ScopeBefore(a: Scope, b: Scope) {
    match b
    case Workspace => false
    case Relative(path) => a == Workspace || PathBefore(a.path, path)
  }

  ghost predicate VariableBefore(a: Variable, b: Variable) {
    ComesBefore(a.name, b.name) || (a.name == b.name && ComesBefore(a.value, b.value))
  }

  lemma {:induction false} ComponentExactly(a: Component, b: Component)
    ensures ComponentLess(a, b) <==> ComponentBefore(a, b)
  {
    if a.Normal? && b.Normal? { LtExactly(a.name, b.name); }
  }

  lemma {:induction false} PathBeforeRest(a: seq<Component>, b: seq<Component>, k: nat)
    requires a != [] && b != [] && a[0] == b[0]
    ensures PathBeforeAt(a, b, k + 1) <==> PathBeforeAt(a[1..], b[1..], k)
  {
    if k + 1 <= |a| && k + 1 <= |b| {
      assert a[..k + 1] == [a[0]] + a[1..][..k] && b[..k + 1] == [b[0]] + b[1..][..k];
      if a[..k + 1] == b[..k + 1] {
        assert a[1..][..k] == a[..k + 1][1..] == b[..k + 1][1..] == b[1..][..k];
      }
    }
  }

  lemma {:induction false} FirstComponentShared(a: seq<Component>, b: seq<Component>, k: nat)
    requires PathBeforeAt(a, b, k) && k > 0
    ensures a != [] && b != [] && a[0] == b[0]
  {
    assert a[0] == a[..k][0] && b[0] == b[..k][0];
  }

  /** Where the first components agree, neither comes before the other, so the rest decides. */
  lemma {:induction false} PathExactly(a: seq<Component>, b: seq<Component>)
    ensures PathLess(a, b) <==> PathBefore(a, b)
  {
    if a != [] && b != [] && a[0] == b[0] {
      ComponentOrder(a[0], a[0], a[0]);
      ComponentExactly(a[0], a[0]);
      PathExactly(a[1..], b[1..]);
      if k: nat :| PathBeforeAt(a[1..], b[1..], k) {
        PathBeforeRest(a, b, k);
      }
      if k: nat :| PathBeforeAt(a, b, k) {
        assert k > 0;
        PathBeforeRest(a, b, k - 1);
      }
    } else {
      if a != [] && b != [] { ComponentExactly(a[0], b[0]); }
      if PathLess(a, b) { assert PathBeforeAt(a, b, 0); }
      if k: nat :| PathBeforeAt(a, b, k) {
        if k > 0 { FirstComponentShared(a, b, k); }
      }
    }
  }

  lemma {:induction false} ScopeExactly(a: Scope, b: Scope)
    ensures ScopeLess(a, b) <==> ScopeBefore(a, b)
  {
    if a.Relative? && b.Relative? { PathExactly(a.path, b.path); }
  }

  lemma {:induction false} VariableExactly(a: Variable, b: Variable)
    ensures VariableLess(a, b) <==> VariableBefore(a, b)
  {
    LtExactly(a.name, b.name);
    LtExactly(a.value, b.value);
  }

  // ---------- canonical policies ----------

  function SortScopes(s: Scopes): (t: Scopes)
    ensures multiset(t) == multiset(s)
  {
    Sort(ScopeLess, s)
  }

  function SortEnvironment(s: Environment): (t: Environment)
    ensures multiset(t) == multiset(s)
  {
    Sort(VariableLess, s)
  }

  /** The policy with its set-like lists in canonical order. */
  function Canonical(p: Policy): Policy {
    p.(readScopes := SortScopes(p.readScopes), writeScopes := SortScopes(p.writeScopes),
       environment := SortEnvironment(p.environment))
  }

  ghost predicate ScopesInOrder(s: seq<Scope>) {
    forall i, j :: 0 <= i < j < |s| ==> s[i] == s[j] || ScopeBefore(s[i], s[j])
  }

  ghost predicate EnvironmentInOrder(s: seq<Variable>) {
    forall i, j :: 0 <= i < j < |s| ==> s[i] == s[j] || VariableBefore(s[i], s[j])
  }

  /** Canonical form is the same policy with the three lists in order. */
  lemma {:induction false} CanonicalInOrder(p: Policy)
    ensures SameUpToOrder(p, Canonical(p))
    ensures ScopesInOrder(Canonical(p).readScopes) && ScopesInOrder(Canonical(p).writeScopes)
    ensures EnvironmentInOrder(Canonical(p).environment)
  {
    ScopesSorted(p.readScopes);
    ScopesSorted(p.writeScopes);
    EnvironmentSorted(p.environment);
    CanonicalForgetsOrder(p, Canonical(p));
  }

  lemma {:induction false} ScopesSorted(s: Scopes)
    ensures ScopesInOrder(SortScopes(s))
  {
    var t := SortScopes(s);
    ScopesTotal();
    SortSorted(ScopeLess, s);
    forall i, j | 0 <= i < j < |t| ensures t[i] == t[j] || ScopeBefore(t[i], t[j]) {
      ScopeOrder(t[i], t[j], t[i]);
      ScopeExactly(t[i], t[j]);
    }
  }

  lemma {:induction false} EnvironmentSorted(s: Environment)
    ensures EnvironmentInOrder(SortEnvironment(s))
  {
    var t := SortEnvironment(s);
    VariablesTotal();
    SortSorted(VariableLess, s);
    forall i, j | 0 <= i < j < |t| ensures t[i] == t[j] || VariableBefore(t[i], t[j]) {
      VariableOrder(t[i], t[j], t[i]);
      VariableExactly(t[i], t[j]);
    }
  }

  /** Equal but for the order of read scopes, write scopes and environment. */
  predicate SameUpToOrder(p: Policy, q: Policy) {
    && multiset(p.readScopes) == multiset(q.readScopes)
    && multiset(p.writeScopes) == multiset(q.writeScopes)
    && multiset(p.environment) == multiset(q.environment)
    && p.(readScopes := [], writeScopes := [], environment := [])
       == q.(readScopes := [], writeScopes := [], environment := [])
  }

  /** Canonical form keeps a policy up to order, and forgets exactly that order. */
  lemma {:induction false} CanonicalForgetsOrder(p: Policy, q: Policy)
    ensures SameUpToOrder(p, q) <==> Canonical(p) == Canonical(q)
  {
    ScopesTotal();
    VariablesTotal();
    SortForgetsOrder(ScopeLess, p.readScopes, q.readScopes);
    SortForgetsOrder(ScopeLess, p.writeScopes, q.writeScopes);
    SortForgetsOrder(VariableLess, p.environment, q.environment);
    assert Canonical(p) == Canonical(q) ==>
      p.(readScopes := [], writeScopes := [], environment := [])
      == Canonical(p).(readScopes := [], writeScopes := [], environment := []);
  }
}
