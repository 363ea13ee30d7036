/** What every reachable replay state keeps, and who wrote each file. */
module Topology {
  import opened Outcomes
  import opened Paths
  import opened Manifest
  import opened Replay
  import opened BlobAccounting
  import opened Runs
  import opened Sources

  ghost predicate FileOk(p: Path, e: Endpoint) {
    Portable(p) && e.byteLength <= MAX_DURABLE_LENGTH && e.mode <= MAX_UNIX_MODE
  }

  /** Files and directories are disjoint, every ancestor is a directory, and all paths stay portable. */
  ghost predicate Topological(t: Tree) {
    && (forall p :: p in t.files ==> p !in t.directories)
    && (forall p {:trigger FileOk(p, t.files[p])} :: p in t.files ==> FileOk(p, t.files[p]))
    && (forall d {:trigger Portable(d)} :: d in t.directories ==> Portable(d))
    && (forall p, a {:trigger p in t.files, IsAncestor(a, p)} :: p in t.files && IsAncestor(a, p) ==>
      a in t.directories)
    && (forall d, a {:trigger d in t.directories, IsAncestor(a, d)} :: d in t.directories && IsAncestor(a, d) ==>
      a in t.directories)
    && |t.directories| <= MAX_MANIFEST_ENTRIES
  }

  /** The metadata a validated material can stamp on a file. */
  predicate StampBounded(step: Step) {
    step.stamp.Some? ==>
      && step.stamp.value.byteLength <= MAX_FILE_BYTES
      && (step.stamp.value.createMode.Some? ==> step.stamp.value.createMode.value <= MAX_UNIX_MODE)
  }

  ghost predicate StepsBounded(steps: seq<Step>) {
    forall s :: s in steps ==> StampBounded(s)
  }

  /** One accepted step keeps the topology and loses no directory. */
  lemma {:induction false} EffectKeepsTopology(step: Step, t: Tree)
    requires StampBounded(step) && Topological(t) && Effect(step, t).Some?
    ensures Topological(Effect(step, t).value)
    ensures t.directories <= Effect(step, t).value.directories
  {
    if step.op.Create? {
      CreateKeepsTopology(step, t);
    } else {
      var u := Effect(step, t).value;
      forall p | p in u.files ensures FileOk(p, u.files[p]) {
        assert FileOk(p, t.files[p]);
      }
    }
  }

  lemma {:induction false} CreateKeepsTopology(step: Step, t: Tree)
    requires StampBounded(step) && Topological(t) && Effect(step, t).Some? && step.op.Create?
    ensures Topological(Effect(step, t).value)
  {
    var path := step.op.path;
    var u := Effect(step, t).value;
    assert u.directories == t.directories + Ancestors(path);
    forall d | d in u.directories ensures Portable(d) {
      if d !in t.directories { AncestorPortable(d, path); }
    }
    forall d, a | d in u.directories && IsAncestor(a, d) ensures a in u.directories {
      if d !in t.directories { AncestorTransitive(a, d, path); }
    }
    forall p | p in u.files ensures FileOk(p, u.files[p]) && p !in u.directories {
      if p != path { assert !Related(p, path); }
    }
    if SLASH !in path {
      assert forall a :: !IsAncestor(a, path);
      assert u.directories == t.directories;
    }
  }

  lemma {:induction false} RunKeepsTopology(steps: seq<Step>, n: nat, t: Tree)
    requires StepsBounded(steps) && n <= |steps| && Topological(t) && Run(steps, n, t).Some?
    ensures Topological(Run(steps, n, t).value)
    ensures t.directories <= Run(steps, n, t).value.directories
  {
    if n > 0 {
      RunKeepsTopology(steps, n - 1, t);
      EffectKeepsTopology(steps[n - 1], Run(steps, n - 1, t).value);
    }
  }

  /**
   * In a topological tree the probe for files below a new path never decides anything:
   * such a file would already make the path a directory.
   */
  lemma {:induction false} DescendantProbeRedundant(t: Tree, path: Path)
    requires Topological(t) && path !in t.directories
    ensures forall f :: f in t.files ==> !IsAncestor(path, f)
  {
  }

  // ---------- last-writer provenance ----------

  /** The last of the first `n` steps that names `p`. */
  function LastTouch(steps: seq<Step>, n: nat, p: Path): (i: Option<nat>)
    requires n <= |steps|
    ensures i.Some? ==> i.value < n && steps[i.value].op.path == p
    ensures forall j :: (if i.Some? then i.value + 1 else 0) <= j < n ==> steps[j].op.path != p
  {
    if n == 0 then None
    else if steps[n - 1].op.path == p then Some(n - 1)
    else LastTouch(steps, n - 1, p)
  }

  /** What the last step that names a path leaves there. */
  ghost predicate WrittenBy(step: Step, p: Path, t: Tree) {
    StepComplete(step) &&
    match step.op
    case Delete(_, _) => p !in t.files
    case Create(_, resultHash) =>
      var s := step.stamp.value;
      p in t.files && t.files[p] == Endpoint(resultHash, s.byteLength, s.createMode.value, Some(s.origin))
    case Modify(_, _, resultHash) =>
      var s := step.stamp.value;
      && p in t.files && t.files[p].digest == resultHash
      && t.files[p].byteLength == s.byteLength && t.files[p].origin == Some(s.origin)
  }

  ghost predicate SameFile(p: Path, t: Tree, u: Tree) {
    (p in t.files <==> p in u.files) && (p in t.files ==> t.files[p] == u.files[p])
  }

  /** The last of the first `n` steps that creates `p`. */
  function LastCreate(steps: seq<Step>, n: nat, p: Path): (i: Option<nat>)
    requires n <= |steps|
    ensures i.Some? ==> i.value < n && steps[i.value].op.Create? && steps[i.value].op.path == p
    ensures forall j :: (if i.Some? then i.value + 1 else 0) <= j < n ==>
      !(steps[j].op.Create? && steps[j].op.path == p)
  {
    if n == 0 then None
    else if steps[n - 1].op.Create? && steps[n - 1].op.path == p then Some(n - 1)
    else LastCreate(steps, n - 1, p)
  }

  /** Mode `mode` comes from the last creation of `p`, or from the starting tree if no step creates it. */
  ghost predicate ModeFrom(steps: seq<Step>, n: nat, t: Tree, p: Path, mode: nat)
    requires n <= |steps|
  {
    match LastCreate(steps, n, p)
    case None => p in t.files && t.files[p].mode == mode
    case Some(c) => steps[c].stamp.Some? && steps[c].stamp.value.createMode == Some(mode)
  }

  lemma {:induction false} StepKeepsMode(step: Step, t: Tree, u: Tree, p: Path)
    requires Effect(step, t) == Some(u) && p in u.files
    ensures step.op.Create? && step.op.path == p ==>
      step.stamp.Some? && step.stamp.value.createMode == Some(u.files[p].mode)
    ensures !(step.op.Create? && step.op.path == p) ==> p in t.files && t.files[p].mode == u.files[p].mode
  {
  }

  /** One more step either creates `p`, and decides the mode, or leaves it. */
  ghost predicate ModeNext(steps: seq<Step>, n: nat, t: Tree, p: Path, mode: nat)
    requires 0 < n <= |steps|
  {
    if steps[n - 1].op.Create? && steps[n - 1].op.path == p then
      steps[n - 1].stamp.Some? && steps[n - 1].stamp.value.createMode == Some(mode)
    else ModeFrom(steps, n - 1, t, p, mode)
  }

  lemma {:induction false} ModeFromNext(steps: seq<Step>, n: nat, t: Tree, p: Path, mode: nat)
    requires 0 < n <= |steps| && ModeNext(steps, n, t, p, mode)
    ensures ModeFrom(steps, n, t, p, mode)
  {
  }

  /** A file at `p` after the first `n` steps has the mode of its last creation, or else the one it had. */
  ghost predicate ModeStands(steps: seq<Step>, n: nat, t: Tree, u: Tree, p: Path)
    requires n <= |steps|
  {
    p in u.files ==> ModeFrom(steps, n, t, p, u.files[p].mode)
  }

  lemma {:induction false} ModeOfLastCreate(steps: seq<Step>, n: nat, t: Tree, p: Path)
    requires n <= |steps| && Run(steps, n, t).Some?
    ensures ModeStands(steps, n, t, Run(steps, n, t).value, p)
  {
    forall i: nat, u, v | i < |steps| && ModeStands(steps, i, t, u, p) && Effect(steps[i], u) == Some(v)
      ensures ModeStands(steps, i + 1, t, v, p)
    {
      if p in v.files {
        StepKeepsMode(steps[i], u, v, p);
        ModeFromNext(steps, i + 1, t, p, v.files[p].mode);
      }
    }
    IterateKeeps(Effect, steps, n, t, (i: nat, u: Tree) => i <= |steps| && ModeStands(steps, i, t, u, p));
  }

  /** What the first `n` steps leave at `p`: what was there, or what the last of them to name it writes. */
  ghost predicate TouchStands(steps: seq<Step>, n: nat, t: Tree, u: Tree, p: Path)
    requires n <= |steps|
  {
    match LastTouch(steps, n, p)
    case None => SameFile(p, t, u)
    case Some(i) => WrittenBy(steps[i], p, u)
  }

  lemma {:induction false} LastTouchStands(steps: seq<Step>, n: nat, t: Tree, p: Path)
    requires n <= |steps| && Run(steps, n, t).Some?
    ensures TouchStands(steps, n, t, Run(steps, n, t).value, p)
  {
    forall i: nat, u, v | i < |steps| && TouchStands(steps, i, t, u, p) && Effect(steps[i], u) == Some(v)
      ensures TouchStands(steps, i + 1, t, v, p)
    {
      StepWrites(steps[i], u, v, p);
      TouchNext(steps, i, t, u, v, p);
    }
    IterateKeeps(Effect, steps, n, t, (i: nat, u: Tree) => i <= |steps| && TouchStands(steps, i, t, u, p));
  }

  lemma {:induction false} StepWrites(step: Step, t: Tree, u: Tree, p: Path)
    requires Effect(step, t) == Some(u)
    ensures if step.op.path == p then WrittenBy(step, p, u) else SameFile(p, t, u)
  {
  }

  lemma {:induction false} TouchNext(steps: seq<Step>, i: nat, t: Tree, before: Tree, after: Tree, p: Path)
    requires i < |steps| && TouchStands(steps, i, t, before, p)
    requires if steps[i].op.path == p then WrittenBy(steps[i], p, after) else SameFile(p, before, after)
    ensures TouchStands(steps, i + 1, t, after, p)
  {
  }

  /**
   * The last writer wins: an untouched path keeps its base entry exactly, a touched one shows its last step, and its
   * mode is that of its last creation or else the one it had.
   */
  lemma {:induction false} LastWriterWins(steps: seq<Step>, n: nat, t: Tree, p: Path)
    requires n <= |steps| && Run(steps, n, t).Some?
    ensures var u := Run(steps, n, t).value;
      match LastTouch(steps, n, p)
      case None => SameFile(p, t, u)
      case Some(i) => WrittenBy(steps[i], p, u)
    ensures var u := Run(steps, n, t).value;
      p in u.files ==> ModeFrom(steps, n, t, p, u.files[p].mode)
  {
    LastTouchStands(steps, n, t, p);
    ModeOfLastCreate(steps, n, t, p);
  }

  // ---------- what replaying one source does ----------

  lemma {:induction false} PrefixRuns(steps: seq<Step>, n: nat, t: Tree)
    requires n <= |steps| && RunAll(steps, t).Some?
    ensures Run(steps, n, t).Some?
  {
    if Run(steps, n, t).None? {
      IterateFailed(Effect, steps, n, t);
    }
  }

  /** Directories come from the starting tree and from the paths created. */
  ghost predicate DirectoryStands(steps: seq<Step>, n: nat, t: Tree, u: Tree, d: Path)
    requires n <= |steps|
  {
    d in u.directories <==>
    d in t.directories || exists j :: 0 <= j < n && steps[j].op.Create? && d + [47] <= steps[j].op.path
  }

  lemma {:induction false} DirectoriesAfter(steps: seq<Step>, n: nat, t: Tree, d: Path)
    requires n <= |steps| && Run(steps, n, t).Some?
    ensures DirectoryStands(steps, n, t, Run(steps, n, t).value, d)
  {
    forall i: nat, u, v | i < |steps| && DirectoryStands(steps, i, t, u, d) && Effect(steps[i], u) == Some(v)
      ensures DirectoryStands(steps, i + 1, t, v, d)
    {
      StepDirectories(steps[i], u, v, d);
    }
    IterateKeeps(Effect, steps, n, t, (i: nat, u: Tree) => i <= |steps| && DirectoryStands(steps, i, t, u, d));
  }

  lemma {:induction false} StepDirectories(step: Step, t: Tree, u: Tree, d: Path)
    requires Effect(step, t) == Some(u)
    ensures d in u.directories <==> d in t.directories || (step.op.Create? && d + [47] <= step.op.path)
  {
    if step.op.Create? {
      CreateExactly(step, t);
    }
  }

  /** The material of operation `i` makes the endpoint: its length, the source's origin and the given mode. */
  ghost predicate Supplied(s: Source, i: nat, hash: Digest, mode: nat, e: Endpoint) {
    exists m :: m in s.materials && m.operationIndex == i
      && e == Endpoint(hash, m.byteLength, mode, Some(Origin(s.ordinal, s.artifact)))
  }

  ghost predicate SuppliedNew(s: Source, i: nat, hash: Digest, e: Endpoint) {
    Supplied(s, i, hash, e.mode, e)
      && exists m :: m in s.materials && m.operationIndex == i && m.kind == CreateMaterial(e.mode)
  }

  /** Operation `i` between the tree before the source and the tree after it. */
  ghost predicate Performed(s: Source, i: nat, t: Tree, u: Tree)
    requires i < |s.operations|
  {
    match s.operations[i]
    case Create(p, hash) =>
      p !in t.files && p !in t.directories && p in u.files && SuppliedNew(s, i, hash, u.files[p])
    case Modify(p, baseHash, hash) =>
      p in t.files && t.files[p].digest == baseHash
      && p in u.files && Supplied(s, i, hash, t.files[p].mode, u.files[p])
    case Delete(p, baseHash) =>
      p in t.files && t.files[p].digest == baseHash && p !in u.files
  }

  /** Nothing but operation `i` names its path. */
  lemma {:induction false} NamedOnce(s: Source, i: nat)
    requires ValidSource(s) && i < |s.operations|
    ensures var p := s.operations[i].path;
      && LastTouch(SourceSteps(s), i, p).None?
      && LastTouch(SourceSteps(s), |s.operations|, p) == Some(i)
      && LastCreate(SourceSteps(s), |s.operations|, p) == if s.operations[i].Create? then Some(i) else None
  {
    var steps, p := SourceSteps(s), s.operations[i].path;
    forall j | 0 <= j < |steps| && j != i ensures steps[j].op.path != p {
      assert steps[j].op == s.operations[j];
    }
    assert steps[i].op == s.operations[i];
  }

  /** What operation `i` meets is what stood there before the source. */
  lemma {:induction false} MetUnchanged(s: Source, i: nat, t: Tree) returns (before: Tree)
    requires ValidSource(s) && i < |s.operations| && RunAll(SourceSteps(s), t).Some?
    ensures Effect(SourceStep(s, i), before).Some? && SameFile(s.operations[i].path, t, before)
    ensures forall d :: d in t.directories ==> d in before.directories
  {
    var steps := SourceSteps(s);
    PrefixRuns(steps, i, t);
    PrefixRuns(steps, i + 1, t);
    before := Run(steps, i, t).value;
    RunNext(steps, i, t, before);
    NamedOnce(s, i);
    LastTouchStands(steps, i, t, s.operations[i].path);
    forall d | d in t.directories ensures d in before.directories {
      DirectoriesAfter(steps, i, t, d);
    }
  }

  lemma {:induction false} OperationPerformed(s: Source, i: nat, t: Tree)
    requires ValidSource(s) && i < |s.operations| && RunAll(SourceSteps(s), t).Some?
    ensures Performed(s, i, t, RunAll(SourceSteps(s), t).value)
  {
    var steps, op, u := SourceSteps(s), s.operations[i], RunAll(SourceSteps(s), t).value;
    var before := MetUnchanged(s, i, t);
    NamedOnce(s, i);
    LastWriterWins(steps, |steps|, t, op.path);
    if op.Create? {
      SourceStepComplete(s, i);
      CreateExactly(SourceStep(s, i), before);
    } else {
      EditMet(SourceStep(s, i), before);
    }
    if !op.Delete? {
      var m := s.materials[MaterialIndex(s.operations, i)];
      assert MaterialFits(s, i, m) && m in s.materials;
    }
  }

  lemma {:induction false} EditMet(step: Step, t: Tree)
    requires !step.op.Create? && Effect(step, t).Some?
    ensures step.op.path in t.files && t.files[step.op.path].digest == step.op.baseHash
  {
  }

  /**
   * Replaying a valid source does what its operations say, each at its own path: new files with their material's
   * mode, modified ones with the mode they had, deleted ones gone, everything else as it was.
   */
  lemma {:induction false} SourceReplayMeans(s: Source, t: Tree, u: Tree)
    requires ValidSource(s) && RunAll(SourceSteps(s), t) == Some(u)
    ensures forall i: nat :: i < |s.operations| ==> Performed(s, i, t, u)
    ensures forall p :: (forall op :: op in s.operations ==> op.path != p) ==>
      (p in u.files <==> p in t.files) && (p in t.files ==> u.files[p] == t.files[p])
    ensures forall d :: d in u.directories <==>
      d in t.directories || exists op :: op in s.operations && op.Create? && d + [47] <= op.path
  {
    forall i: nat | i < |s.operations| ensures Performed(s, i, t, u) {
      OperationPerformed(s, i, t);
    }
    forall p | forall op :: op in s.operations ==> op.path != p
      ensures (p in u.files <==> p in t.files) && (p in t.files ==> u.files[p] == t.files[p])
    {
      UnnamedStands(s, t, p);
    }
    forall d ensures d in u.directories <==>
      d in t.directories || exists op :: op in s.operations && op.Create? && d + [47] <= op.path
    {
      SourceDirectories(s, t, d);
    }
  }

  lemma {:induction false} UnnamedStands(s: Source, t: Tree, p: Path)
    requires RunAll(SourceSteps(s), t).Some? && forall op :: op in s.operations ==> op.path != p
    ensures SameFile(p, t, RunAll(SourceSteps(s), t).value)
  {
    var steps := SourceSteps(s);
    LastTouchStands(steps, |steps|, t, p);
    forall j | 0 <= j < |steps| ensures steps[j].op.path != p {
      assert s.operations[j] in s.operations;
    }
  }

  lemma {:induction false} SourceDirectories(s: Source, t: Tree, d: Path)
    requires RunAll(SourceSteps(s), t).Some?
    ensures d in RunAll(SourceSteps(s), t).value.directories <==>
      d in t.directories || exists op :: op in s.operations && op.Create? && d + [47] <= op.path
  {
    var steps := SourceSteps(s);
    DirectoriesAfter(steps, |steps|, t, d);
    if j :| 0 <= j < |steps| && steps[j].op.Create? && d + [47] <= steps[j].op.path {
      assert s.operations[j] in s.operations;
    }
    if op :| op in s.operations && op.Create? && d + [47] <= op.path {
      var j :| 0 <= j < |s.operations| && s.operations[j] == op;
      assert steps[j].op == op;
    }
  }

  // ---------- the steps of a source list ----------

  lemma {:induction false} SourceStepsBounded(s: Source)
    requires MaterialsMatch(s)
    ensures StepsBounded(SourceSteps(s))
  {
    var steps := SourceSteps(s);
    forall i | 0 <= i < |steps| ensures StampBounded(steps[i]) {
      if NeedsMaterial(s.operations[i]) {
        assert MaterialFits(s, i, s.materials[MaterialIndex(s.operations, i)]);
      }
    }
  }

  lemma {:induction false} AllStepsBounded(sources: seq<Source>, n: nat)
    requires Ready(sources, n)
    ensures StepsBounded(AllSteps(sources, n))
  {
    if n > 0 {
      AllStepsBounded(sources, n - 1);
      SourceStepsBounded(sources[n - 1]);
    }
  }

  /** Where step `i` of a source list comes from. */
  ghost predicate StepFrom(sources: seq<Source>, step: Step, k: nat, j: nat) {
    k < |sources| && j < |sources[k].operations| && step == SourceStep(sources[k], j)
  }

  /** The position of operation `j` of source `k` among all steps. */
  ghost function Offset(sources: seq<Source>, k: nat): nat
    requires k <= |sources|
  {
    if k == 0 then 0 else Offset(sources, k - 1) + |sources[k - 1].operations|
  }

  lemma {:induction false} StepAt(sources: seq<Source>, n: nat, k: nat, j: nat)
    requires n <= |sources| && k < n && j < |sources[k].operations|
    ensures |AllSteps(sources, n)| == Offset(sources, n)
    ensures Offset(sources, k) + j < |AllSteps(sources, n)|
    ensures AllSteps(sources, n)[Offset(sources, k) + j] == SourceSteps(sources[k])[j]
    decreases n
  {
    AllStepsLength(sources, n);
    AllStepsLength(sources, n - 1);
    if k < n - 1 {
      StepAt(sources, n - 1, k, j);
    }
  }

  lemma {:induction false} AllStepsLength(sources: seq<Source>, n: nat)
    requires n <= |sources|
    ensures |AllSteps(sources, n)| == Offset(sources, n)
  {
    if n > 0 {
      AllStepsLength(sources, n - 1);
    }
  }

  lemma {:induction false} OffsetMonotone(sources: seq<Source>, k: nat, n: nat)
    requires k <= n <= |sources|
    ensures Offset(sources, k) <= Offset(sources, n)
    ensures k < n ==> Offset(sources, k) + |sources[k].operations| <= Offset(sources, n)
    decreases n
  {
    if k < n {
      OffsetMonotone(sources, k, n - 1);
    }
  }

  lemma {:induction false} LocateStep(sources: seq<Source>, n: nat, i: nat) returns (k: nat, j: nat)
    requires n <= |sources| && i < |AllSteps(sources, n)|
    ensures k < n && StepFrom(sources, AllSteps(sources, n)[i], k, j) && i == Offset(sources, k) + j
  {
    AllStepsLength(sources, n - 1);
    if i < |AllSteps(sources, n - 1)| {
      k, j := LocateStep(sources, n - 1, i);
    } else {
      k, j := n - 1, i - |AllSteps(sources, n - 1)|;
    }
  }

  /** No operation of sources `from`..`n` names `p`. */
  ghost predicate Avoids(sources: seq<Source>, from: nat, n: nat, p: Path)
    requires n <= |sources|
  {
    forall k, op :: from <= k < n && op in sources[k].operations ==> op.path != p
  }

  /** A material of source `s` holds the bytes of file `p`, and the mode if it creates the file. */
  ghost predicate Holds(s: Source, m: SourceMaterial, p: Path, e: Endpoint) {
    && m in s.materials
    && m.path == p && m.resultDigest == e.digest && m.byteLength == e.byteLength && m.artifact == s.artifact
    && e.origin == Some(Origin(s.ordinal, m.artifact))
    && (m.kind.CreateMaterial? ==> e.mode == m.kind.mode)
  }

  /** Source `k` holds the bytes of file `p`, and no later source names `p`. */
  ghost predicate HeldBy(sources: seq<Source>, n: nat, p: Path, e: Endpoint, k: nat, m: SourceMaterial) {
    k < n <= |sources| && Holds(sources[k], m, p, e) && Avoids(sources, k + 1, n, p)
  }

  /** Operation `j` of source `k` creates `p` and material `m` says with which mode; nothing later creates `p`. */
  ghost predicate CreatedBy(sources: seq<Source>, n: nat, p: Path, mode: nat, k: nat, j: nat, m: SourceMaterial) {
    && k < n <= |sources| && j < |sources[k].operations|
    && sources[k].operations[j].Create? && sources[k].operations[j].path == p
    && m in sources[k].materials && m.operationIndex == j && m.kind == CreateMaterial(mode)
    && (forall i :: j < i < |sources[k].operations| ==>
         !(sources[k].operations[i].Create? && sources[k].operations[i].path == p))
    && NotCreated(sources, k + 1, n, p)
  }

  /** No operation of sources `from`..`n` creates `p`. */
  ghost predicate NotCreated(sources: seq<Source>, from: nat, n: nat, p: Path)
    requires n <= |sources|
  {
    forall k, op :: from <= k < n && op in sources[k].operations ==> !(op.Create? && op.path == p)
  }

  /** The mode of a file of the final tree: of its last creation among the sources, or of the base. */
  ghost predicate ModeTraced(sources: seq<Source>, n: nat, base: Tree, p: Path, mode: nat) {
    || (exists k, j, m :: CreatedBy(sources, n, p, mode, k, j, m))
    || (n <= |sources| && NotCreated(sources, 0, n, p) && p in base.files && base.files[p].mode == mode)
  }

  lemma {:induction false} LaterNotCreated(sources: seq<Source>, n: nat, p: Path, from: nat, first: nat)
    requires first <= n <= |sources|
    requires forall i :: from <= i < |AllSteps(sources, n)| ==>
      !(AllSteps(sources, n)[i].op.Create? && AllSteps(sources, n)[i].op.path == p)
    requires from <= Offset(sources, first)
    ensures NotCreated(sources, first, n, p)
  {
    forall k, op | first <= k < n && op in sources[k].operations ensures !(op.Create? && op.path == p) {
      var j :| 0 <= j < |sources[k].operations| && sources[k].operations[j] == op;
      StepAt(sources, n, k, j);
      OffsetMonotone(sources, first, k);
    }
  }

  lemma {:induction false} LastCreateHolds(sources: seq<Source>, n: nat, p: Path, mode: nat, i: nat)
    requires Ready(sources, n)
    requires LastCreate(AllSteps(sources, n), |AllSteps(sources, n)|, p) == Some(i)
    requires AllSteps(sources, n)[i].stamp.Some? && AllSteps(sources, n)[i].stamp.value.createMode == Some(mode)
    ensures exists k, j, m :: CreatedBy(sources, n, p, mode, k, j, m)
  {
    var k, j := LocateStep(sources, n, i);
    var m := sources[k].materials[MaterialIndex(sources[k].operations, j)];
    assert MaterialFits(sources[k], j, m);
    OffsetMonotone(sources, k, k + 1);
    LaterNotCreated(sources, n, p, i + 1, k + 1);
    forall i2 | j < i2 < |sources[k].operations|
      ensures !(sources[k].operations[i2].Create? && sources[k].operations[i2].path == p)
    {
      StepAt(sources, n, k, i2);
    }
    assert CreatedBy(sources, n, p, mode, k, j, m);
  }

  lemma {:induction false} ModeProvenance(sources: seq<Source>, n: nat, base: Tree, p: Path, mode: nat)
    requires Ready(sources, n)
    requires ModeFrom(AllSteps(sources, n), |AllSteps(sources, n)|, base, p, mode)
    ensures ModeTraced(sources, n, base, p, mode)
  {
    var last := LastCreate(AllSteps(sources, n), |AllSteps(sources, n)|, p);
    if last.Some? {
      LastCreateHolds(sources, n, p, mode, last.value);
    } else {
      LaterNotCreated(sources, n, p, 0, 0);
    }
  }

  /**
   * Locator provenance. A file without an origin is its base entry untouched by every source; a file with one
   * names the last source that wrote it, and that source's material holds its digest and length. The mode of every
   * file is that of its last creation, or the base's if no source creates it.
   */
  lemma {:induction false} Provenance(sources: seq<Source>, n: nat, base: Tree, p: Path)
    requires Ready(sources, n)
    requires TreeAfter(sources, n, base).Some?
    requires forall q :: q in base.files ==> base.files[q].origin.None?
    ensures var t := TreeAfter(sources, n, base).value;
      p in t.files ==>
        if t.files[p].origin.None? then
          p in base.files && t.files[p] == base.files[p]
          && Avoids(sources, 0, n, p)
        else exists k, m :: HeldBy(sources, n, p, t.files[p], k, m)
    ensures var t := TreeAfter(sources, n, base).value;
      p in t.files ==> ModeTraced(sources, n, base, p, t.files[p].mode)
  {
    var steps := AllSteps(sources, n);
    LastWriterWins(steps, |steps|, base, p);
    if p in TreeAfter(sources, n, base).value.files {
      ModeProvenance(sources, n, base, p, TreeAfter(sources, n, base).value.files[p].mode);
    }
    var last := LastTouch(steps, |steps|, p);
    if last.None? {
      LaterAvoid(sources, n, p, 0, 0);
    } else if p in TreeAfter(sources, n, base).value.files {
      LastWriterHolds(sources, n, TreeAfter(sources, n, base).value, p, last.value);
    }
  }

  lemma {:induction false} LastWriterHolds(sources: seq<Source>, n: nat, t: Tree, p: Path, i: nat)
    requires Ready(sources, n)
    requires LastTouch(AllSteps(sources, n), |AllSteps(sources, n)|, p) == Some(i)
    requires p in t.files && WrittenBy(AllSteps(sources, n)[i], p, t)
    ensures exists k, m :: HeldBy(sources, n, p, t.files[p], k, m)
  {
    var k, j := LocateStep(sources, n, i);
    var m := WriterMaterial(sources[k], j, p, t);
    OffsetMonotone(sources, k, k + 1);
    LaterAvoid(sources, n, p, i + 1, k + 1);
    assert HeldBy(sources, n, p, t.files[p], k, m);
  }

  lemma {:induction false} WriterMaterial(s: Source, j: nat, p: Path, t: Tree) returns (m: SourceMaterial)
    requires MaterialsMatch(s) && j < |s.operations| && s.operations[j].path == p
    requires p in t.files && WrittenBy(SourceSteps(s)[j], p, t)
    ensures Holds(s, m, p, t.files[p])
  {
    m := s.materials[MaterialIndex(s.operations, j)];
    assert MaterialFits(s, j, m);
  }

  /** Steps from `from` on avoid `p`, so the sources whose steps all lie there do. */
  lemma {:induction false} LaterAvoid(sources: seq<Source>, n: nat, p: Path, from: nat, first: nat)
    requires first <= n <= |sources|
    requires forall i :: from <= i < |AllSteps(sources, n)| ==> AllSteps(sources, n)[i].op.path != p
    requires from <= Offset(sources, first)
    ensures Avoids(sources, first, n, p)
  {
    forall k, op | first <= k < n && op in sources[k].operations ensures op.path != p {
      var j :| 0 <= j < |sources[k].operations| && sources[k].operations[j] == op;
      StepAt(sources, n, k, j);
      OffsetMonotone(sources, first, k);
    }
  }
}
