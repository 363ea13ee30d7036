/** The replay state of application composition and one operation against it (application_composition.rs). */
module Replay {
  import opened Outcomes
  import opened Finite
  import opened Paths
  import opened Manifest
  import opened Runs

  datatype FileOperation =
    | Create(path: Path, resultHash: Digest)
    | Modify(path: Path, baseHash: Digest, resultHash: Digest)
    | Delete(path: Path, baseHash: Digest)

  /** Which source, and which of its artifacts, last supplied a file's bytes. */
  datatype Origin = Origin(ordinal: nat, artifact: Digest)

  datatype Endpoint = Endpoint(digest: Digest, byteLength: nat, mode: nat, origin: Option<Origin>)

  datatype Tree = Tree(files: map<Path, Endpoint>, directories: set<Path>)

  /** What a replay reads from the material of a Create or Modify. */
  datatype Stamp = Stamp(byteLength: nat, createMode: Option<nat>, origin: Origin)

  /** One operation as replayed: `ordinal` is None for the aggregate. */
  datatype Step = Step(ordinal: Option<nat>, op: FileOperation, stamp: Option<Stamp>)

  datatype EndpointKind = RegularFile | Directory

  datatype ReplayConflict =
    | InvalidPortablePath(ordinal: Option<nat>, path: Path, kind: PathConflict)
    | CreateOverPresent(ordinal: Option<nat>, path: Path, present: EndpointKind)
    | FileAncestorCollision(ordinal: Option<nat>, path: Path, conflicting: Path)
    | ModifyOverInvalidEndpoint(ordinal: Option<nat>, path: Path, observed: Option<EndpointKind>)
    | DeleteOverInvalidEndpoint(ordinal: Option<nat>, path: Path, observed: Option<EndpointKind>)
    | BaseHashMismatch(ordinal: Option<nat>, path: Path, expected: Digest, found: Digest)
    | DirectoryLimitExceeded

  predicate NeedsMaterial(op: FileOperation) {
    !op.Delete?
  }

  /** The material shape that validation has established before a replay starts. */
  predicate StepComplete(step: Step) {
    (NeedsMaterial(step.op) ==> step.stamp.Some?) && (step.op.Create? ==> step.stamp.value.createMode.Some?)
  }

  /** `a` and `b` cannot both be regular files. */
  predicate Related(a: Path, b: Path) {
    IsAncestor(a, b) || IsAncestor(b, a)
  }

  predicate Fits(directories: set<Path>) {
    |directories| <= MAX_MANIFEST_ENTRIES
  }

  predicate DirectoriesOverflow(t: Tree, path: Path) {
    SLASH in path && !Fits(t.directories + Ancestors(path))
  }

  predicate CreateAllowed(t: Tree, path: Path) {
    path !in t.files && path !in t.directories
      && (forall f :: f in t.files ==> !Related(f, path)) && !DirectoriesOverflow(t, path)
  }

  predicate EditAllowed(t: Tree, path: Path, baseHash: Digest) {
    path !in t.directories && path in t.files && t.files[path].digest == baseHash
  }

  /** The meaning of one step on tree values; None when the replay rejects it. */
  function Effect(step: Step, t: Tree): Option<Tree> {
    var path := step.op.path;
    if !StepComplete(step) || !Portable(path) then None
    else match step.op
      case Create(_, resultHash) =>
        if !CreateAllowed(t, path) then None
        else
          var s := step.stamp.value;
          Some(Tree(t.files[path := Endpoint(resultHash, s.byteLength, s.createMode.value, Some(s.origin))],
                    t.directories + Ancestors(path)))
      case Modify(_, baseHash, resultHash) =>
        if !EditAllowed(t, path, baseHash) then None
        else
          var s := step.stamp.value;
          Some(t.(files := t.files[path := Endpoint(resultHash, s.byteLength, t.files[path].mode, Some(s.origin))]))
      case Delete(_, baseHash) =>
        if !EditAllowed(t, path, baseHash) then None
        else Some(t.(files := t.files - {path}))
  }

  // ---------- one step, field by field ----------

  /** `all` are the directories of the tree and those above `path`. */
  ghost predicate WithParents(t: Tree, path: Path, all: set<Path>) {
    forall d :: d in all <==> d in t.directories || d + [47] <= path
  }

  /** Nothing stands at `path`, no file above it or below it, and its parents do not make too many directories. */
  ghost predicate RoomFor(t: Tree, path: Path) {
    && path !in t.files && path !in t.directories
    && (forall f :: f in t.files ==> !(f + [47] <= path) && !(path + [47] <= f))
    && (47 in path ==> exists all :: WithParents(t, path, all) && |all| <= 65536)
  }

  lemma {:induction false} ParentsExactly(t: Tree, path: Path, all: set<Path>)
    ensures WithParents(t, path, all) <==> all == t.directories + Ancestors(path)
  {
    forall d | d in t.directories + Ancestors(path) || d + [47] <= path
      ensures d in t.directories + Ancestors(path) <==> d in t.directories || d + [47] <= path
    {
      AncestorExactly(d, path);
    }
    if WithParents(t, path, all) {
      forall d ensures d in all <==> d in t.directories + Ancestors(path) {
        AncestorExactly(d, path);
      }
    }
  }

  lemma {:induction false} FewExactly(t: Tree, path: Path)
    ensures (exists all :: WithParents(t, path, all) && |all| <= 65536) <==> Fits(t.directories + Ancestors(path))
  {
    ParentsExactly(t, path, t.directories + Ancestors(path));
    if all :| WithParents(t, path, all) && |all| <= 65536 {
      ParentsExactly(t, path, all);
    }
  }

  lemma {:induction false} RoomExactly(t: Tree, path: Path)
    ensures RoomFor(t, path) <==> CreateAllowed(t, path)
  {
    forall f | f in t.files ensures Related(f, path) <==> f + [47] <= path || path + [47] <= f {
      AncestorExactly(f, path);
      AncestorExactly(path, f);
    }
    FewExactly(t, path);
  }

  /** A Create puts its digest and the length, mode and origin of its material, and makes the directories above. */
  lemma {:induction false} CreateExactly(step: Step, t: Tree)
    requires step.op.Create? && step.stamp.Some? && step.stamp.value.createMode.Some?
    ensures Effect(step, t).Some? <==> Portable(step.op.path) && RoomFor(t, step.op.path)
    ensures Effect(step, t).Some? ==>
      var u, p, s := Effect(step, t).value, step.op.path, step.stamp.value;
      && u.files == t.files[p := Endpoint(step.op.resultHash, s.byteLength, s.createMode.value, Some(s.origin))]
      && WithParents(t, p, u.directories)
  {
    RoomExactly(t, step.op.path);
    ParentsExactly(t, step.op.path, t.directories + Ancestors(step.op.path));
  }

  /** A Modify needs the file with its base digest; it keeps the file's mode and touches nothing else. */
  lemma {:induction false} ModifyExactly(step: Step, t: Tree)
    requires step.op.Modify? && step.stamp.Some?
    ensures var p := step.op.path;
      Effect(step, t).Some? <==>
      Portable(p) && p in t.files && p !in t.directories && t.files[p].digest == step.op.baseHash
    ensures Effect(step, t).Some? ==>
      var p, s := step.op.path, step.stamp.value;
      && p in t.files
      && Effect(step, t).value == Tree(
           t.files[p := Endpoint(step.op.resultHash, s.byteLength, t.files[p].mode, Some(s.origin))], t.directories)
  {
  }

  /** A Delete needs the file with its base digest and removes it alone. */
  lemma {:induction false} DeleteExactly(step: Step, t: Tree)
    requires step.op.Delete?
    ensures var p := step.op.path;
      Effect(step, t).Some? <==>
      Portable(p) && p in t.files && p !in t.directories && t.files[p].digest == step.op.baseHash
    ensures Effect(step, t).Some? ==> Effect(step, t).value == Tree(t.files - {step.op.path}, t.directories)
  {
  }

  /** Runs the first `n` steps. */
  function Run(steps: seq<Step>, n: nat, t: Tree): Option<Tree>
    requires n <= |steps|
  {
    Iterate(Effect, steps, n, t)
  }

  function RunAll(steps: seq<Step>, t: Tree): Option<Tree> {
    Run(steps, |steps|, t)
  }

  /** A rejected creation names a fact about the tree that forbids it. */
  predicate ExplainsCreate(e: ReplayConflict, ordinal: Option<nat>, path: Path, t: Tree) {
    match e
    case CreateOverPresent(o, p, present) =>
      o == ordinal && p == path
        && (if present.RegularFile? then path in t.files else path !in t.files && path in t.directories)
    case FileAncestorCollision(o, p, conflicting) =>
      o == ordinal && p == path && conflicting in t.files && Related(conflicting, path)
    case DirectoryLimitExceeded => DirectoriesOverflow(t, path)
    case _ => false
  }

  /** A rejection names the step's ordinal and path and a fact about the tree that forbids the step. */
  predicate Explains(e: ReplayConflict, step: Step, t: Tree) {
    var path := step.op.path;
    match e
    case InvalidPortablePath(o, p, kind) => o == step.ordinal && p == path && PathConflictOf(path) == Some(kind)
    case ModifyOverInvalidEndpoint(o, p, observed) =>
      step.op.Modify? && o == step.ordinal && p == path && ObservedInvalid(t, path, observed)
    case DeleteOverInvalidEndpoint(o, p, observed) =>
      step.op.Delete? && o == step.ordinal && p == path && ObservedInvalid(t, path, observed)
    case BaseHashMismatch(o, p, expected, found) =>
      !step.op.Create? && o == step.ordinal && p == path && expected == step.op.baseHash
      && path in t.files && t.files[path].digest == found && found != expected
    case _ => step.op.Create? && ExplainsCreate(e, step.ordinal, path, t)
  }

  predicate ObservedInvalid(t: Tree, path: Path, observed: Option<EndpointKind>) {
    if path in t.directories then observed == Some(Directory) else observed.None? && path !in t.files
  }

  /** A run stops at some step, and the conflict explains why that step cannot follow the ones before it. */
  ghost predicate RejectsRun(e: ReplayConflict, steps: seq<Step>, t: Tree) {
    exists i: nat, u :: i < |steps| && RejectsAt(e, steps, t, i, u)
  }

  ghost predicate RejectsAt(e: ReplayConflict, steps: seq<Step>, t: Tree, i: nat, u: Tree)
    requires i < |steps|
  {
    Run(steps, i, t) == Some(u) && Explains(e, steps[i], u)
  }

  /** The run after one more step, from the tree before it... */
  lemma {:induction false} RunNext(steps: seq<Step>, i: nat, t: Tree, u: Tree)
    requires i < |steps| && Run(steps, i, t) == Some(u)
    ensures Run(steps, i + 1, t) == Effect(steps[i], u)
  {
  }

  /** An explained conflict is a rejected step, so the run it names stops there. */
  lemma {:induction false} RejectedRunStops(steps: seq<Step>, t: Tree, e: ReplayConflict)
    requires RejectsRun(e, steps, t)
    ensures RunAll(steps, t).None?
  {
    var i: nat, u :| i < |steps| && RejectsAt(e, steps, t, i, u);
    RunNext(steps, i, t, u);
    ExplainedIsRejected(e, steps[i], u);
    IterateFailed(Effect, steps, i + 1, t);
  }

  lemma {:induction false} ExplainedIsRejected(e: ReplayConflict, step: Step, t: Tree)
    requires Explains(e, step, t)
    ensures Effect(step, t).None?
  {
  }

  /** Every ancestor of `path` may become a directory. */
  predicate ParentsAllowed(t: Tree, path: Path) {
    (forall a :: a in Ancestors(path) ==> a !in t.files) && !DirectoriesOverflow(t, path)
  }

  predicate ExplainsParents(e: ReplayConflict, ordinal: Option<nat>, path: Path, t: Tree) {
    match e
    case FileAncestorCollision(o, p, a) => o == ordinal && p == path && a in t.files && IsAncestor(a, path)
    case DirectoryLimitExceeded => DirectoriesOverflow(t, path)
    case _ => false
  }

  /** After the separators before `k`: the ancestors they cut are directories, none is a file, and all fit. */
  ghost predicate ParentsEnsured(t: Tree, path: Path, k: nat, directories: set<Path>) {
    && k <= |path|
    && (forall d :: d in directories <==> d in t.directories || d in AncestorsBefore(path, k))
    && (forall a :: a in AncestorsBefore(path, k) ==> a !in t.files)
    && (SLASH in path[..k] ==> Fits(directories))
  }

  lemma {:induction false} ParentsNext(t: Tree, path: Path, k: nat, before: set<Path>, after: set<Path>)
    requires k < |path| && ParentsEnsured(t, path, k, before)
    requires forall d :: d in after <==> d in before || (path[k] == SLASH && d == path[..k])
    requires if path[k] == SLASH then path[..k] !in t.files && Fits(after) else after == before
    ensures ParentsEnsured(t, path, k + 1, after)
  {
    assert path[..k + 1] == path[..k] + [path[k]];
  }

  /** An ancestor that is refused forbids the whole. */
  lemma {:induction false} ParentRefused(t: Tree, path: Path, k: nat, before: set<Path>, after: set<Path>)
    requires k < |path| && path[k] == SLASH && ParentsEnsured(t, path, k, before)
    requires forall d :: d in after <==> d in before || d == path[..k]
    requires path[..k] !in t.files ==> !Fits(after)
    ensures IsAncestor(path[..k], path) && !ParentsAllowed(t, path)
    ensures path[..k] !in t.files ==> DirectoriesOverflow(t, path)
  {
    assert path[..k] in Ancestors(path);
    if path[..k] !in t.files {
      SubsetSize(after, t.directories + Ancestors(path));
    }
  }

  lemma {:induction false} ParentsComplete(t: Tree, path: Path, directories: set<Path>)
    requires ParentsEnsured(t, path, |path|, directories)
    ensures ParentsAllowed(t, path) && directories == t.directories + Ancestors(path)
  {
    assert path[..|path|] == path;
    assert directories == t.directories + Ancestors(path);
  }

  class ReplayState {
    var files: map<Path, Endpoint>
    var directories: set<Path>

    constructor (base: Tree)
      ensures Current() == base
    {
      files := base.files;
      directories := base.directories;
    }

    function Current(): Tree
      reads this
    {
      Tree(files, directories)
    }

    method RequireCreateAbsent(ordinal: Option<nat>, path: Path) returns (r: Result<(), ReplayConflict>)
      ensures r.Ok? <==> path !in files && path !in directories && forall f :: f in files ==> !Related(f, path)
      ensures r.Err? ==> ExplainsCreate(r.error, ordinal, path, Current())
    {
      if path in files {
        return Err(CreateOverPresent(ordinal, path, RegularFile));
      }
      if path in directories {
        return Err(CreateOverPresent(ordinal, path, Directory));
      }
      var collision := PresentFileCollision(files.Keys, path);
      if collision.Some? {
        return Err(FileAncestorCollision(ordinal, path, collision.value));
      }
      return Ok(());
    }

    /** One ancestor: it must not be a file, and the limit is tested after it is added. */
    method EnsureDirectory(ordinal: Option<nat>, path: Path, ancestor: Path) returns (r: Result<(), ReplayConflict>)
      modifies this`directories
      ensures directories == old(directories) + if ancestor in files then {} else {ancestor}
      ensures r.Ok? <==> ancestor !in files && Fits(directories)
      ensures r.Err? ==>
        r.error == if ancestor in files then FileAncestorCollision(ordinal, path, ancestor) else DirectoryLimitExceeded
    {
      if ancestor in files {
        return Err(FileAncestorCollision(ordinal, path, ancestor));
      }
      directories := directories + {ancestor};
      if !Fits(directories) {
        return Err(DirectoryLimitExceeded);
      }
      return Ok(());
    }

    method EnsureParentDirectories(ordinal: Option<nat>, path: Path) returns (r: Result<(), ReplayConflict>)
      modifies this`directories
      ensures r.Ok? <==> ParentsAllowed(old(Current()), path)
      ensures r.Ok? ==> directories == old(directories) + Ancestors(path)
      ensures r.Err? ==> ExplainsParents(r.error, ordinal, path, old(Current()))
    {
      ghost var before := Current();
      for k := 0 to |path|
        invariant ParentsEnsured(before, path, k, directories)
      {
        ghost var earlier := directories;
        if path[k] == SLASH {
          r := EnsureDirectory(ordinal, path, path[..k]);
          if r.Err? {
            ParentRefused(before, path, k, earlier, if path[..k] in files then earlier + {path[..k]} else directories);
            return;
          }
        }
        ParentsNext(before, path, k, earlier, directories);
      }
      ParentsComplete(before, path, directories);
      return Ok(());
    }

    /** One operation; on an error the state is abandoned by every caller. */
    method Apply(step: Step) returns (r: Result<(), ReplayConflict>)
      requires StepComplete(step)
      modifies this
      ensures r.Ok? <==> Effect(step, old(Current())).Some?
      ensures r.Ok? ==> Current() == Effect(step, old(Current())).value
      ensures r.Err? ==> Explains(r.error, step, old(Current()))
    {
      var path := step.op.path;
      var invalid := PathConflictOf(path);
      if invalid.Some? {
        return Err(InvalidPortablePath(step.ordinal, path, invalid.value));
      }
      match step.op {
        case Create(_, resultHash) =>
          var absent := RequireCreateAbsent(step.ordinal, path);
          if absent.Err? {
            return Err(absent.error);
          }
          var parents := EnsureParentDirectories(step.ordinal, path);
          if parents.Err? {
            return Err(parents.error);
          }
          var s := step.stamp.value;
          files := files[path := Endpoint(resultHash, s.byteLength, s.createMode.value, Some(s.origin))];
        case Modify(_, baseHash, resultHash) =>
          if path in directories {
            return Err(ModifyOverInvalidEndpoint(step.ordinal, path, Some(Directory)));
          }
          if path !in files {
            return Err(ModifyOverInvalidEndpoint(step.ordinal, path, None));
          }
          var endpoint := files[path];
          if endpoint.digest != baseHash {
            return Err(BaseHashMismatch(step.ordinal, path, baseHash, endpoint.digest));
          }
          var s := step.stamp.value;
          files := files[path := endpoint.(digest := resultHash, byteLength := s.byteLength, origin := Some(s.origin))];
        case Delete(_, baseHash) =>
          if path in directories {
            return Err(DeleteOverInvalidEndpoint(step.ordinal, path, Some(Directory)));
          }
          if path !in files {
            return Err(DeleteOverInvalidEndpoint(step.ordinal, path, None));
          }
          if files[path].digest != baseHash {
            return Err(BaseHashMismatch(step.ordinal, path, baseHash, files[path].digest));
          }
          files := files - {path};
      }
      return Ok(());
    }
  }
}
