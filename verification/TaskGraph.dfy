/** Reference checks and Kahn's worklist (final_verification_contracts.rs). */
module TaskGraph {
  import opened Finite
  import opened Outcomes
  import opened Identifiers

  /** The part of a task that the relationship checks look at. */
  datatype TaskView = TaskView(taskId: Identifier, dependencies: seq<Identifier>, acceptanceChecks: seq<Identifier>)

  datatype GraphConflict =
    | DuplicateTask(taskId: Identifier)
    | UnknownCriterion(criterionId: Identifier)
    | UnknownDependency(dependencyId: Identifier)
    | SelfDependency(taskId: Identifier)
    | UncoveredCriteria
    | Cyclic

  // ---------- the dependency relation ----------

  /** Edges run from a dependency to its dependents, one per occurrence: `edges[i]` lists the dependents of node i. */
  type Edges = seq<seq<nat>>

  ghost predicate WellFormed(edges: Edges) {
    forall i, k :: 0 <= i < |edges| && 0 <= k < |edges[i]| ==> edges[i][k] < |edges|
  }

  predicate Edge(edges: Edges, i: nat, j: nat) {
    i < |edges| && j in edges[i]
  }

  /** A walk of at least one edge from its first node to its last. */
  ghost predicate Walk(edges: Edges, w: seq<nat>) {
    |w| >= 2 && forall k :: 0 <= k < |w| - 1 ==> Edge(edges, w[k], w[k + 1])
  }

  ghost predicate WalkBetween(edges: Edges, w: seq<nat>, i: nat, j: nat) {
    Walk(edges, w) && w[0] == i && w[|w| - 1] == j
  }

  /** Node j transitively follows node i. */
  ghost predicate Reaches(edges: Edges, i: nat, j: nat) {
    exists w :: WalkBetween(edges, w, i, j)
  }

  ghost predicate Acyclic(edges: Edges) {
    forall i :: !Reaches(edges, i, i)
  }

  lemma {:induction false} EdgeReaches(edges: Edges, i: nat, j: nat)
    requires Edge(edges, i, j)
    ensures Reaches(edges, i, j)
  {
    assert WalkBetween(edges, [i, j], i, j);
  }

  lemma {:induction false} ReachesTransitive(edges: Edges, i: nat, j: nat, k: nat)
    requires Reaches(edges, i, j) && Reaches(edges, j, k)
    ensures Reaches(edges, i, k)
  {
    var v :| WalkBetween(edges, v, i, j);
    var w :| WalkBetween(edges, w, j, k);
    assert WalkBetween(edges, v + w[1..], i, k);
  }

  // ---------- counting edges ----------

  function Occurrences(s: seq<nat>, x: nat): nat {
    if s == [] then 0 else Occurrences(s[..|s| - 1], x) + if s[|s| - 1] == x then 1 else 0
  }

  /** Edges into `x` from nodes that are not in `done`. */
  function Pending(edges: Edges, done: set<nat>, x: nat, n: nat): nat
    requires n <= |edges|
  {
    if n == 0 then 0
    else Pending(edges, done, x, n - 1) + if n - 1 in done then 0 else Occurrences(edges[n - 1], x)
  }

  function Indegree(edges: Edges, x: nat): nat {
    Pending(edges, {}, x, |edges|)
  }

  lemma {:induction false} OccurrencesMembership(s: seq<nat>, x: nat)
    ensures Occurrences(s, x) > 0 <==> x in s
  {
    if s != [] {
      OccurrencesMembership(s[..|s| - 1], x);
      assert s == s[..|s| - 1] + [s[|s| - 1]];
    }
  }

  /** Finishing one more node removes exactly its edges into `x`. */
  lemma {:induction false} PendingFinish(edges: Edges, done: set<nat>, x: nat, n: nat, i: nat)
    requires n <= |edges| && i < |edges| && i !in done
    ensures Pending(edges, done, x, n)
         == Pending(edges, done + {i}, x, n) + if i < n then Occurrences(edges[i], x) else 0
  {
    if n > 0 {
      PendingFinish(edges, done, x, n - 1, i);
    }
  }

  lemma {:induction false} PendingZero(edges: Edges, done: set<nat>, x: nat, n: nat)
    requires n <= |edges|
    ensures Pending(edges, done, x, n) == 0 <==> forall i :: 0 <= i < n && i !in done ==> x !in edges[i]
  {
    if n > 0 {
      PendingZero(edges, done, x, n - 1);
      OccurrencesMembership(edges[n - 1], x);
    }
  }

  /** Every degree is the number of incoming edges. */
  ghost predicate CountsEdges(dependents: Edges, indegrees: seq<nat>) {
    |indegrees| == |dependents| && forall x :: 0 <= x < |indegrees| ==> DegreeCounts(dependents, indegrees, x)
  }

  ghost predicate DegreeCounts(dependents: Edges, indegrees: seq<nat>, x: nat)
    requires x < |indegrees|
  {
    indegrees[x] == Indegree(dependents, x)
  }

  // ---------- Kahn's algorithm ----------

  /** No node repeats, and each node comes only after every node with an edge into it. */
  ghost predicate DependencyOrdered(edges: Edges, order: seq<nat>) {
    && (forall k :: 0 <= k < |order| ==> order[k] < |edges|)
    && (forall k, l :: 0 <= k < l < |order| ==> order[k] != order[l])
    && (forall k, i :: 0 <= k < |order| && Edge(edges, i, order[k]) ==> i in order[..k])
  }

  /** Exactly the undequeued nodes of degree zero wait, each once. */
  ghost predicate QueueExact(degrees: seq<nat>, order: seq<nat>, ready: seq<nat>) {
    && (forall k :: 0 <= k < |ready| ==> ready[k] < |degrees| && ready[k] !in order && degrees[ready[k]] == 0)
    && (forall k, l :: 0 <= k < l < |ready| ==> ready[k] != ready[l])
    && (forall x :: 0 <= x < |degrees| && degrees[x] == 0 ==> x in ready || x in order)
  }

  /** `filter(degree == 0)` over the enumerated indegrees. */
  method InitialReady(indegrees: array<nat>) returns (ready: seq<nat>)
    ensures QueueExact(indegrees[..], [], ready)
  {
    ready := [];
    for i := 0 to indegrees.Length
      invariant forall k :: 0 <= k < |ready| ==> ready[k] < i && indegrees[ready[k]] == 0
      invariant forall k, l :: 0 <= k < l < |ready| ==> ready[k] != ready[l]
      invariant forall x :: 0 <= x < i && indegrees[x] == 0 ==> x in ready
    {
      if indegrees[i] == 0 {
        ready := ready + [i];
      }
    }
  }

  /** The indegrees count the edges whose source is still to be dequeued. */
  ghost predicate DegreesExact(edges: Edges, degrees: seq<nat>, order: seq<nat>) {
    |degrees| == |edges| && forall x :: 0 <= x < |edges| ==> degrees[x] == Pending(edges, Elements(order), x, |edges|)
  }

  /** One edge: its target loses a degree, and joins the queue when none is left. */
  method FollowEdge(indegrees: array<nat>, ghost order: seq<nat>, dependent: nat, ready: seq<nat>) returns (r: seq<nat>)
    requires dependent < indegrees.Length && indegrees[dependent] > 0 && dependent !in order
    requires QueueExact(indegrees[..], order, ready)
    modifies indegrees
    ensures indegrees[..] == old(indegrees[..])[dependent := old(indegrees[dependent]) - 1]
    ensures QueueExact(indegrees[..], order, r)
  {
    indegrees[dependent] := indegrees[dependent] - 1;
    assert indegrees[..] == old(indegrees[..])[dependent := old(indegrees[dependent]) - 1];
    r := if indegrees[dependent] == 0 then ready + [dependent] else ready;
  }

  /** Follows every edge of one dequeued node, decrementing indegrees in place. */
  method FollowEdges(indegrees: array<nat>, edges: Edges, ghost order: seq<nat>, index: nat, ready: seq<nat>)
    returns (r: seq<nat>)
    requires WellFormed(edges) && index < |edges| && index !in order
    requires DegreesExact(edges, indegrees[..], order)
    requires QueueExact(indegrees[..], order + [index], ready)
    requires forall x :: x in order + [index] ==> x < |edges| && indegrees[x] == 0
    modifies indegrees
    ensures DegreesExact(edges, indegrees[..], order + [index])
    ensures QueueExact(indegrees[..], order + [index], r)
  {
    r := ready;
    ghost var before := indegrees[..];
    for k := 0 to |edges[index]|
      invariant Followed(edges[index], k, before, indegrees[..])
      invariant QueueExact(indegrees[..], order + [index], r)
    {
      FinishedTargetsPositive(edges, before, order, index, edges[index][k]);
      FollowedNext(edges[index], k, before, indegrees[..]);
      r := FollowEdge(indegrees, order + [index], edges[index][k], r);
    }
    DegreesAfterFollowing(edges, before, indegrees[..], order, index);
  }

  /** The first `k` edges have each taken one off their target's degree. */
  ghost predicate Followed(targets: seq<nat>, k: nat, before: seq<nat>, now: seq<nat>)
    requires k <= |targets|
  {
    |now| == |before| && forall x :: 0 <= x < |before| ==> now[x] + Occurrences(targets[..k], x) == before[x]
  }

  lemma {:induction false} FollowedNext(targets: seq<nat>, k: nat, before: seq<nat>, now: seq<nat>)
    requires k < |targets| && Followed(targets, k, before, now) && targets[k] < |before|
    requires Occurrences(targets, targets[k]) <= before[targets[k]]
    ensures now[targets[k]] > 0
    ensures Followed(targets, k + 1, before, now[targets[k] := now[targets[k]] - 1])
  {
    assert targets[..k + 1][..k] == targets[..k];
    OccurrencesPrefix(targets, k, targets[k]);
  }

  /** The target of an edge out of the dequeued node has all those edges in its degree, so it is not finished. */
  lemma {:induction false} FinishedTargetsPositive(edges: Edges, before: seq<nat>, order: seq<nat>, index: nat, x: nat)
    requires index < |edges| && index !in order && DegreesExact(edges, before, order) && x < |edges|
    requires x in edges[index]
    requires forall y :: y in order + [index] ==> y < |edges| && before[y] == 0
    ensures Occurrences(edges[index], x) <= before[x] && x !in order + [index]
  {
    PendingFinish(edges, Elements(order), x, |edges|, index);
    OccurrencesMembership(edges[index], x);
  }

  lemma {:induction false} DegreesAfterFollowing(edges: Edges, before: seq<nat>, now: seq<nat>, order: seq<nat>,
                                                 index: nat)
    requires index < |edges| && index !in order && DegreesExact(edges, before, order)
    requires Followed(edges[index], |edges[index]|, before, now)
    ensures DegreesExact(edges, now, order + [index])
  {
    assert edges[index][..|edges[index]|] == edges[index];
    assert Elements(order + [index]) == Elements(order) + {index};
    forall x | 0 <= x < |edges| ensures now[x] == Pending(edges, Elements(order + [index]), x, |edges|) {
      PendingFinish(edges, Elements(order), x, |edges|, index);
    }
  }

  /** An edge not yet followed keeps its target's degree positive: no decrement underflows. */
  lemma {:induction false} OccurrencesPrefix(s: seq<nat>, k: nat, x: nat)
    requires k < |s| && s[k] == x
    ensures Occurrences(s[..k], x) < Occurrences(s, x)
  {
    OccurrencesMonotone(s, k + 1, x);
    assert s[..k + 1][..k] == s[..k];
  }

  lemma {:induction false} OccurrencesMonotone(s: seq<nat>, k: nat, x: nat)
    requires k <= |s|
    ensures Occurrences(s[..k], x) <= Occurrences(s, x)
  {
    if k < |s| {
      OccurrencesMonotone(s[..|s| - 1], k, x);
      assert s[..|s| - 1][..k] == s[..k];
    } else {
      assert s[..k] == s;
    }
  }

  /** The next node in the queue has no unfinished predecessor, so dequeuing it keeps the order topological. */
  lemma {:induction false} DequeueKeepsOrder(edges: Edges, degrees: seq<nat>, order: seq<nat>, ready: seq<nat>)
    requires DegreesExact(edges, degrees, order) && DependencyOrdered(edges, order)
    requires QueueExact(degrees, order, ready) && ready != []
    ensures DependencyOrdered(edges, order + [ready[0]]) && QueueExact(degrees, order + [ready[0]], ready[1..])
    ensures forall x :: x in order + [ready[0]] ==> x < |edges| && degrees[x] == 0
    ensures ready[0] !in order && |order| < |edges|
  {
    var index := ready[0];
    var longer := order + [index];
    PendingZero(edges, Elements(order), index, |edges|);
    forall k, i | 0 <= k < |longer| && Edge(edges, i, longer[k]) ensures i in longer[..k] {
      if k < |order| {
        assert i in order[..k] && longer[..k] == order[..k];
      } else {
        assert longer[..k] == order;
      }
    }
    forall x | x in order ensures degrees[x] == 0 {
      FinishedIsZero(edges, order, x);
    }
    forall k, l | 0 <= k < l < |longer| ensures longer[k] != longer[l] {
      assert l == |order| ==> longer[k] == order[k] && order[k] in order;
    }
    DistinctBounded(longer, |edges|);
  }

  lemma {:induction false} FinishedIsZero(edges: Edges, order: seq<nat>, x: nat)
    requires DependencyOrdered(edges, order) && x in order
    ensures x < |edges| && Pending(edges, Elements(order), x, |edges|) == 0
  {
    var k :| 0 <= k < |order| && order[k] == x;
    PendingZero(edges, Elements(order), x, |edges|);
    forall i | 0 <= i < |edges| && x in edges[i] ensures i in Elements(order) {
      assert Edge(edges, i, order[k]);
      assert i in order[..k];
    }
  }

  /** Distinct nodes below `n` are at most `n`, and exactly `n` only when every node is among them. */
  lemma {:induction false} DistinctBounded(order: seq<nat>, n: nat)
    requires forall k :: 0 <= k < |order| ==> order[k] < n
    requires forall k, l :: 0 <= k < l < |order| ==> order[k] != order[l]
    ensures |order| <= n
    ensures |order| == n ==> forall x :: 0 <= x < n ==> x in order
  {
    var all := Below(n);
    ElementsSize(order);
    SubsetSize(Elements(order), all);
    if |order| == n {
      forall x | 0 <= x < n ensures x in order {
        if x !in order { SubsetSize(Elements(order), all - {x}); }
      }
    }
  }

  function Below(n: nat): (all: set<nat>)
    ensures |all| == n && forall x :: x in all <==> 0 <= x < n
  {
    if n == 0 then {} else Below(n - 1) + {n - 1}
  }

  /** Along a walk into an ordered node, everything comes earlier. */
  lemma {:induction false} WalkPrecedes(edges: Edges, order: seq<nat>, w: seq<nat>, k: nat)
    requires DependencyOrdered(edges, order) && Walk(edges, w) && k < |order| && w[|w| - 1] == order[k]
    ensures w[0] in order[..k]
  {
    var last := |w| - 1;
    assert Edge(edges, w[last - 1], w[last]);
    if |w| > 2 {
      var j :| 0 <= j < k && order[..k][j] == w[last - 1];
      assert Walk(edges, w[..last]);
      WalkPrecedes(edges, order, w[..last], j);
      assert order[..j] <= order[..k];
    }
  }

  /** A complete topological order rules out every cycle. */
  lemma {:induction false} CompleteOrderAcyclic(edges: Edges, order: seq<nat>)
    requires WellFormed(edges) && DependencyOrdered(edges, order) && |order| == |edges|
    ensures Acyclic(edges)
  {
    DistinctBounded(order, |edges|);
    forall i: nat ensures !Reaches(edges, i, i) {
      if Reaches(edges, i, i) {
        var w :| WalkBetween(edges, w, i, i);
        assert Edge(edges, w[0], w[1]);
        assert i < |edges| && i in order;
        var k :| 0 <= k < |order| && order[k] == i;
        WalkPrecedes(edges, order, w, k);
      }
    }
  }

  /** Node `y` has an edge from a stuck node. */
  ghost predicate Waits(edges: Edges, stuck: set<nat>, y: nat) {
    exists i :: i in stuck && Edge(edges, i, y)
  }

  /** Every stuck node waits for another one. */
  ghost predicate AllWait(edges: Edges, stuck: set<nat>) {
    forall y {:trigger Waits(edges, stuck, y)} :: y in stuck ==> Waits(edges, stuck, y)
  }

  /** Following unfinished predecessors backwards never ends. */
  lemma {:induction false} BackwardWalk(edges: Edges, stuck: set<nat>, x: nat, m: nat) returns (w: seq<nat>)
    requires x in stuck && AllWait(edges, stuck)
    ensures |w| == m + 1 && (forall k :: 0 <= k < |w| ==> w[k] in stuck)
    ensures forall k :: 0 <= k < m ==> Edge(edges, w[k], w[k + 1])
    ensures w[m] == x
    decreases m
  {
    if m == 0 {
      w := [x];
    } else {
      assert Waits(edges, stuck, x);
      var i :| i in stuck && Edge(edges, i, x);
      var front := BackwardWalk(edges, stuck, i, m - 1);
      w := front + [x];
    }
  }

  /** Nodes that each keep an unfinished predecessor contain a cycle. */
  lemma {:induction false} StuckCycle(edges: Edges, stuck: set<nat>, x: nat)
    requires x in stuck && AllWait(edges, stuck)
    ensures !Acyclic(edges)
  {
    var w := BackwardWalk(edges, stuck, x, |stuck|);
    var k, l := Repetition(w, stuck);
    var cycle := w[k..l + 1];
    forall q | 0 <= q < |cycle| - 1 ensures Edge(edges, cycle[q], cycle[q + 1]) {
      assert Edge(edges, w[k + q], w[k + q + 1]);
    }
    assert WalkBetween(edges, cycle, w[k], w[k]);
    assert Reaches(edges, w[k], w[k]);
  }

  /** More places than values: some value repeats. */
  lemma {:induction false} Repetition(w: seq<nat>, s: set<nat>) returns (k: nat, l: nat)
    requires |w| > |s| && forall i :: 0 <= i < |w| ==> w[i] in s
    ensures k < l < |w| && w[k] == w[l]
  {
    if forall i, j :: 0 <= i < j < |w| ==> w[i] != w[j] {
      ElementsSize(w);
      SubsetSize(Elements(w), s);
    }
    k, l :| 0 <= k < l < |w| && w[k] == w[l];
  }

  /** With the queue empty, every node not dequeued still waits for another one. */
  lemma {:induction false} LeftoverCycle(edges: Edges, degrees: seq<nat>, order: seq<nat>)
    requires WellFormed(edges) && DegreesExact(edges, degrees, order) && DependencyOrdered(edges, order)
    requires QueueExact(degrees, order, [])
    requires |order| != |edges|
    ensures !Acyclic(edges)
  {
    var stuck := Below(|edges|) - Elements(order);
    ElementsSize(order);
    DistinctBounded(order, |edges|);
    LargerHasMore(Below(|edges|), Elements(order));
    var x :| x in Below(|edges|) && x !in Elements(order);
    forall y | y in stuck ensures Waits(edges, stuck, y) {
      PendingZero(edges, Elements(order), y, |edges|);
      var i :| 0 <= i < |edges| && i !in Elements(order) && y in edges[i];
      assert i in stuck && Edge(edges, i, y);
    }
    StuckCycle(edges, stuck, x);
  }

  lemma {:induction false} StartExact(edges: Edges, indegrees: seq<nat>)
    requires CountsEdges(edges, indegrees)
    ensures DegreesExact(edges, indegrees, [])
  {
    var none: seq<nat> := [];
    assert Elements(none) == {};
    forall x | 0 <= x < |edges| ensures indegrees[x] == Pending(edges, {}, x, |edges|) {
      assert DegreeCounts(edges, indegrees, x);
    }
  }

  /**
   * `validate_acyclic_graph`: every node is dequeued at most once, no degree underflows, the loop ends, and the
   * graph is accepted exactly when no node reaches itself.
   */
  method ValidateAcyclicGraph(indegrees: array<nat>, edges: Edges) returns (r: Result<(), GraphConflict>)
    requires WellFormed(edges) && CountsEdges(edges, indegrees[..])
    modifies indegrees
    ensures r.Ok? <==> Acyclic(edges)
    ensures r.Err? ==> r.error == Cyclic
  {
    var ready := InitialReady(indegrees);
    var visited := 0;
    ghost var order: seq<nat> := [];
    StartExact(edges, indegrees[..]);
    while ready != []
      invariant visited == |order| <= |edges|
      invariant DegreesExact(edges, indegrees[..], order) && DependencyOrdered(edges, order)
      invariant QueueExact(indegrees[..], order, ready)
      decreases |edges| - |order|
    {
      DequeueKeepsOrder(edges, indegrees[..], order, ready);
      var index := ready[0];
      ready := ready[1..];
      visited := visited + 1;
      ready := FollowEdges(indegrees, edges, order, index, ready);
      order := order + [index];
    }
    if visited != indegrees.Length {
      LeftoverCycle(edges, indegrees[..], order);
      return Err(Cyclic);
    }
    CompleteOrderAcyclic(edges, order);
    return Ok(());
  }

  // ---------- building the adjacency lists ----------

  predicate UniqueIds(tasks: seq<TaskView>) {
    forall i, j :: 0 <= i < j < |tasks| ==> tasks[i].taskId != tasks[j].taskId
  }

  predicate KnownTask(tasks: seq<TaskView>, id: Identifier) {
    exists i :: 0 <= i < |tasks| && tasks[i].taskId == id
  }

  /** Task j names task i among its dependencies. */
  predicate DependsOn(tasks: seq<TaskView>, j: nat, i: nat) {
    i < |tasks| && j < |tasks| && tasks[i].taskId in tasks[j].dependencies
  }

  /** One copy of `j` for every occurrence of `id`. */
  function Copies(ids: seq<Identifier>, id: Identifier, j: nat): seq<nat> {
    if ids == [] then []
    else Copies(ids[..|ids| - 1], id, j) + if ids[|ids| - 1] == id then [j] else []
  }

  /** The dependents of `id` among the first `n` tasks, in task order. */
  function Dependents(tasks: seq<TaskView>, id: Identifier, n: nat): seq<nat>
    requires n <= |tasks|
  {
    if n == 0 then [] else Dependents(tasks, id, n - 1) + Copies(tasks[n - 1].dependencies, id, n - 1)
  }

  /** The graph of a task list: an edge from every dependency to each task that names it. */
  function DependencyEdges(tasks: seq<TaskView>): (edges: Edges)
    ensures |edges| == |tasks|
    ensures forall i :: 0 <= i < |tasks| ==> edges[i] == Dependents(tasks, tasks[i].taskId, |tasks|)
  {
    seq(|tasks|, i requires 0 <= i < |tasks| => Dependents(tasks, tasks[i].taskId, |tasks|))
  }

  lemma {:induction false} CopiesContents(ids: seq<Identifier>, id: Identifier, j: nat, x: nat)
    ensures x in Copies(ids, id, j) <==> x == j && id in ids
  {
    if ids != [] {
      CopiesContents(ids[..|ids| - 1], id, j, x);
      assert ids == ids[..|ids| - 1] + [ids[|ids| - 1]];
    }
  }

  lemma {:induction false} DependentsContents(tasks: seq<TaskView>, id: Identifier, n: nat, x: nat)
    requires n <= |tasks|
    ensures x in Dependents(tasks, id, n) <==> x < n && id in tasks[x].dependencies
  {
    if n > 0 {
      var earlier, copies := Dependents(tasks, id, n - 1), Copies(tasks[n - 1].dependencies, id, n - 1);
      assert Dependents(tasks, id, n) == earlier + copies;
      InEither(earlier, copies, x);
      DependentsContents(tasks, id, n - 1, x);
      CopiesContents(tasks[n - 1].dependencies, id, n - 1, x);
    }
  }

  lemma {:induction false} InEither(a: seq<nat>, b: seq<nat>, x: nat)
    ensures x in a + b <==> x in a || x in b
  {
  }

  /** The edges are exactly the dependencies. */
  lemma {:induction false} EdgesAreDependencies(tasks: seq<TaskView>, i: nat, j: nat)
    ensures Edge(DependencyEdges(tasks), i, j) <==> DependsOn(tasks, j, i)
  {
    if i < |tasks| {
      DependentsContents(tasks, tasks[i].taskId, |tasks|, j);
    }
  }

  /** After `k` dependencies of task `n`: every list so far, with degrees that count its edges. */
  ghost predicate Built(tasks: seq<TaskView>, n: nat, k: nat, dependents: Edges, indegrees: seq<nat>) {
    && n < |tasks| && k <= |tasks[n].dependencies| && |dependents| == |indegrees| == |tasks|
    && (forall i :: 0 <= i < |tasks| ==> ListBuilt(tasks, n, k, dependents, i))
    && CountsEdges(dependents, indegrees)
  }

  /** The list of task `i` so far. */
  ghost predicate ListBuilt(tasks: seq<TaskView>, n: nat, k: nat, dependents: Edges, i: nat)
    requires n < |tasks| && k <= |tasks[n].dependencies| && i < |dependents| == |tasks|
  {
    dependents[i] == Dependents(tasks, tasks[i].taskId, n) + Copies(tasks[n].dependencies[..k], tasks[i].taskId, n)
  }

  lemma {:induction false} PendingPush(edges: Edges, i: nat, j: nat, x: nat, n: nat)
    requires i < |edges| && n <= |edges|
    ensures Pending(edges[i := edges[i] + [j]], {}, x, n) == Pending(edges, {}, x, n) + if i < n && x == j then 1 else 0
  {
    if n > 0 {
      PendingPush(edges, i, j, x, n - 1);
      assert (edges[i] + [j])[..|edges[i]|] == edges[i];
    }
  }

  /** One dependency: its target gains one incoming edge, its source one entry. */
  lemma {:induction false} BuiltPush(tasks: seq<TaskView>, n: nat, k: nat, dependents: Edges, indegrees: seq<nat>,
                                     d: nat)
    requires UniqueIds(tasks) && Built(tasks, n, k, dependents, indegrees) && k < |tasks[n].dependencies|
    requires d < |tasks| && tasks[d].taskId == tasks[n].dependencies[k]
    ensures Built(tasks, n, k + 1, dependents[d := dependents[d] + [n]], indegrees[n := indegrees[n] + 1])
  {
    var ids := tasks[n].dependencies;
    assert ids[..k + 1][..k] == ids[..k];
    var more := dependents[d := dependents[d] + [n]];
    var next, counts := k + 1, indegrees[n := indegrees[n] + 1];
    forall i: nat | i < |tasks| ensures ListBuilt(tasks, n, next, more, i) {
      assert ListBuilt(tasks, n, k, dependents, i);
      assert (tasks[i].taskId == ids[k]) == (i == d);
    }
    forall x: nat | x < |indegrees| ensures DegreeCounts(more, counts, x) {
      assert DegreeCounts(dependents, indegrees, x);
      PendingPush(dependents, d, n, x, |dependents|);
    }
  }

  lemma {:induction false} BuiltNext(tasks: seq<TaskView>, n: nat, dependents: Edges, indegrees: seq<nat>)
    requires n < |tasks| && Built(tasks, n, |tasks[n].dependencies|, dependents, indegrees)
    ensures n + 1 < |tasks| ==> Built(tasks, n + 1, 0, dependents, indegrees)
    ensures n + 1 == |tasks| ==> dependents == DependencyEdges(tasks)
  {
    var ids := tasks[n].dependencies;
    assert ids[..|ids|] == ids;
    forall i: nat | i < |tasks|
      ensures dependents[i] == Dependents(tasks, tasks[i].taskId, n + 1)
      ensures n + 1 < |tasks| ==> ListBuilt(tasks, n + 1, 0, dependents, i)
    {
      assert ListBuilt(tasks, n, |ids|, dependents, i);
      assert n + 1 < |tasks| ==> tasks[n + 1].dependencies[..0] == [];
    }
  }

  lemma {:induction false} NoEdges(edges: Edges, x: nat, n: nat)
    requires n <= |edges| && forall i :: 0 <= i < |edges| ==> edges[i] == []
    ensures Pending(edges, {}, x, n) == 0
  {
    if n > 0 {
      NoEdges(edges, x, n - 1);
    }
  }

  // ---------- reference checks ----------

  /** Every criterion and dependency a task names exists, and no dependency is the task itself. */
  predicate ReferencesKnown(tasks: seq<TaskView>, criteria: set<Identifier>, n: nat)
    requires n < |tasks|
  {
    ChecksKnown(tasks[n], criteria) && DependenciesKnown(tasks, n)
  }

  predicate ChecksKnown(task: TaskView, criteria: set<Identifier>) {
    forall c :: c in task.acceptanceChecks ==> c in criteria
  }

  predicate DependenciesKnown(tasks: seq<TaskView>, n: nat)
    requires n < |tasks|
  {
    forall d :: d in tasks[n].dependencies ==> KnownTask(tasks, d) && d != tasks[n].taskId
  }

  /** What the relationship checks accept. */
  ghost predicate GraphAccepted(tasks: seq<TaskView>, criteria: set<Identifier>) {
    && UniqueIds(tasks)
    && AllReferencesKnown(tasks, criteria)
    && AllCovered(tasks, criteria)
    && Acyclic(DependencyEdges(tasks))
  }

  predicate AllReferencesKnown(tasks: seq<TaskView>, criteria: set<Identifier>) {
    forall n :: 0 <= n < |tasks| ==> ReferencesKnown(tasks, criteria, n)
  }

  predicate AllCovered(tasks: seq<TaskView>, criteria: set<Identifier>) {
    forall c :: c in criteria ==> exists n :: 0 <= n < |tasks| && c in tasks[n].acceptanceChecks
  }

  /** A conflict names something that is really wrong. */
  ghost predicate ConflictHolds(tasks: seq<TaskView>, criteria: set<Identifier>, conflict: GraphConflict) {
    match conflict
    case DuplicateTask(id) => exists i, j :: 0 <= i < j < |tasks| && tasks[i].taskId == tasks[j].taskId == id
    case UnknownCriterion(c) => c !in criteria && exists n :: 0 <= n < |tasks| && c in tasks[n].acceptanceChecks
    case UnknownDependency(d) => !KnownTask(tasks, d) && exists n :: 0 <= n < |tasks| && d in tasks[n].dependencies
    case SelfDependency(id) => exists n :: 0 <= n < |tasks| && tasks[n].taskId == id && id in tasks[n].dependencies
    case UncoveredCriteria =>
      exists c :: c in criteria && forall n :: 0 <= n < |tasks| ==> c !in tasks[n].acceptanceChecks
    case Cyclic => exists i :: Reaches(DependencyEdges(tasks), i, i)
  }

  // ---------- the same, task by task ----------

  /** A list of tasks, each named by the next as a dependency, that ends where it began. */
  ghost predicate DependencyCycle(tasks: seq<TaskView>, cycle: seq<TaskView>) {
    && |cycle| >= 2 && cycle[0] == cycle[|cycle| - 1]
    && (forall k :: 0 <= k < |cycle| ==> cycle[k] in tasks)
    && (forall k :: 0 <= k < |cycle| - 1 ==> cycle[k].taskId in cycle[k + 1].dependencies)
  }

  /** Distinct tasks, known checks and dependencies, every criterion checked, and no cycle of dependencies. */
  ghost predicate Relates(criteria: seq<Identifier>, tasks: seq<TaskView>) {
    && (forall i, j :: 0 <= i < j < |tasks| ==> tasks[i].taskId != tasks[j].taskId)
    && (forall t, c :: t in tasks && c in t.acceptanceChecks ==> c in criteria)
    && (forall t, d :: t in tasks && d in t.dependencies ==> d != t.taskId && exists u :: u in tasks && u.taskId == d)
    && (forall c :: c in criteria ==> exists t :: t in tasks && c in t.acceptanceChecks)
    && (forall cycle :: !DependencyCycle(tasks, cycle))
  }

  ghost function PlaceOf(tasks: seq<TaskView>, t: TaskView): (i: nat)
    requires t in tasks
    ensures i < |tasks| && tasks[i] == t
  {
    var i :| 0 <= i < |tasks| && tasks[i] == t;
    i
  }

  lemma {:induction false} CycleOfTasks(tasks: seq<TaskView>, i: nat)
    requires Reaches(DependencyEdges(tasks), i, i)
    ensures exists cycle :: DependencyCycle(tasks, cycle)
  {
    var edges := DependencyEdges(tasks);
    var w :| WalkBetween(edges, w, i, i);
    forall k | 0 <= k < |w| - 1 ensures DependsOn(tasks, w[k + 1], w[k]) {
      assert Edge(edges, w[k], w[k + 1]);
      EdgesAreDependencies(tasks, w[k], w[k + 1]);
    }
    forall k | 0 <= k < |w| ensures w[k] < |tasks| {
      if k < |w| - 1 {
        assert DependsOn(tasks, w[k + 1], w[k]);
      } else {
        assert DependsOn(tasks, w[k - 1 + 1], w[k - 1]);
      }
    }
    var cycle := seq(|w|, k requires 0 <= k < |w| => tasks[w[k]]);
    forall k | 0 <= k < |cycle| - 1 ensures cycle[k].taskId in cycle[k + 1].dependencies {
      assert DependsOn(tasks, w[k + 1], w[k]);
    }
    assert DependencyCycle(tasks, cycle);
  }

  lemma {:induction false} CycleOfNodes(tasks: seq<TaskView>, cycle: seq<TaskView>)
    requires DependencyCycle(tasks, cycle)
    ensures !Acyclic(DependencyEdges(tasks))
  {
    var edges := DependencyEdges(tasks);
    var w := seq(|cycle|, k requires 0 <= k < |cycle| => PlaceOf(tasks, cycle[k]));
    forall k | 0 <= k < |w| - 1 ensures Edge(edges, w[k], w[k + 1]) {
      EdgesAreDependencies(tasks, w[k], w[k + 1]);
    }
    assert WalkBetween(edges, w, w[0], w[0]);
    assert Reaches(edges, w[0], w[0]);
  }

  lemma {:induction false} AcyclicExactly(tasks: seq<TaskView>)
    ensures Acyclic(DependencyEdges(tasks)) <==> forall cycle :: !DependencyCycle(tasks, cycle)
  {
    if cycle :| DependencyCycle(tasks, cycle) {
      CycleOfNodes(tasks, cycle);
    }
    if i: nat :| Reaches(DependencyEdges(tasks), i, i) {
      CycleOfTasks(tasks, i);
    }
  }

  lemma {:induction false} KnownExactly(tasks: seq<TaskView>, id: Identifier)
    ensures KnownTask(tasks, id) <==> exists u :: u in tasks && u.taskId == id
  {
    if i :| 0 <= i < |tasks| && tasks[i].taskId == id { assert tasks[i] in tasks; }
  }

  lemma {:induction false} ReferencesExactly(tasks: seq<TaskView>, criteria: seq<Identifier>)
    ensures AllReferencesKnown(tasks, Elements(criteria)) <==>
      && (forall t, c :: t in tasks && c in t.acceptanceChecks ==> c in criteria)
      && (forall t, d :: t in tasks && d in t.dependencies ==> d != t.taskId && exists u :: u in tasks && u.taskId == d)
  {
    if AllReferencesKnown(tasks, Elements(criteria)) {
      forall t | t in tasks
        ensures forall c :: c in t.acceptanceChecks ==> c in criteria
        ensures forall d :: d in t.dependencies ==> d != t.taskId && exists u :: u in tasks && u.taskId == d
      {
        assert ReferencesKnown(tasks, Elements(criteria), PlaceOf(tasks, t));
        forall d | d in t.dependencies ensures exists u :: u in tasks && u.taskId == d {
          KnownExactly(tasks, d);
        }
      }
    } else {
      var n :| 0 <= n < |tasks| && !ReferencesKnown(tasks, Elements(criteria), n);
      assert tasks[n] in tasks;
      forall d | d in tasks[n].dependencies
        ensures KnownTask(tasks, d) <==> exists u :: u in tasks && u.taskId == d
      {
        KnownExactly(tasks, d);
      }
    }
  }

  lemma {:induction false} CoverageExactly(tasks: seq<TaskView>, criteria: seq<Identifier>)
    ensures AllCovered(tasks, Elements(criteria)) <==>
      forall c :: c in criteria ==> exists t :: t in tasks && c in t.acceptanceChecks
  {
    if AllCovered(tasks, Elements(criteria)) {
      forall c | c in criteria ensures exists t :: t in tasks && c in t.acceptanceChecks {
        assert c in Elements(criteria);
        CheckedExactly(tasks, c);
      }
    } else {
      var c :| c in Elements(criteria) && forall n :: 0 <= n < |tasks| ==> c !in tasks[n].acceptanceChecks;
      CheckedExactly(tasks, c);
      assert c in criteria;
    }
  }

  lemma {:induction false} CheckedExactly(tasks: seq<TaskView>, c: Identifier)
    ensures (exists n :: 0 <= n < |tasks| && c in tasks[n].acceptanceChecks) <==>
      exists t :: t in tasks && c in t.acceptanceChecks
  {
    if n :| 0 <= n < |tasks| && c in tasks[n].acceptanceChecks { assert tasks[n] in tasks; }
    if t :| t in tasks && c in t.acceptanceChecks { assert c in tasks[PlaceOf(tasks, t)].acceptanceChecks; }
  }

  /** The relationship checks accept exactly the lists whose tasks relate so. */
  lemma {:induction false} RelatesExactly(criteria: seq<Identifier>, tasks: seq<TaskView>)
    ensures GraphAccepted(tasks, Elements(criteria)) <==> Relates(criteria, tasks)
  {
    AcyclicExactly(tasks);
    ReferencesExactly(tasks, criteria);
    CoverageExactly(tasks, criteria);
  }

  ghost predicate IndexExact(tasks: seq<TaskView>, n: nat, indices: map<Identifier, nat>) {
    && n <= |tasks|
    && (forall i :: 0 <= i < n ==> tasks[i].taskId in indices && indices[tasks[i].taskId] == i)
    && (forall id :: id in indices ==> indices[id] < n && tasks[indices[id]].taskId == id)
  }

  method IndexTasks(tasks: seq<TaskView>) returns (r: Result<map<Identifier, nat>, GraphConflict>)
    ensures r.Ok? <==> UniqueIds(tasks)
    ensures r.Ok? ==> IndexExact(tasks, |tasks|, r.value)
    ensures r.Err? ==>
      r.error.DuplicateTask? && exists i, j ::
        0 <= i < j < |tasks| && tasks[i].taskId == tasks[j].taskId == r.error.taskId
  {
    var indices: map<Identifier, nat> := map[];
    for n := 0 to |tasks|
      invariant IndexExact(tasks, n, indices)
    {
      if tasks[n].taskId in indices {
        assert tasks[indices[tasks[n].taskId]].taskId == tasks[n].taskId;
        return Err(DuplicateTask(tasks[n].taskId));
      }
      indices := indices[tasks[n].taskId := n];
    }
    return Ok(indices);
  }

  /** The checks of one task: known criteria, which join the covered set. */
  method CoverCriteria(task: TaskView, criteria: set<Identifier>, covered: set<Identifier>)
    returns (r: Result<set<Identifier>, GraphConflict>)
    ensures r.Ok? <==> ChecksKnown(task, criteria)
    ensures r.Ok? ==> r.value == covered + Elements(task.acceptanceChecks)
    ensures r.Err? ==>
      r.error.UnknownCriterion? && r.error.criterionId in task.acceptanceChecks && r.error.criterionId !in criteria
  {
    var all := covered;
    for k := 0 to |task.acceptanceChecks|
      invariant forall c :: c in task.acceptanceChecks[..k] ==> c in criteria
      invariant all == covered + Elements(task.acceptanceChecks[..k])
    {
      if task.acceptanceChecks[k] !in criteria {
        return Err(UnknownCriterion(task.acceptanceChecks[k]));
      }
      all := all + {task.acceptanceChecks[k]};
      assert task.acceptanceChecks[..k + 1] == task.acceptanceChecks[..k] + [task.acceptanceChecks[k]];
    }
    assert task.acceptanceChecks[..|task.acceptanceChecks|] == task.acceptanceChecks;
    return Ok(all);
  }

  ghost predicate DependencyFault(tasks: seq<TaskView>, n: nat, conflict: GraphConflict)
    requires n < |tasks|
  {
    if conflict.UnknownDependency?
    then conflict.dependencyId in tasks[n].dependencies && !KnownTask(tasks, conflict.dependencyId)
    else conflict == SelfDependency(tasks[n].taskId) && tasks[n].taskId in tasks[n].dependencies
  }

  /** One resolved dependency: its dependent gains a degree, and it gains the dependent. */
  method EnterEdge(ghost tasks: seq<TaskView>, n: nat, ghost k: nat, d: nat, indegrees: array<nat>,
                   dependents: array<seq<nat>>)
    requires UniqueIds(tasks) && Built(tasks, n, k, dependents[..], indegrees[..]) && k < |tasks[n].dependencies|
    requires d < |tasks| && tasks[d].taskId == tasks[n].dependencies[k]
    modifies indegrees, dependents
    ensures indegrees[..] == old(indegrees[..])[n := old(indegrees[n]) + 1]
    ensures dependents[..] == old(dependents[..])[d := old(dependents[d]) + [n]]
    ensures Built(tasks, n, k + 1, dependents[..], indegrees[..])
  {
    BuiltPush(tasks, n, k, dependents[..], indegrees[..], d);
    indegrees[n] := indegrees[n] + 1;
    dependents[d] := dependents[d] + [n];
    assert dependents[..] == old(dependents[..])[d := old(dependents[d]) + [n]];
    assert indegrees[..] == old(indegrees[..])[n := old(indegrees[n]) + 1];
  }

  /** The dependencies of task `n`, entered into the adjacency lists and indegrees in place. */
  method EnterDependencies(tasks: seq<TaskView>, n: nat, indices: map<Identifier, nat>, indegrees: array<nat>,
                           dependents: array<seq<nat>>)
    returns (r: Result<(), GraphConflict>)
    requires n < |tasks| && UniqueIds(tasks) && IndexExact(tasks, |tasks|, indices)
    requires Built(tasks, n, 0, dependents[..], indegrees[..])
    modifies indegrees, dependents
    ensures r.Ok? <==> DependenciesKnown(tasks, n)
    ensures r.Ok? ==> Built(tasks, n, |tasks[n].dependencies|, dependents[..], indegrees[..])
    ensures r.Err? ==> DependencyFault(tasks, n, r.error)
  {
    var ids := tasks[n].dependencies;
    for k := 0 to |ids|
      invariant forall d :: d in ids[..k] ==> KnownTask(tasks, d) && d != tasks[n].taskId
      invariant Built(tasks, n, k, dependents[..], indegrees[..])
    {
      if ids[k] !in indices {
        assert ids[k] in tasks[n].dependencies && !KnownTask(tasks, ids[k]);
        return Err(UnknownDependency(ids[k]));
      }
      var d := indices[ids[k]];
      if d == n {
        return Err(SelfDependency(tasks[n].taskId));
      }
      EnterEdge(tasks, n, k, d, indegrees, dependents);
      assert ids[..k + 1] == ids[..k] + [ids[k]];
    }
    assert ids[..|ids|] == ids;
    return Ok(());
  }

  /** The criteria that the first `n` tasks contribute to. */
  ghost function Covered(tasks: seq<TaskView>, n: nat): set<Identifier>
    requires n <= |tasks|
  {
    set k, c | 0 <= k < n && c in tasks[k].acceptanceChecks :: c
  }

  /** Between tasks: everything before `n` is known, covered and entered. */
  ghost predicate Entered(tasks: seq<TaskView>, criteria: set<Identifier>, n: nat, covered: set<Identifier>,
                          dependents: Edges, indegrees: seq<nat>) {
    && n <= |tasks|
    && (forall k :: 0 <= k < n ==> ReferencesKnown(tasks, criteria, k))
    && covered == Covered(tasks, n)
    && CountsEdges(dependents, indegrees)
    && (if n < |tasks| then Built(tasks, n, 0, dependents, indegrees) else dependents == DependencyEdges(tasks))
  }

  lemma {:induction false} EnteredInitially(tasks: seq<TaskView>, criteria: set<Identifier>, dependents: Edges,
                                            indegrees: seq<nat>)
    requires |dependents| == |indegrees| == |tasks|
    requires forall i :: 0 <= i < |tasks| ==> dependents[i] == [] && indegrees[i] == 0
    ensures Entered(tasks, criteria, 0, {}, dependents, indegrees)
  {
    forall x: nat | x < |tasks| ensures Indegree(dependents, x) == 0 {
      NoEdges(dependents, x, |dependents|);
    }
    if tasks == [] {
      assert dependents == DependencyEdges(tasks);
    } else {
      assert tasks[0].dependencies[..0] == [];
    }
  }

  /** `validate_task_references` for one task, on the shared tables. */
  method ValidateTaskReferences(tasks: seq<TaskView>, n: nat, indices: map<Identifier, nat>, criteria: set<Identifier>,
                                covered: set<Identifier>, indegrees: array<nat>, dependents: array<seq<nat>>)
    returns (r: Result<set<Identifier>, GraphConflict>)
    requires n < |tasks| && UniqueIds(tasks) && IndexExact(tasks, |tasks|, indices)
    requires Entered(tasks, criteria, n, covered, dependents[..], indegrees[..])
    modifies indegrees, dependents
    ensures r.Ok? <==> ReferencesKnown(tasks, criteria, n)
    ensures r.Ok? ==> Entered(tasks, criteria, n + 1, r.value, dependents[..], indegrees[..])
    ensures r.Err? ==> ConflictHolds(tasks, criteria, r.error)
  {
    r := CoverCriteria(tasks[n], criteria, covered);
    if r.Err? {
      return;
    }
    var entered := EnterDependencies(tasks, n, indices, indegrees, dependents);
    if entered.Err? {
      return Err(entered.error);
    }
    EnteredNext(tasks, criteria, n, dependents[..], indegrees[..]);
  }

  lemma {:induction false} EnteredNext(tasks: seq<TaskView>, criteria: set<Identifier>, n: nat, dependents: Edges,
                                       indegrees: seq<nat>)
    requires n < |tasks| && Built(tasks, n, |tasks[n].dependencies|, dependents, indegrees)
    requires forall k :: 0 <= k <= n ==> ReferencesKnown(tasks, criteria, k)
    ensures Entered(tasks, criteria, n + 1, Covered(tasks, n) + Elements(tasks[n].acceptanceChecks), dependents,
                    indegrees)
  {
    BuiltNext(tasks, n, dependents, indegrees);
  }

  /** All tasks in turn, stopping at the first fault. */
  method EnterTasks(tasks: seq<TaskView>, indices: map<Identifier, nat>, criteria: set<Identifier>,
                    indegrees: array<nat>, dependents: array<seq<nat>>)
    returns (r: Result<set<Identifier>, GraphConflict>)
    requires UniqueIds(tasks) && IndexExact(tasks, |tasks|, indices)
    requires Entered(tasks, criteria, 0, {}, dependents[..], indegrees[..])
    modifies indegrees, dependents
    ensures r.Ok? <==> AllReferencesKnown(tasks, criteria)
    ensures r.Ok? ==> Entered(tasks, criteria, |tasks|, r.value, dependents[..], indegrees[..])
    ensures r.Err? ==> ConflictHolds(tasks, criteria, r.error)
  {
    var covered: set<Identifier> := {};
    for n := 0 to |tasks|
      invariant Entered(tasks, criteria, n, covered, dependents[..], indegrees[..])
    {
      var step := ValidateTaskReferences(tasks, n, indices, criteria, covered, indegrees, dependents);
      if step.Err? {
        return Err(step.error);
      }
      covered := step.value;
    }
    return Ok(covered);
  }

  /** The covered set falls short exactly when some criterion has no task. */
  lemma {:induction false} CoverageDecides(tasks: seq<TaskView>, criteria: set<Identifier>, covered: set<Identifier>)
    requires AllReferencesKnown(tasks, criteria) && covered == Covered(tasks, |tasks|)
    ensures covered == criteria <==> AllCovered(tasks, criteria)
    ensures covered != criteria ==> ConflictHolds(tasks, criteria, UncoveredCriteria)
  {
    forall c | c in covered ensures c in criteria {
      var k :| 0 <= k < |tasks| && c in tasks[k].acceptanceChecks;
      assert ReferencesKnown(tasks, criteria, k);
    }
    if covered != criteria {
      var c :| c in criteria && c !in covered;
      assert forall n :: 0 <= n < |tasks| ==> c !in tasks[n].acceptanceChecks;
    }
  }

  /**
   * `validate_graph_relationships`: accepts exactly the lists with unique identifiers, known references, complete
   * coverage and no dependency cycle, and otherwise names something that is wrong.
   */
  method ValidateGraphRelationships(acceptanceCriteria: seq<Identifier>, tasks: seq<TaskView>)
    returns (r: Result<(), GraphConflict>)
    ensures r.Ok? <==> GraphAccepted(tasks, Elements(acceptanceCriteria))
    ensures r.Ok? <==> Relates(acceptanceCriteria, tasks)
    ensures r.Err? ==> ConflictHolds(tasks, Elements(acceptanceCriteria), r.error)
  {
    RelatesExactly(acceptanceCriteria, tasks);
    var indexed := IndexTasks(tasks);
    if indexed.Err? {
      return Err(indexed.error);
    }
    var covered, indegrees, dependents := BuildGraph(tasks, indexed.value, Elements(acceptanceCriteria));
    if covered.Err? {
      return Err(covered.error);
    }
    CoverageDecides(tasks, Elements(acceptanceCriteria), covered.value);
    if covered.value != Elements(acceptanceCriteria) {
      return Err(UncoveredCriteria);
    }
    WellFormedDependencies(tasks);
    r := ValidateAcyclicGraph(indegrees, dependents);
  }

  /** The empty tables, then every task entered. */
  method BuildGraph(tasks: seq<TaskView>, indices: map<Identifier, nat>, criteria: set<Identifier>)
    returns (r: Result<set<Identifier>, GraphConflict>, indegrees: array<nat>, edges: Edges)
    requires UniqueIds(tasks) && IndexExact(tasks, |tasks|, indices)
    ensures fresh(indegrees)
    ensures r.Ok? <==> AllReferencesKnown(tasks, criteria)
    ensures r.Ok? ==>
      r.value == Covered(tasks, |tasks|) && edges == DependencyEdges(tasks) && CountsEdges(edges, indegrees[..])
    ensures r.Err? ==> ConflictHolds(tasks, criteria, r.error)
  {
    indegrees := new nat[|tasks|](_ => 0);
    var dependents := new seq<nat>[|tasks|](_ => []);
    EnteredInitially(tasks, criteria, dependents[..], indegrees[..]);
    r := EnterTasks(tasks, indices, criteria, indegrees, dependents);
    edges := dependents[..];
  }

  lemma {:induction false} WellFormedDependencies(tasks: seq<TaskView>)
    ensures WellFormed(DependencyEdges(tasks))
  {
    var edges := DependencyEdges(tasks);
    forall i, k | 0 <= i < |edges| && 0 <= k < |edges[i]| ensures edges[i][k] < |edges| {
      EdgesAreDependencies(tasks, i, edges[i][k]);
      assert Edge(edges, i, edges[i][k]);
    }
  }
}
