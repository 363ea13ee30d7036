/** Accepted task graphs and their final-verification repair reserve (final_verification_contracts.rs). */
module RepairSlots {
  import opened Finite
  import opened Outcomes
  import opened Identifiers
  import opened TaskGraph

  type U8 = x: nat | x < 256

  datatype TaskPurpose = Ordinary | FinalVerificationRepairSlot(slotOrdinal: U8)

  datatype TaskSpec = TaskSpec(
    taskId: Identifier,
    purpose: TaskPurpose,
    dependencies: seq<Identifier>,
    acceptanceChecks: seq<Identifier>,
    required: bool)

  datatype TaskFault = BlankTaskId | EmptyChecks | BadDependencies | BadChecks | ZeroOrdinal | RequiredSlot

  datatype ReserveFault =
    | SlotCount | SlotOrdinal | MissingRequiredDependency | WrongSlotDependency

  datatype GraphFault =
    | CapOutOfRange | NoTasks | TooManyTasks
    | BadTask(fault: TaskFault)
    | RepeatedTask
    | Relationship(conflict: GraphConflict)
    | OrdinaryCoverage
    | Reserve(reserve: ReserveFault)

  const MAX_FINAL_VERIFICATION_ATTEMPTS: nat := 3

  function View(tasks: seq<TaskSpec>): (views: seq<TaskView>)
    ensures |views| == |tasks|
    ensures forall i :: 0 <= i < |tasks| ==>
      views[i] == TaskView(tasks[i].taskId, tasks[i].dependencies, tasks[i].acceptanceChecks)
  {
    seq(|tasks|,
        i requires 0 <= i < |tasks| => TaskView(tasks[i].taskId, tasks[i].dependencies, tasks[i].acceptanceChecks))
  }

  // ---------- what an accepted reserve is ----------

  /** Positions of the repair slots among the first `n` tasks, in declaration order. */
  function SlotPositions(tasks: seq<TaskSpec>, n: nat): (slots: seq<nat>)
    requires n <= |tasks|
    ensures forall k :: 0 <= k < |slots| ==> slots[k] < n && !tasks[slots[k]].purpose.Ordinary?
    ensures forall k, l :: 0 <= k < l < |slots| ==> slots[k] < slots[l]
    ensures forall i :: 0 <= i < n && !tasks[i].purpose.Ordinary? ==> i in slots
  {
    if n == 0 then [] else SlotPositions(tasks, n - 1) + if tasks[n - 1].purpose.Ordinary? then [] else [n - 1]
  }

  function Slots(tasks: seq<TaskSpec>): seq<nat> {
    SlotPositions(tasks, |tasks|)
  }

  predicate RequiredOrdinary(task: TaskSpec) {
    task.required && task.purpose.Ordinary?
  }

  /** Slot `i` has ordinal i + 1, names every required ordinary task, and of the other slots only the previous one. */
  predicate SlotFits(tasks: seq<TaskSpec>, slots: seq<nat>, i: nat)
    requires i < |slots| && forall k :: 0 <= k < |slots| ==> slots[k] < |tasks|
  {
    var slot := tasks[slots[i]];
    && slot.purpose.FinalVerificationRepairSlot? && slot.purpose.slotOrdinal == i + 1
    && (forall t :: 0 <= t < |tasks| && RequiredOrdinary(tasks[t]) ==> tasks[t].taskId in slot.dependencies)
    && (forall k :: 0 <= k < |slots| ==> (tasks[slots[k]].taskId in slot.dependencies <==> k == i - 1))
  }

  predicate ReserveValid(tasks: seq<TaskSpec>, cap: U8) {
    var slots := Slots(tasks);
    && |slots| == (if cap == 0 then 0 else cap - 1)
    && (forall i :: 0 <= i < |slots| ==> SlotFits(tasks, slots, i))
  }

  predicate UniqueNonblank(ids: seq<Identifier>) {
    NoRepeats(ids) && forall i :: 0 <= i < |ids| ==> !Blank(ids[i])
  }

  predicate TaskValid(task: TaskSpec) {
    && !Blank(task.taskId)
    && task.acceptanceChecks != []
    && UniqueNonblank(task.dependencies)
    && UniqueNonblank(task.acceptanceChecks)
    && (task.purpose.FinalVerificationRepairSlot? ==> task.purpose.slotOrdinal != 0 && !task.required)
  }

  predicate OrdinaryCoverage(tasks: seq<TaskSpec>, criteria: set<Identifier>) {
    forall c :: c in criteria ==>
      exists t :: 0 <= t < |tasks| && tasks[t].purpose.Ordinary? && c in tasks[t].acceptanceChecks
  }

  /** What `validate_for_sprint` accepts. */
  ghost predicate AcceptedGraph(tasks: seq<TaskSpec>, criteria: set<Identifier>, maxTasks: nat, cap: U8) {
    && 1 <= cap <= MAX_FINAL_VERIFICATION_ATTEMPTS
    && 0 < |tasks| <= maxTasks
    && (forall t :: 0 <= t < |tasks| ==> TaskValid(tasks[t]))
    && GraphAccepted(View(tasks), criteria)
    && OrdinaryCoverage(tasks, criteria)
    && ReserveValid(tasks, cap)
  }

  // ---------- the same, task by task ----------

  ghost predicate Written(id: Identifier) {
    exists k :: 0 <= k < |id| && !Trimmed(id[k] as int)
  }

  ghost predicate DistinctWritten(ids: seq<Identifier>) {
    (forall i, j :: 0 <= i < j < |ids| ==> ids[i] != ids[j]) && forall id :: id in ids ==> Written(id)
  }

  ghost predicate TaskAs(t: TaskSpec) {
    && Written(t.taskId) && |t.acceptanceChecks| > 0
    && DistinctWritten(t.dependencies) && DistinctWritten(t.acceptanceChecks)
    && match t.purpose
       case Ordinary => true
       case FinalVerificationRepairSlot(ordinal) => ordinal > 0 && !t.required
  }

  /** The slots carry 1 to cap - 1 in list order; each names every required task, and of the slots the one before. */
  ghost predicate ReserveAs(tasks: seq<TaskSpec>, cap: U8) {
    && (forall t, o: U8 :: t in tasks && t.purpose == FinalVerificationRepairSlot(o) ==> 1 <= o < cap)
    && (forall o: U8 :: 1 <= o < cap ==> exists t :: t in tasks && t.purpose == FinalVerificationRepairSlot(o))
    && (forall i, j :: 0 <= i < j < |tasks| && tasks[i].purpose != Ordinary && tasks[j].purpose != Ordinary ==>
         tasks[i].purpose.slotOrdinal < tasks[j].purpose.slotOrdinal)
    && (forall s, t :: s in tasks && t in tasks && s.purpose != Ordinary && t.purpose == Ordinary && t.required ==>
         t.taskId in s.dependencies)
    && (forall s, u :: s in tasks && u in tasks && s.purpose != Ordinary && u.purpose != Ordinary ==>
         (u.taskId in s.dependencies <==> u.purpose.slotOrdinal + 1 == s.purpose.slotOrdinal))
  }

  /** An accepted graph, on the fields of its tasks. */
  ghost predicate AcceptedAs(tasks: seq<TaskSpec>, criteria: seq<Identifier>, maxTasks: nat, cap: U8) {
    && 1 <= cap <= 3 && 1 <= |tasks| <= maxTasks
    && (forall t :: t in tasks ==> TaskAs(t))
    && Relates(criteria, View(tasks))
    && (forall c :: c in criteria ==> exists t :: t in tasks && t.purpose == Ordinary && c in t.acceptanceChecks)
    && ReserveAs(tasks, cap)
  }

  lemma {:induction false} WrittenExactly(id: Identifier)
    ensures Written(id) <==> !Blank(id)
  {
    BlankExactly(id);
  }

  lemma {:induction false} DistinctExactly(ids: seq<Identifier>)
    ensures DistinctWritten(ids) <==> UniqueNonblank(ids)
  {
    forall i | 0 <= i < |ids| ensures ids[i] in ids && (Written(ids[i]) <==> !Blank(ids[i])) {
      WrittenExactly(ids[i]);
    }
  }

  lemma {:induction false} TaskExactly(t: TaskSpec)
    ensures TaskAs(t) <==> TaskValid(t)
  {
    WrittenExactly(t.taskId);
    DistinctExactly(t.dependencies);
    DistinctExactly(t.acceptanceChecks);
  }

  lemma {:induction false} TasksExactly(tasks: seq<TaskSpec>)
    ensures (forall t :: 0 <= t < |tasks| ==> TaskValid(tasks[t])) <==> forall t :: t in tasks ==> TaskAs(t)
  {
    forall t | 0 <= t < |tasks| ensures tasks[t] in tasks && (TaskAs(tasks[t]) <==> TaskValid(tasks[t])) {
      TaskExactly(tasks[t]);
    }
  }

  lemma {:induction false} OrdinaryExactly(tasks: seq<TaskSpec>, criteria: seq<Identifier>)
    ensures OrdinaryCoverage(tasks, Elements(criteria)) <==>
      forall c :: c in criteria ==> exists t :: t in tasks && t.purpose == Ordinary && c in t.acceptanceChecks
  {
    if OrdinaryCoverage(tasks, Elements(criteria)) {
      forall c | c in criteria ensures exists t :: t in tasks && t.purpose == Ordinary && c in t.acceptanceChecks {
        assert c in Elements(criteria);
        OrdinaryChecked(tasks, c);
      }
    } else {
      var c :| c in Elements(criteria) && forall t ::
        0 <= t < |tasks| && tasks[t].purpose.Ordinary? ==> c !in tasks[t].acceptanceChecks;
      OrdinaryChecked(tasks, c);
      assert c in criteria;
    }
  }

  lemma {:induction false} OrdinaryChecked(tasks: seq<TaskSpec>, c: Identifier)
    ensures (exists t :: 0 <= t < |tasks| && tasks[t].purpose.Ordinary? && c in tasks[t].acceptanceChecks) <==>
      exists t :: t in tasks && t.purpose == Ordinary && c in t.acceptanceChecks
  {
    if n :| 0 <= n < |tasks| && tasks[n].purpose.Ordinary? && c in tasks[n].acceptanceChecks {
      assert tasks[n] in tasks;
    }
    if t :| t in tasks && t.purpose == Ordinary && c in t.acceptanceChecks {
      var n :| 0 <= n < |tasks| && tasks[n] == t;
    }
  }

  /** The place of a slot among the slots. */
  lemma {:induction false} SlotPlace(tasks: seq<TaskSpec>, i: nat) returns (k: nat)
    requires i < |tasks| && tasks[i].purpose != Ordinary
    ensures k < |Slots(tasks)| && Slots(tasks)[k] == i
  {
    assert i in Slots(tasks);
    k :| 0 <= k < |Slots(tasks)| && Slots(tasks)[k] == i;
  }

  /** In a reserve of this form the slot at place `k` has ordinal k + 1. */
  lemma {:induction false} OrdinalAtPlace(tasks: seq<TaskSpec>, cap: U8, k: nat)
    requires cap > 0 && ReserveAs(tasks, cap) && k < |Slots(tasks)|
    ensures tasks[Slots(tasks)[k]].purpose.slotOrdinal == k + 1 < cap
  {
    var slots := Slots(tasks);
    var here := tasks[slots[k]].purpose.slotOrdinal;
    assert tasks[slots[k]] in tasks && tasks[slots[k]].purpose == FinalVerificationRepairSlot(here);
    if k > 0 {
      OrdinalAtPlace(tasks, cap, k - 1);
      assert slots[k - 1] < slots[k];
    }
    assert k + 1 <= here;
    var t :| t in tasks && t.purpose == FinalVerificationRepairSlot(k + 1);
    var i :| 0 <= i < |tasks| && tasks[i] == t;
    var l := SlotPlace(tasks, i);
    if l < k {
      OrdinalAtPlace(tasks, cap, l);
    }
  }

  lemma {:induction false} SlotCountOfForm(tasks: seq<TaskSpec>, cap: U8)
    requires cap > 0 && ReserveAs(tasks, cap)
    ensures |Slots(tasks)| == cap - 1
  {
    if |Slots(tasks)| > 0 {
      OrdinalAtPlace(tasks, cap, |Slots(tasks)| - 1);
    }
    if cap > 1 {
      var t :| t in tasks && t.purpose == FinalVerificationRepairSlot(cap - 1);
      var i :| 0 <= i < |tasks| && tasks[i] == t;
      var l := SlotPlace(tasks, i);
      OrdinalAtPlace(tasks, cap, l);
    }
  }

  lemma {:induction false} SlotOfForm(tasks: seq<TaskSpec>, cap: U8, i: nat)
    requires cap > 0 && ReserveAs(tasks, cap) && i < |Slots(tasks)|
    ensures SlotFits(tasks, Slots(tasks), i)
  {
    var slots := Slots(tasks);
    var slot := tasks[slots[i]];
    OrdinalAtPlace(tasks, cap, i);
    assert slot in tasks && slot.purpose != Ordinary;
    forall t | 0 <= t < |tasks| && RequiredOrdinary(tasks[t]) ensures tasks[t].taskId in slot.dependencies {
      assert tasks[t] in tasks && tasks[t].purpose == Ordinary;
    }
    forall k | 0 <= k < |slots| ensures tasks[slots[k]].taskId in slot.dependencies <==> k == i - 1 {
      OrdinalAtPlace(tasks, cap, k);
      assert tasks[slots[k]] in tasks && tasks[slots[k]].purpose != Ordinary;
    }
  }

  lemma {:induction false} ReserveOfForm(tasks: seq<TaskSpec>, cap: U8)
    requires cap > 0 && ReserveAs(tasks, cap)
    ensures ReserveValid(tasks, cap)
  {
    SlotCountOfForm(tasks, cap);
    forall i | 0 <= i < |Slots(tasks)| ensures SlotFits(tasks, Slots(tasks), i) {
      SlotOfForm(tasks, cap, i);
    }
  }

  /** A slot of a valid reserve, with its place. */
  lemma {:induction false} SlotOfReserve(tasks: seq<TaskSpec>, cap: U8, s: TaskSpec) returns (k: nat)
    requires cap > 0 && ReserveValid(tasks, cap) && s in tasks && s.purpose != Ordinary
    ensures k < |Slots(tasks)| == cap - 1 && tasks[Slots(tasks)[k]] == s && SlotFits(tasks, Slots(tasks), k)
    ensures s.purpose == FinalVerificationRepairSlot(k + 1)
  {
    var i :| 0 <= i < |tasks| && tasks[i] == s;
    k := SlotPlace(tasks, i);
    assert SlotFits(tasks, Slots(tasks), k);
  }

  lemma {:induction false} SlotsNameSlots(tasks: seq<TaskSpec>, cap: U8, s: TaskSpec, u: TaskSpec)
    requires cap > 0 && ReserveValid(tasks, cap) && s in tasks && u in tasks
    requires s.purpose != Ordinary && u.purpose != Ordinary
    ensures u.taskId in s.dependencies <==> u.purpose.slotOrdinal + 1 == s.purpose.slotOrdinal
  {
    var k := SlotOfReserve(tasks, cap, s);
    var l := SlotOfReserve(tasks, cap, u);
  }

  lemma {:induction false} SlotsNameRequired(tasks: seq<TaskSpec>, cap: U8, s: TaskSpec, t: TaskSpec)
    requires cap > 0 && ReserveValid(tasks, cap) && s in tasks && t in tasks
    requires s.purpose != Ordinary && t.purpose == Ordinary && t.required
    ensures t.taskId in s.dependencies
  {
    var k := SlotOfReserve(tasks, cap, s);
    var j :| 0 <= j < |tasks| && tasks[j] == t;
    assert RequiredOrdinary(tasks[j]);
  }

  lemma {:induction false} SlotsInOrder(tasks: seq<TaskSpec>, cap: U8, i: nat, j: nat)
    requires cap > 0 && ReserveValid(tasks, cap) && i < j < |tasks|
    requires tasks[i].purpose != Ordinary && tasks[j].purpose != Ordinary
    ensures tasks[i].purpose.slotOrdinal < tasks[j].purpose.slotOrdinal
  {
    var k := SlotPlace(tasks, i);
    var l := SlotPlace(tasks, j);
    assert SlotFits(tasks, Slots(tasks), k) && SlotFits(tasks, Slots(tasks), l);
  }

  lemma {:induction false} OrdinalTaken(tasks: seq<TaskSpec>, cap: U8, o: U8)
    requires ReserveValid(tasks, cap) && 1 <= o < cap
    ensures exists t :: t in tasks && t.purpose == FinalVerificationRepairSlot(o)
  {
    assert SlotFits(tasks, Slots(tasks), o - 1);
    assert tasks[Slots(tasks)[o - 1]] in tasks;
  }

  lemma {:induction false} FormOfReserve(tasks: seq<TaskSpec>, cap: U8)
    requires cap > 0 && ReserveValid(tasks, cap)
    ensures ReserveAs(tasks, cap)
  {
    forall t, o: U8 | t in tasks && t.purpose == FinalVerificationRepairSlot(o) ensures 1 <= o < cap {
      var k := SlotOfReserve(tasks, cap, t);
    }
    forall o: U8 | 1 <= o < cap ensures exists t :: t in tasks && t.purpose == FinalVerificationRepairSlot(o) {
      OrdinalTaken(tasks, cap, o);
    }
    forall i, j | 0 <= i < j < |tasks| && tasks[i].purpose != Ordinary && tasks[j].purpose != Ordinary
      ensures tasks[i].purpose.slotOrdinal < tasks[j].purpose.slotOrdinal
    {
      SlotsInOrder(tasks, cap, i, j);
    }
    forall s, t | s in tasks && t in tasks && s.purpose != Ordinary && t.purpose == Ordinary && t.required
      ensures t.taskId in s.dependencies
    {
      SlotsNameRequired(tasks, cap, s, t);
    }
    forall s, u | s in tasks && u in tasks && s.purpose != Ordinary && u.purpose != Ordinary
      ensures u.taskId in s.dependencies <==> u.purpose.slotOrdinal + 1 == s.purpose.slotOrdinal
    {
      SlotsNameSlots(tasks, cap, s, u);
    }
  }

  lemma {:induction false} ReserveExactly(tasks: seq<TaskSpec>, cap: U8)
    requires cap > 0
    ensures ReserveValid(tasks, cap) <==> ReserveAs(tasks, cap)
  {
    if ReserveValid(tasks, cap) {
      FormOfReserve(tasks, cap);
    } else if ReserveAs(tasks, cap) {
      ReserveOfForm(tasks, cap);
    }
  }

  /** `validate_for_sprint` accepts exactly the graphs of this form. */
  lemma {:induction false} AcceptedExactly(tasks: seq<TaskSpec>, criteria: seq<Identifier>, maxTasks: nat, cap: U8)
    ensures AcceptedGraph(tasks, Elements(criteria), maxTasks, cap) <==> AcceptedAs(tasks, criteria, maxTasks, cap)
  {
    TasksExactly(tasks);
    RelatesExactly(criteria, View(tasks));
    OrdinaryExactly(tasks, criteria);
    if cap > 0 {
      ReserveExactly(tasks, cap);
    }
  }

  // ---------- the reserve cannot block required work ----------

  /** Task `later` transitively depends on task `earlier`. */
  ghost predicate Follows(tasks: seq<TaskSpec>, later: nat, earlier: nat) {
    Reaches(DependencyEdges(View(tasks)), earlier, later)
  }

  lemma {:induction false} NamedFollows(tasks: seq<TaskSpec>, later: nat, earlier: nat)
    requires later < |tasks| && earlier < |tasks| && tasks[earlier].taskId in tasks[later].dependencies
    ensures Follows(tasks, later, earlier)
  {
    EdgesAreDependencies(View(tasks), earlier, later);
    EdgeReaches(DependencyEdges(View(tasks)), earlier, later);
  }

  /** Every slot transitively depends on every earlier slot. */
  lemma {:induction false} SlotFollowsEarlierSlots(tasks: seq<TaskSpec>, cap: U8, i: nat, j: nat)
    requires ReserveValid(tasks, cap) && j < i < |Slots(tasks)|
    ensures Follows(tasks, Slots(tasks)[i], Slots(tasks)[j])
    decreases i
  {
    var slots := Slots(tasks);
    assert SlotFits(tasks, slots, i) && slots[i - 1] < |tasks|;
    NamedFollows(tasks, slots[i], slots[i - 1]);
    if j < i - 1 {
      SlotFollowsEarlierSlots(tasks, cap, i - 1, j);
      ReachesTransitive(DependencyEdges(View(tasks)), slots[j], slots[i - 1], slots[i]);
    }
  }

  /** Every slot depends on every required task. */
  lemma {:induction false} SlotFollowsRequired(tasks: seq<TaskSpec>, criteria: set<Identifier>, maxTasks: nat,
                                               cap: U8, i: nat, t: nat)
    requires AcceptedGraph(tasks, criteria, maxTasks, cap) && i < |Slots(tasks)| && t < |tasks| && tasks[t].required
    ensures Follows(tasks, Slots(tasks)[i], t)
  {
    assert TaskValid(tasks[t]) && SlotFits(tasks, Slots(tasks), i);
    NamedFollows(tasks, Slots(tasks)[i], t);
  }

  /** Nothing that a required task waits for, directly or not, is a slot; nor is the task itself. */
  lemma {:induction false} RequiredNeverWaitsForSlots(tasks: seq<TaskSpec>, criteria: set<Identifier>, maxTasks: nat,
                                                      cap: U8, i: nat, t: nat)
    requires AcceptedGraph(tasks, criteria, maxTasks, cap) && i < |Slots(tasks)| && t < |tasks| && tasks[t].required
    ensures !Follows(tasks, t, Slots(tasks)[i]) && t != Slots(tasks)[i]
  {
    SlotFollowsRequired(tasks, criteria, maxTasks, cap, i, t);
    if Follows(tasks, t, Slots(tasks)[i]) {
      ReachesTransitive(DependencyEdges(View(tasks)), t, Slots(tasks)[i], t);
    }
  }

  /** The reserve is a chain in one direction only: no slot follows a later one, and there is one per spare attempt. */
  lemma {:induction false} SlotsFormOneChain(tasks: seq<TaskSpec>, criteria: set<Identifier>, maxTasks: nat, cap: U8,
                                             i: nat, j: nat)
    requires AcceptedGraph(tasks, criteria, maxTasks, cap) && i < |Slots(tasks)| && j < |Slots(tasks)|
    ensures Follows(tasks, Slots(tasks)[i], Slots(tasks)[j]) <==> j < i
    ensures |Slots(tasks)| == cap - 1 <= 2
  {
    if j < i {
      SlotFollowsEarlierSlots(tasks, cap, i, j);
    } else if i < j {
      SlotFollowsEarlierSlots(tasks, cap, j, i);
      if Follows(tasks, Slots(tasks)[i], Slots(tasks)[j]) {
        ReachesTransitive(DependencyEdges(View(tasks)), Slots(tasks)[i], Slots(tasks)[j], Slots(tasks)[i]);
      }
    }
  }

  // ---------- ordinary work behind a slot ----------

  predicate IsSlot(tasks: seq<TaskSpec>, i: nat) {
    i < |tasks| && tasks[i].purpose.FinalVerificationRepairSlot?
  }

  predicate IsOrdinary(tasks: seq<TaskSpec>, i: nat) {
    i < |tasks| && tasks[i].purpose.Ordinary?
  }

  /** Task `t` lists the identifier of a slot among its own dependencies. */
  predicate NamesSlot(tasks: seq<TaskSpec>, t: nat) {
    t < |tasks| && exists s :: 0 <= s < |tasks| && IsSlot(tasks, s) && tasks[s].taskId in tasks[t].dependencies
  }

  /** Task `t` waits for a slot, directly or through other tasks. */
  ghost predicate HeldBack(tasks: seq<TaskSpec>, t: nat) {
    exists s :: IsSlot(tasks, s) && Follows(tasks, t, s)
  }

  ghost predicate OrdinaryFree(tasks: seq<TaskSpec>) {
    forall t :: IsOrdinary(tasks, t) ==> !HeldBack(tasks, t)
  }

  predicate OrdinaryNamesNoSlot(tasks: seq<TaskSpec>) {
    forall t :: 0 <= t < |tasks| && IsOrdinary(tasks, t) ==> !NamesSlot(tasks, t)
  }

  /** Task `t` is `u`, or waits for it. */
  ghost predicate Through(tasks: seq<TaskSpec>, t: nat, u: nat) {
    t == u || Follows(tasks, t, u)
  }

  lemma {:induction false} WalkTail(edges: Edges, w: seq<nat>)
    requires Walk(edges, w) && |w| > 2
    ensures Walk(edges, w[1..]) && Reaches(edges, w[1], w[|w| - 1])
  {
    forall k | 0 <= k < |w| - 2 ensures Edge(edges, w[1..][k], w[1..][k + 1]) {
      assert Edge(edges, w[k + 1], w[k + 1 + 1]);
    }
    assert WalkBetween(edges, w[1..], w[1], w[|w| - 1]);
  }

  /** A walk from a slot to an ordinary task leaves the slots at an ordinary task that names one. */
  lemma {:induction false} WalkLeavesSlots(tasks: seq<TaskSpec>, w: seq<nat>) returns (u: nat)
    requires Walk(DependencyEdges(View(tasks)), w) && IsSlot(tasks, w[0]) && IsOrdinary(tasks, w[|w| - 1])
    ensures IsOrdinary(tasks, u) && NamesSlot(tasks, u) && Through(tasks, w[|w| - 1], u)
  {
    var edges := DependencyEdges(View(tasks));
    assert Edge(edges, w[0], w[1]);
    EdgesAreDependencies(View(tasks), w[0], w[1]);
    if |w| > 2 {
      WalkTail(edges, w);
    }
    if IsSlot(tasks, w[1]) {
      u := WalkLeavesSlots(tasks, w[1..]);
    } else {
      u := w[1];
    }
  }

  /** An ordinary task waits for a slot exactly when it, or an ordinary task it waits for, names one. */
  lemma {:induction false} HeldBackExactly(tasks: seq<TaskSpec>, t: nat)
    requires IsOrdinary(tasks, t)
    ensures HeldBack(tasks, t) <==> exists u :: IsOrdinary(tasks, u) && NamesSlot(tasks, u) && Through(tasks, t, u)
  {
    var edges := DependencyEdges(View(tasks));
    if HeldBack(tasks, t) {
      var s :| IsSlot(tasks, s) && Follows(tasks, t, s);
      var w :| WalkBetween(edges, w, s, t);
      var u := WalkLeavesSlots(tasks, w);
    }
    if u: nat :| IsOrdinary(tasks, u) && NamesSlot(tasks, u) && Through(tasks, t, u) {
      var s :| 0 <= s < |tasks| && IsSlot(tasks, s) && tasks[s].taskId in tasks[u].dependencies;
      NamedFollows(tasks, u, s);
      if u != t {
        ReachesTransitive(edges, s, u, t);
      }
    }
  }

  /** So no ordinary task of a graph waits for a slot exactly when no ordinary task names one. */
  lemma {:induction false} OrdinaryFreeExactly(tasks: seq<TaskSpec>)
    ensures OrdinaryFree(tasks) <==> OrdinaryNamesNoSlot(tasks)
  {
    forall t | IsOrdinary(tasks, t)
      ensures HeldBack(tasks, t) <==> exists u :: IsOrdinary(tasks, u) && NamesSlot(tasks, u) && Through(tasks, t, u)
    {
      HeldBackExactly(tasks, t);
    }
    if OrdinaryFree(tasks) {
      forall t | 0 <= t < |tasks| && IsOrdinary(tasks, t) ensures !NamesSlot(tasks, t) {
        assert Through(tasks, t, t);
      }
    }
  }

  /** Validation does not ask for that: an accepted graph may hold an optional ordinary task back behind a slot. */
  lemma {:induction false} OptionalWorkMayFollowSlot() returns (tasks: seq<TaskSpec>)
    ensures AcceptedGraph(tasks, {"c"}, 3, 2) && !OrdinaryFree(tasks)
    ensures |tasks| == 3 && RequiredOrdinary(tasks[0]) && IsSlot(tasks, 1) && IsOrdinary(tasks, 2) && !tasks[2].required
    ensures Follows(tasks, 2, 1)
  {
    tasks := RequiredSlotAndFollower();
    TrioAcceptedGraph(tasks);
    NamedFollows(tasks, 2, 1);
    assert HeldBack(tasks, 2);
  }

  /** A required task, the slot behind it, and an optional ordinary task that names the slot. */
  function RequiredSlotAndFollower(): (tasks: seq<TaskSpec>) {
    [TaskSpec("r", Ordinary, [], ["c"], true),
     TaskSpec("s", FinalVerificationRepairSlot(1), ["r"], ["c"], false),
     TaskSpec("x", Ordinary, ["s"], ["c"], false)]
  }

  lemma {:induction false} TrioAcceptedGraph(tasks: seq<TaskSpec>)
    requires tasks == RequiredSlotAndFollower()
    ensures AcceptedGraph(tasks, {"c"}, 3, 2)
  {
    TrioAccepted(View(tasks));
    assert tasks[0].taskId != tasks[1].taskId;
    TrioReserve(tasks);
    TrioValid(tasks);
  }

  lemma {:induction false} TrioValid(tasks: seq<TaskSpec>)
    requires tasks == RequiredSlotAndFollower()
    ensures forall t :: 0 <= t < |tasks| ==> TaskValid(tasks[t])
  {
    LetterValid(tasks[0], "c");
    LetterValid(tasks[1], "c");
    LetterValid(tasks[2], "c");
  }

  lemma {:induction false} LetterValid(task: TaskSpec, check: Identifier)
    requires |task.taskId| == |check| == 1 && !IsWhiteSpace(task.taskId[0]) && !IsWhiteSpace(check[0])
    requires task.acceptanceChecks == [check] && |task.dependencies| <= 1
    requires forall d :: d in task.dependencies ==> |d| == 1 && !IsWhiteSpace(d[0])
    requires task.purpose.FinalVerificationRepairSlot? ==> task.purpose.slotOrdinal != 0 && !task.required
    ensures TaskValid(task)
  {
  }

  lemma {:induction false} TrioReserve(tasks: seq<TaskSpec>)
    requires |tasks| == 3 && tasks[0].purpose.Ordinary? && tasks[2].purpose.Ordinary? && !tasks[2].required
    requires tasks[1].purpose == FinalVerificationRepairSlot(1)
    requires tasks[1].dependencies == [tasks[0].taskId] && tasks[0].taskId != tasks[1].taskId
    ensures ReserveValid(tasks, 2)
  {
    TrioSlots(tasks);
    assert SlotFits(tasks, [1], 0);
  }

  lemma {:induction false} TrioSlots(tasks: seq<TaskSpec>)
    requires |tasks| == 3 && tasks[0].purpose.Ordinary? && !tasks[1].purpose.Ordinary? && tasks[2].purpose.Ordinary?
    ensures Slots(tasks) == [1]
  {
    assert SlotPositions(tasks, 1) == [];
    assert SlotPositions(tasks, 2) == [1];
  }

  lemma {:induction false} TrioAccepted(views: seq<TaskView>)
    requires views == [TaskView("r", [], ["c"]), TaskView("s", ["r"], ["c"]), TaskView("x", ["s"], ["c"])]
    ensures GraphAccepted(views, {"c"})
  {
    assert views[0].taskId == "r" && views[1].taskId == "s" && views[2].taskId == "x";
    assert KnownTask(views, "r") && KnownTask(views, "s");
    assert AllCovered(views, {"c"}) by {
      assert "c" in views[0].acceptanceChecks;
    }
    DeclarationOrderAcyclic(views);
  }

  /** Tasks that name only earlier tasks form no cycle. */
  lemma {:induction false} DeclarationOrderAcyclic(views: seq<TaskView>)
    requires forall i, j :: DependsOn(views, j, i) ==> i < j
    ensures Acyclic(DependencyEdges(views))
  {
    var edges := DependencyEdges(views);
    var order := seq(|views|, i requires 0 <= i < |views| => i as nat);
    WellFormedDependencies(views);
    forall k: nat, i: nat | 0 <= k < |order| && Edge(edges, i, order[k]) ensures i in order[..k] {
      EdgesAreDependencies(views, i, order[k]);
      assert order[..k][i] == i;
    }
    CompleteOrderAcyclic(edges, order);
  }

  // ---------- validation ----------

  /** `require_unique_nonblank`. */
  method RequireUniqueNonblank(ids: seq<Identifier>) returns (accepted: bool)
    ensures accepted <==> UniqueNonblank(ids)
  {
    var seen: set<Identifier> := {};
    for k := 0 to |ids|
      invariant UniqueNonblank(ids[..k])
      invariant forall x :: x in seen <==> x in ids[..k]
    {
      if Blank(ids[k]) || ids[k] in seen {
        return false;
      }
      seen := seen + {ids[k]};
      assert ids[..k + 1] == ids[..k] + [ids[k]];
    }
    assert ids[..|ids|] == ids;
    return true;
  }

  /** `TaskSpecV2::validate`, dependency lists before acceptance checks. */
  method ValidateTask(task: TaskSpec) returns (r: Result<(), TaskFault>)
    ensures r.Ok? <==> TaskValid(task)
  {
    if Blank(task.taskId) {
      return Err(BlankTaskId);
    }
    if task.acceptanceChecks == [] {
      return Err(EmptyChecks);
    }
    var accepted := RequireUniqueNonblank(task.dependencies);
    if !accepted {
      return Err(BadDependencies);
    }
    accepted := RequireUniqueNonblank(task.acceptanceChecks);
    if !accepted {
      return Err(BadChecks);
    }
    if task.purpose.FinalVerificationRepairSlot? {
      if task.purpose.slotOrdinal == 0 {
        return Err(ZeroOrdinal);
      }
      if task.required {
        return Err(RequiredSlot);
      }
    }
    return Ok(());
  }

  function RequiredOrdinaryIds(tasks: seq<TaskSpec>): set<Identifier> {
    set t | 0 <= t < |tasks| && RequiredOrdinary(tasks[t]) :: tasks[t].taskId
  }

  function SlotIds(tasks: seq<TaskSpec>, slots: seq<nat>): (ids: seq<Identifier>)
    requires forall k :: 0 <= k < |slots| ==> slots[k] < |tasks|
    ensures |ids| == |slots| && forall k :: 0 <= k < |slots| ==> ids[k] == tasks[slots[k]].taskId
  {
    seq(|slots|, k requires 0 <= k < |slots| => tasks[slots[k]].taskId)
  }

  /** Among distinct identifiers, a set meets them in exactly the one before `i` when it holds that one and no other. */
  lemma {:induction false} PreviousOnly(ids: seq<Identifier>, named: set<Identifier>, i: nat)
    requires NoRepeats(ids) && i < |ids|
    ensures named * Elements(ids) == (if i == 0 then {} else {ids[i - 1]}) <==>
      forall k :: 0 <= k < |ids| ==> (ids[k] in named <==> k == i - 1)
  {
    var expected := if i == 0 then {} else {ids[i - 1]};
    if named * Elements(ids) == expected {
      forall k | 0 <= k < |ids| ensures ids[k] in named <==> k == i - 1 {
        assert ids[k] in named <==> ids[k] in expected;
      }
    }
  }

  lemma {:induction false} RequiredNamed(tasks: seq<TaskSpec>, named: set<Identifier>)
    ensures RequiredOrdinaryIds(tasks) <= named <==>
      forall t :: 0 <= t < |tasks| && RequiredOrdinary(tasks[t]) ==> tasks[t].taskId in named
  {
    if RequiredOrdinaryIds(tasks) <= named {
      forall t | 0 <= t < |tasks| && RequiredOrdinary(tasks[t]) ensures tasks[t].taskId in named {
        assert tasks[t].taskId in RequiredOrdinaryIds(tasks);
      }
    }
  }

  /** One slot; its expected ordinal always fits in a byte. */
  method CheckSlot(tasks: seq<TaskSpec>, slots: seq<nat>, slotIds: seq<Identifier>, requiredIds: set<Identifier>,
                   i: nat)
    returns (r: Result<(), ReserveFault>)
    requires slots == Slots(tasks) && i < |slots| < 256
    requires slotIds == SlotIds(tasks, slots) && NoRepeats(slotIds) && requiredIds == RequiredOrdinaryIds(tasks)
    ensures r.Ok? <==> SlotFits(tasks, slots, i)
  {
    var slot := tasks[slots[i]];
    var expectedOrdinal: U8 := i + 1;
    if slot.purpose.slotOrdinal != expectedOrdinal {
      return Err(SlotOrdinal);
    }
    var dependencies := Elements(slot.dependencies);
    RequiredNamed(tasks, dependencies);
    if !(requiredIds <= dependencies) {
      return Err(MissingRequiredDependency);
    }
    PreviousOnly(slotIds, dependencies, i);
    if dependencies * Elements(slotIds) != (if i == 0 then {} else {slotIds[i - 1]}) {
      return Err(WrongSlotDependency);
    }
    return Ok(());
  }

  /** `validate_repair_slots`. */
  method ValidateRepairSlots(tasks: seq<TaskSpec>, cap: U8) returns (r: Result<(), ReserveFault>)
    requires UniqueIds(View(tasks))
    ensures r.Ok? <==> ReserveValid(tasks, cap)
  {
    var slots := Slots(tasks);
    var expectedCount := if cap == 0 then 0 else cap - 1;
    if |slots| != expectedCount {
      return Err(SlotCount);
    }
    for i := 0 to |slots|
      invariant forall k :: 0 <= k < i ==> SlotFits(tasks, slots, k)
    {
      var checked := CheckSlot(tasks, slots, SlotIds(tasks, slots), RequiredOrdinaryIds(tasks), i);
      if checked.Err? {
        assert slots[i] < |tasks| && !SlotFits(tasks, slots, i);
        return checked;
      }
    }
    return Ok(());
  }

  function OrdinaryChecks(tasks: seq<TaskSpec>): set<Identifier> {
    set t, c | 0 <= t < |tasks| && tasks[t].purpose.Ordinary? && c in tasks[t].acceptanceChecks :: c
  }

  /** `validate_for_sprint`, without its identity and digest comparisons. */
  method ValidateForSprint(tasks: seq<TaskSpec>, acceptanceCriteria: seq<Identifier>, maxTasks: nat, cap: U8)
    returns (r: Result<(), GraphFault>)
    ensures r.Ok? <==> AcceptedGraph(tasks, Elements(acceptanceCriteria), maxTasks, cap)
    ensures r.Ok? <==> AcceptedAs(tasks, acceptanceCriteria, maxTasks, cap)
  {
    AcceptedExactly(tasks, acceptanceCriteria, maxTasks, cap);
    if !(1 <= cap <= MAX_FINAL_VERIFICATION_ATTEMPTS) {
      return Err(CapOutOfRange);
    }
    if tasks == [] {
      return Err(NoTasks);
    }
    if |tasks| > maxTasks {
      return Err(TooManyTasks);
    }
    var shape := ValidateTasks(tasks);
    if shape.Err? {
      return shape;
    }
    var relationships := ValidateGraphRelationships(acceptanceCriteria, View(tasks));
    if relationships.Err? {
      return Err(Relationship(relationships.error));
    }
    CoverageBySets(tasks, Elements(acceptanceCriteria));
    if OrdinaryChecks(tasks) != Elements(acceptanceCriteria) {
      return Err(GraphFault.OrdinaryCoverage);
    }
    var reserve := ValidateRepairSlots(tasks, cap);
    if reserve.Err? {
      return Err(Reserve(reserve.error));
    }
    return Ok(());
  }

  lemma {:induction false} CoverageBySets(tasks: seq<TaskSpec>, criteria: set<Identifier>)
    requires AllReferencesKnown(View(tasks), criteria)
    ensures OrdinaryChecks(tasks) == criteria <==> OrdinaryCoverage(tasks, criteria)
  {
    forall c | c in OrdinaryChecks(tasks) ensures c in criteria {
      var t :| 0 <= t < |tasks| && tasks[t].purpose.Ordinary? && c in tasks[t].acceptanceChecks;
      assert ReferencesKnown(View(tasks), criteria, t) && c in View(tasks)[t].acceptanceChecks;
    }
  }

  /** Each task by itself, then against the identifiers seen before it. */
  method ValidateTasks(tasks: seq<TaskSpec>) returns (r: Result<(), GraphFault>)
    ensures r.Ok? <==> (forall t :: 0 <= t < |tasks| ==> TaskValid(tasks[t])) && UniqueIds(View(tasks))
  {
    var taskIds: set<Identifier> := {};
    for t := 0 to |tasks|
      invariant forall k :: 0 <= k < t ==> TaskValid(tasks[k])
      invariant forall k :: 0 <= k < t ==> tasks[k].taskId in taskIds
      invariant forall id :: id in taskIds ==> exists k :: 0 <= k < t && tasks[k].taskId == id
      invariant forall k, l :: 0 <= k < l < t ==> tasks[k].taskId != tasks[l].taskId
    {
      var checked := ValidateTask(tasks[t]);
      if checked.Err? {
        return Err(BadTask(checked.error));
      }
      if tasks[t].taskId in taskIds {
        var k :| 0 <= k < t && tasks[k].taskId == tasks[t].taskId;
        assert View(tasks)[k].taskId == View(tasks)[t].taskId;
        return Err(RepeatedTask);
      }
      taskIds := taskIds + {tasks[t].taskId};
    }
    return Ok(());
  }
}
