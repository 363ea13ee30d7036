/** The task-integration chain (completion.rs). */
module Integrations {
  import opened Finite
  import opened Outcomes
  import opened Sorting
  import opened Identifiers
  import opened CompletionEvidence
  import opened CompletionMeaning

  // ---------- sorting by ordinal ----------

  predicate Precedes(a: Integration, b: Integration) {
    a.ordinal < b.ordinal
  }

  /** `sort_by_key(integration_ordinal)`. */
  function SortByOrdinal(s: seq<Integration>): (t: seq<Integration>)
    ensures multiset(t) == multiset(s) && Ascending(t)
  {
    SortSorted(Precedes, s);
    Sort(Precedes, s)
  }

  ghost predicate Ascending(s: seq<Integration>) {
    forall i, j :: 0 <= i < j < |s| ==> s[i].ordinal <= s[j].ordinal
  }

  /** Increasing ordinals below the length are exactly the positions. */
  lemma {:induction false} IncreasingArePositions(t: seq<Integration>, k: nat)
    requires k < |t| && forall i, j :: 0 <= i < j < |t| ==> t[i].ordinal < t[j].ordinal
    requires forall i :: 0 <= i < |t| ==> t[i].ordinal < |t|
    ensures t[k].ordinal == k
  {
    AtLeastPosition(t, k);
    RoomAbove(t, k);
  }

  lemma {:induction false} AtLeastPosition(t: seq<Integration>, k: nat)
    requires k < |t| && forall i, j :: 0 <= i < j < |t| ==> t[i].ordinal < t[j].ordinal
    ensures t[k].ordinal >= k
  {
    if k > 0 { AtLeastPosition(t, k - 1); }
  }

  lemma {:induction false} RoomAbove(t: seq<Integration>, k: nat)
    requires k < |t| && forall i, j :: 0 <= i < j < |t| ==> t[i].ordinal < t[j].ordinal
    requires forall i :: 0 <= i < |t| ==> t[i].ordinal < |t|
    ensures t[k].ordinal <= k
    decreases |t| - k
  {
    if k < |t| - 1 { RoomAbove(t, k + 1); }
  }

  /** A numbered list is the only sorted arrangement of its receipts. */
  lemma {:induction false} NumberedIsUnique(s: seq<Integration>, t: seq<Integration>)
    requires forall k :: 0 <= k < |s| ==> s[k].ordinal == k
    requires multiset(t) == multiset(s) && Ascending(t)
    ensures t == s
  {
    assert |t| == |multiset(t)| == |s|;
    forall k | 0 <= k < |t| ensures t[k] in s {
      assert t[k] in multiset(t);
    }
    forall i, j | 0 <= i < j < |t| ensures t[i].ordinal < t[j].ordinal {
      if t[i].ordinal == t[j].ordinal {
        assert t[i] in s && t[j] in s;
        PlacesCount(t, i, j);
        NoRepeatsCountsOnce(s, t[i]);
      }
    }
    forall k | 0 <= k < |t| ensures t[k] == s[k] {
      IncreasingArePositions(t, k);
      assert t[k] in s;
    }
  }

  // ---------- the chain ----------

  predicate SessionMatches(e: Evidence, r: Integration) {
    exists s :: s in e.sessions && s.sessionId == r.sessionId && s.launchId == r.launchId && s.purpose.TaskWorker?
      && s.workerId == Some(r.workerId) && s.lease == r.lease && s.policy.policyHash == r.policyHash
      && LaunchMatches(e, r)
  }

  predicate LaunchMatches(e: Evidence, r: Integration) {
    exists l :: l in e.launches && l.launchId == r.launchId && l.sessionId == r.sessionId && l.lease == r.lease
  }

  predicate Backs(sprint: Sprint, v: VerificationEffect, r: Integration) {
    && v.valid && v.launchId == r.launchId && v.sessionId == r.sessionId && v.verification.passed
    && v.verification.sprintId == sprint.sprintId && v.verification.taskId == Some(r.taskId)
    && v.verification.snapshot == r.resultSnapshot && v.verification.policyHash == r.policyHash
    && v.verification.finishedAt <= r.integratedAt
  }

  /** The identifiers of passing verifications of exactly this integration. */
  function BackingIds(sprint: Sprint, e: Evidence, r: Integration): set<Identifier> {
    set v | v in e.effects && Backs(sprint, v, r) && v.verification.receiptId in r.verificationIds ::
      v.verification.receiptId
  }

  function GraphIds(tasks: seq<GraphTask>): set<Identifier> {
    set t | t in tasks :: t.taskId
  }

  function RequiredIds(tasks: seq<GraphTask>): set<Identifier> {
    set t | t in tasks && t.required :: t.taskId
  }

  /** What one receipt must satisfy whatever its place. */
  predicate ReceiptFits(sprint: Sprint, tasks: seq<GraphTask>, e: Evidence, r: Integration) {
    && r.valid && r.sprintId == sprint.sprintId && r.taskId in GraphIds(tasks)
    && SessionMatches(e, r)
    && BackingIds(sprint, e, r) == Elements(r.verificationIds)
  }

  /** The snapshot that the first `k` receipts lead to. */
  function SnapshotAfter(base: DigestText, s: seq<Integration>, k: nat): DigestText
    requires k <= |s|
  {
    if k == 0 then base else s[k - 1].resultSnapshot
  }

  /** Receipt `i` starts where the one before it ended. */
  predicate StartsWhereEnded(base: DigestText, s: seq<Integration>, i: nat)
    requires i < |s|
  {
    s[i].inputSnapshot == SnapshotAfter(base, s, i)
  }

  /** The first `k` receipts in order: numbered from zero, linked without a gap, no receipt or task twice. */
  ghost predicate Linked(sprint: Sprint, tasks: seq<GraphTask>, e: Evidence, s: seq<Integration>, k: nat)
    requires k <= |s|
  {
    && (forall i :: 0 <= i < k ==> s[i].ordinal == i)
    && (forall i :: 0 <= i < k ==> StartsWhereEnded(sprint.baseSnapshot, s, i))
    && (forall i :: 0 <= i < k ==> ReceiptFits(sprint, tasks, e, s[i]))
    && ReceiptsDistinct(s, k)
    && TasksDistinct(s, k)
  }

  ghost predicate ReceiptsDistinct(s: seq<Integration>, k: nat)
    requires k <= |s|
  {
    forall i, j :: 0 <= i < j < k ==> s[i].receiptId != s[j].receiptId
  }

  ghost predicate TasksDistinct(s: seq<Integration>, k: nat)
    requires k <= |s|
  {
    forall i, j :: 0 <= i < j < k ==> s[i].taskId != s[j].taskId
  }

  ghost predicate ChainAccepted(sprint: Sprint, tasks: seq<GraphTask>, e: Evidence, s: seq<Integration>) {
    && Linked(sprint, tasks, e, s, |s|)
    && (forall id :: id in RequiredIds(tasks) ==> exists i :: 0 <= i < |s| && s[i].taskId == id)
    && SnapshotAfter(sprint.baseSnapshot, s, |s|) == e.finalSnapshot
  }

  /** The answer for receipts in any order. */
  ghost predicate IntegrationsComplete(sprint: Sprint, tasks: seq<GraphTask>, e: Evidence) {
    ChainAccepted(sprint, tasks, e, SortByOrdinal(e.integrations))
  }

  /** The receipts and tasks collected so far. */
  ghost predicate Collected(s: seq<Integration>, k: nat, receiptIds: set<Identifier>, taskIds: set<Identifier>)
    requires k <= |s|
  {
    && (forall id :: id in receiptIds <==> exists i :: 0 <= i < k && s[i].receiptId == id)
    && (forall id :: id in taskIds <==> exists i :: 0 <= i < k && s[i].taskId == id)
  }

  /** The checks on receipt `k`, given those before it. */
  predicate Continues(sprint: Sprint, tasks: seq<GraphTask>, e: Evidence, s: seq<Integration>, k: nat,
                      receiptIds: set<Identifier>, taskIds: set<Identifier>)
    requires k < |s|
  {
    && s[k].ordinal == k && StartsWhereEnded(sprint.baseSnapshot, s, k)
    && s[k].receiptId !in receiptIds && s[k].taskId !in taskIds && ReceiptFits(sprint, tasks, e, s[k])
  }

  lemma {:induction false} LinkedStep(sprint: Sprint, tasks: seq<GraphTask>, e: Evidence, s: seq<Integration>, k: nat,
                                      receiptIds: set<Identifier>, taskIds: set<Identifier>)
    requires k < |s| && Linked(sprint, tasks, e, s, k) && Collected(s, k, receiptIds, taskIds)
    ensures Linked(sprint, tasks, e, s, k + 1) <==> Continues(sprint, tasks, e, s, k, receiptIds, taskIds)
    ensures Collected(s, k + 1, receiptIds + {s[k].receiptId}, taskIds + {s[k].taskId})
  {
    DistinctStep(s, k, receiptIds, taskIds);
  }

  lemma {:induction false} DistinctStep(s: seq<Integration>, k: nat, receiptIds: set<Identifier>,
                                        taskIds: set<Identifier>)
    requires k < |s| && ReceiptsDistinct(s, k) && TasksDistinct(s, k) && Collected(s, k, receiptIds, taskIds)
    ensures ReceiptsDistinct(s, k + 1) <==> s[k].receiptId !in receiptIds
    ensures TasksDistinct(s, k + 1) <==> s[k].taskId !in taskIds
    ensures Collected(s, k + 1, receiptIds + {s[k].receiptId}, taskIds + {s[k].taskId})
  {
  }

  /** A break anywhere breaks the whole list. */
  lemma {:induction false} LinkedBreaks(sprint: Sprint, tasks: seq<GraphTask>, e: Evidence, s: seq<Integration>, k: nat)
    requires k <= |s| && !Linked(sprint, tasks, e, s, k)
    ensures !Linked(sprint, tasks, e, s, |s|)
  {
  }

  /** The loop's variables after `k` receipts. */
  ghost predicate Following(sprint: Sprint, tasks: seq<GraphTask>, e: Evidence, s: seq<Integration>, k: nat,
                            receiptIds: set<Identifier>, taskIds: set<Identifier>, expectedInput: DigestText)
    requires k <= |s|
  {
    && Linked(sprint, tasks, e, s, k) && Collected(s, k, receiptIds, taskIds)
    && expectedInput == SnapshotAfter(sprint.baseSnapshot, s, k)
  }

  /** One receipt: checked against what came before it, then recorded. */
  method FollowReceipt(sprint: Sprint, tasks: seq<GraphTask>, e: Evidence, ordered: seq<Integration>, k: nat,
                       receiptIds: set<Identifier>, taskIds: set<Identifier>, expectedInput: DigestText)
    returns (ok: bool, receipts: set<Identifier>, integrated: set<Identifier>, result: DigestText)
    requires k < |ordered| && Following(sprint, tasks, e, ordered, k, receiptIds, taskIds, expectedInput)
    ensures ok ==> Following(sprint, tasks, e, ordered, k + 1, receipts, integrated, result)
    ensures !ok ==> !Linked(sprint, tasks, e, ordered, |ordered|)
  {
    LinkedStep(sprint, tasks, e, ordered, k, receiptIds, taskIds);
    var r := ordered[k];
    receipts, integrated, result := receiptIds + {r.receiptId}, taskIds + {r.taskId}, r.resultSnapshot;
    ok := k < 0x1_0000_0000 && r.ordinal == k && r.inputSnapshot == expectedInput
      && r.receiptId !in receiptIds && r.taskId !in taskIds && ReceiptFits(sprint, tasks, e, r);
    if !ok {
      LinkedBreaks(sprint, tasks, e, ordered, k + 1);
    }
  }

  /** The chain as far as it links; a receipt that breaks it ends the loop. */
  method FollowChain(sprint: Sprint, tasks: seq<GraphTask>, e: Evidence, ordered: seq<Integration>)
    returns (ok: bool, taskIds: set<Identifier>, expectedInput: DigestText)
    ensures !ok ==> !Linked(sprint, tasks, e, ordered, |ordered|)
    ensures ok ==> exists ids :: Following(sprint, tasks, e, ordered, |ordered|, ids, taskIds, expectedInput)
  {
    var receiptIds: set<Identifier> := {};
    ok, taskIds, expectedInput := true, {}, sprint.baseSnapshot;
    for k := 0 to |ordered|
      invariant Following(sprint, tasks, e, ordered, k, receiptIds, taskIds, expectedInput)
    {
      ok, receiptIds, taskIds, expectedInput :=
        FollowReceipt(sprint, tasks, e, ordered, k, receiptIds, taskIds, expectedInput);
      if !ok {
        return;
      }
    }
    ok := true;
  }

  /** `task_integrations_are_complete`. */
  method TaskIntegrationsAreComplete(sprint: Sprint, tasks: seq<GraphTask>, e: Evidence) returns (ok: bool)
    ensures ok <==> IntegrationsComplete(sprint, tasks, e)
    ensures ok <==> Integrated(sprint, tasks, e)
  {
    IntegratedExactly(sprint, tasks, e);
    var linked, taskIds, lastResult := FollowChain(sprint, tasks, e, SortByOrdinal(e.integrations));
    ok := linked && RequiredIds(tasks) <= taskIds && lastResult == e.finalSnapshot;
  }

  /** The order in which receipts are listed never matters. */
  lemma {:induction false} OrderIrrelevant(sprint: Sprint, tasks: seq<GraphTask>, e: Evidence, other: seq<Integration>)
    requires multiset(other) == multiset(e.integrations)
    ensures IntegrationsComplete(sprint, tasks, e) <==> IntegrationsComplete(sprint, tasks, e.(integrations := other))
  {
    var a, b := SortByOrdinal(e.integrations), SortByOrdinal(other);
    if IntegrationsComplete(sprint, tasks, e) {
      NumberedIsUnique(a, b);
      SameFit(sprint, tasks, e, other, a);
    }
    if IntegrationsComplete(sprint, tasks, e.(integrations := other)) {
      NumberedIsUnique(b, a);
      SameFit(sprint, tasks, e, other, a);
    }
  }

  /** Fitting looks at everything in the evidence but the receipt list. */
  lemma {:induction false} SameFit(sprint: Sprint, tasks: seq<GraphTask>, e: Evidence, other: seq<Integration>,
                                   s: seq<Integration>)
    ensures ChainAccepted(sprint, tasks, e, s) <==> ChainAccepted(sprint, tasks, e.(integrations := other), s)
  {
    forall r ensures ReceiptFits(sprint, tasks, e, r) <==> ReceiptFits(sprint, tasks, e.(integrations := other), r) {
    }
  }

  /** Some arrangement `s` of the list numbers it from zero and links base to final. */
  ghost predicate Arranges(s: seq<Integration>, list: seq<Integration>, base: DigestText, final: DigestText) {
    && multiset(s) == multiset(list)
    && (forall k :: 0 <= k < |s| ==> s[k].ordinal == k)
    && (forall k :: 0 <= k < |s| ==> StartsWhereEnded(base, s, k))
    && ReceiptsDistinct(s, |s|) && TasksDistinct(s, |s|)
    && SnapshotAfter(base, s, |s|) == final
  }

  /** Each receipt stands at the place its ordinal names. */
  lemma {:induction false} StandsAtOrdinal(s: seq<Integration>, list: seq<Integration>, base: DigestText,
                                           final: DigestText, r: Integration)
    requires Arranges(s, list, base, final) && r in list
    ensures r.ordinal < |list| == |s| && s[r.ordinal] == r
  {
    assert |s| == |multiset(s)| == |list|;
    assert r in multiset(list);
    assert r in s;
  }

  lemma {:induction false} ArrangedOrdinals(s: seq<Integration>, list: seq<Integration>, base: DigestText,
                                            final: DigestText, i: nat, j: nat)
    requires Arranges(s, list, base, final) && i < j < |list|
    ensures list[i].ordinal != list[j].ordinal && list[i].ordinal < |list| && list[j].ordinal < |list|
  {
    StandsAtOrdinal(s, list, base, final, list[i]);
    StandsAtOrdinal(s, list, base, final, list[j]);
    if list[i].ordinal == list[j].ordinal {
      PlacesCount(list, i, j);
      NoRepeatsCountsOnce(s, list[i]);
    }
  }

  lemma {:induction false} ArrangedNeighbours(s: seq<Integration>, list: seq<Integration>, base: DigestText,
                                              final: DigestText,
                                              r: Integration, q: Integration)
    requires Arranges(s, list, base, final) && r in list && q in list
    ensures r.ordinal == 0 ==> r.inputSnapshot == base
    ensures r.ordinal == |list| - 1 ==> r.resultSnapshot == final
    ensures q.ordinal == r.ordinal + 1 ==> q.inputSnapshot == r.resultSnapshot
    ensures r != q ==> r.receiptId != q.receiptId && r.taskId != q.taskId
  {
    StandsAtOrdinal(s, list, base, final, r);
    StandsAtOrdinal(s, list, base, final, q);
    assert StartsWhereEnded(base, s, r.ordinal) && StartsWhereEnded(base, s, q.ordinal);
  }

  /** Acceptance, read off the list as given: the ordinals are 0 .. n-1, each once. */
  lemma {:induction false} OrdinalsExact(sprint: Sprint, tasks: seq<GraphTask>, e: Evidence, i: nat, j: nat)
    requires IntegrationsComplete(sprint, tasks, e) && i < j < |e.integrations|
    ensures e.integrations[i].ordinal != e.integrations[j].ordinal
    ensures e.integrations[i].ordinal < |e.integrations| && e.integrations[j].ordinal < |e.integrations|
  {
    ArrangedOrdinals(SortByOrdinal(e.integrations), e.integrations, sprint.baseSnapshot, e.finalSnapshot, i, j);
  }

  /**
   * Snapshots link base to final without a gap, and no receipt or task is used twice, wherever in the list they
   * stand.
   */
  lemma {:induction false} SnapshotsUnbroken(sprint: Sprint, tasks: seq<GraphTask>, e: Evidence, r: Integration,
                                             q: Integration)
    requires IntegrationsComplete(sprint, tasks, e) && r in e.integrations && q in e.integrations
    ensures r.ordinal == 0 ==> r.inputSnapshot == sprint.baseSnapshot
    ensures r.ordinal == |e.integrations| - 1 ==> r.resultSnapshot == e.finalSnapshot
    ensures q.ordinal == r.ordinal + 1 ==> q.inputSnapshot == r.resultSnapshot
    ensures r != q ==> r.receiptId != q.receiptId && r.taskId != q.taskId
  {
    ArrangedNeighbours(SortByOrdinal(e.integrations), e.integrations, sprint.baseSnapshot, e.finalSnapshot, r, q);
  }

  // ---------- the same, receipt by receipt ----------

  lemma {:induction false} ReceiptExactly(sprint: Sprint, tasks: seq<GraphTask>, e: Evidence, r: Integration)
    ensures ReceiptFits(sprint, tasks, e, r) <==> SoundReceipt(sprint, tasks, e, r)
  {
    var backing, listed := BackingIds(sprint, e, r), Elements(r.verificationIds);
    forall f ensures Backs(sprint, f, r) <==> Verifies(sprint, f, r) {
    }
    forall id | id in r.verificationIds
      ensures id in backing <==> exists f :: f in e.effects && f.verification.receiptId == id && Verifies(sprint, f, r)
    {
    }
    assert backing <= listed;
    assert backing == listed <==> forall id :: id in r.verificationIds ==> id in backing;
  }

  /** Distinct ordinals below the length put the sorted list in the order 0, 1, 2... */
  lemma {:induction false} SortedPlaces(list: seq<Integration>, s: seq<Integration>)
    requires multiset(s) == multiset(list) && Ascending(s)
    requires forall r :: r in list ==> r.ordinal < |list|
    requires forall i, j :: 0 <= i < j < |list| ==> list[i].ordinal != list[j].ordinal
    ensures |s| == |list| && (forall k :: 0 <= k < |s| ==> s[k].ordinal == k && s[k] in list)
  {
    assert |s| == |multiset(s)| == |list|;
    forall k | 0 <= k < |s| ensures s[k] in list {
      assert s[k] in multiset(s);
    }
    forall i, j | 0 <= i < j < |s| ensures s[i].ordinal < s[j].ordinal {
      if s[i].ordinal == s[j].ordinal {
        SamePlace(list, s[i], s[j]);
        PlacesCount(s, i, j);
        NoRepeatsCountsOnce(list, s[i]);
      }
    }
    forall k | 0 <= k < |s| ensures s[k].ordinal == k {
      IncreasingArePositions(s, k);
    }
  }

  lemma {:induction false} SamePlace(list: seq<Integration>, r: Integration, q: Integration)
    requires forall i, j :: 0 <= i < j < |list| ==> list[i].ordinal != list[j].ordinal
    requires r in list && q in list && r.ordinal == q.ordinal
    ensures r == q && NoRepeats(list)
  {
    var i :| 0 <= i < |list| && list[i] == r;
    var j :| 0 <= j < |list| && list[j] == q;
  }

  lemma {:induction false} ChainedArranges(sprint: Sprint, e: Evidence, s: seq<Integration>)
    requires Chained(sprint, e) && multiset(s) == multiset(e.integrations) && Ascending(s)
    ensures Arranges(s, e.integrations, sprint.baseSnapshot, e.finalSnapshot)
  {
    SortedPlaces(e.integrations, s);
    forall k | 0 <= k < |s| ensures StartsWhereEnded(sprint.baseSnapshot, s, k) {
      if k > 0 {
        assert s[k] in e.integrations && s[k - 1] in e.integrations && s[k].ordinal == s[k - 1].ordinal + 1;
      }
    }
    forall i, j | 0 <= i < j < |s| ensures s[i].receiptId != s[j].receiptId && s[i].taskId != s[j].taskId {
      var p :| 0 <= p < |s| && e.integrations[p] == s[i];
      var q :| 0 <= q < |s| && e.integrations[q] == s[j];
    }
  }

  lemma {:induction false} ArrangedIsChained(sprint: Sprint, e: Evidence, s: seq<Integration>)
    requires Arranges(s, e.integrations, sprint.baseSnapshot, e.finalSnapshot)
    ensures Chained(sprint, e)
  {
    var list := e.integrations;
    assert |s| == |multiset(s)| == |list|;
    forall i, j | 0 <= i < j < |list|
      ensures list[i].ordinal != list[j].ordinal && list[i].ordinal < |list|
      ensures list[i].receiptId != list[j].receiptId && list[i].taskId != list[j].taskId
    {
      ArrangedOrdinals(s, list, sprint.baseSnapshot, e.finalSnapshot, i, j);
      ArrangedNeighbours(s, list, sprint.baseSnapshot, e.finalSnapshot, list[i], list[j]);
    }
    forall r, q | r in list && q in list
      ensures r.ordinal < |list|
      ensures r.ordinal == 0 ==> r.inputSnapshot == sprint.baseSnapshot
      ensures r.ordinal == |list| - 1 ==> r.resultSnapshot == e.finalSnapshot
      ensures q.ordinal == r.ordinal + 1 ==> q.inputSnapshot == r.resultSnapshot
    {
      StandsAtOrdinal(s, list, sprint.baseSnapshot, e.finalSnapshot, r);
      ArrangedNeighbours(s, list, sprint.baseSnapshot, e.finalSnapshot, r, q);
    }
  }

  lemma {:induction false} SameMembers(a: seq<Integration>, b: seq<Integration>)
    requires multiset(a) == multiset(b)
    ensures forall r :: r in a <==> r in b
  {
    forall r ensures r in a <==> r in b {
      assert r in multiset(a) <==> r in a;
      assert r in multiset(b) <==> r in b;
    }
  }

  /** An accepted chain arranges the list, fits receipt by receipt, and covers the required tasks. */
  lemma {:induction false} ChainSplits(sprint: Sprint, tasks: seq<GraphTask>, e: Evidence, s: seq<Integration>)
    requires multiset(s) == multiset(e.integrations)
    ensures ChainAccepted(sprint, tasks, e, s) <==>
      && Arranges(s, e.integrations, sprint.baseSnapshot, e.finalSnapshot)
      && (forall k :: 0 <= k < |s| ==> ReceiptFits(sprint, tasks, e, s[k]))
      && (forall id :: id in RequiredIds(tasks) ==> exists i :: 0 <= i < |s| && s[i].taskId == id)
  {
  }

  lemma {:induction false} ArrangesExactly(sprint: Sprint, e: Evidence, s: seq<Integration>)
    requires multiset(s) == multiset(e.integrations) && Ascending(s)
    ensures Arranges(s, e.integrations, sprint.baseSnapshot, e.finalSnapshot) <==> Chained(sprint, e)
  {
    if Chained(sprint, e) {
      ChainedArranges(sprint, e, s);
    } else if Arranges(s, e.integrations, sprint.baseSnapshot, e.finalSnapshot) {
      ArrangedIsChained(sprint, e, s);
    }
  }

  /** A chain is accepted exactly when the receipts, as listed, chain base to final and each is sound. */
  lemma {:induction false} IntegratedExactly(sprint: Sprint, tasks: seq<GraphTask>, e: Evidence)
    ensures IntegrationsComplete(sprint, tasks, e) <==> Integrated(sprint, tasks, e)
  {
    var s := SortByOrdinal(e.integrations);
    SameMembers(s, e.integrations);
    ChainSplits(sprint, tasks, e, s);
    ArrangesExactly(sprint, e, s);
    SoundExactly(sprint, tasks, e, s);
    CoveredExactly(tasks, e, s);
  }

  lemma {:induction false} SoundExactly(sprint: Sprint, tasks: seq<GraphTask>, e: Evidence, s: seq<Integration>)
    requires forall r :: r in s <==> r in e.integrations
    ensures (forall k :: 0 <= k < |s| ==> ReceiptFits(sprint, tasks, e, s[k])) <==>
      forall r :: r in e.integrations ==> SoundReceipt(sprint, tasks, e, r)
  {
    forall r ensures ReceiptFits(sprint, tasks, e, r) <==> SoundReceipt(sprint, tasks, e, r) {
      ReceiptExactly(sprint, tasks, e, r);
    }
    if forall k :: 0 <= k < |s| ==> ReceiptFits(sprint, tasks, e, s[k]) {
      forall r | r in e.integrations ensures SoundReceipt(sprint, tasks, e, r) {
        var k :| 0 <= k < |s| && s[k] == r;
      }
    }
  }

  lemma {:induction false} CoveredExactly(tasks: seq<GraphTask>, e: Evidence, s: seq<Integration>)
    requires forall r :: r in s <==> r in e.integrations
    ensures (forall id :: id in RequiredIds(tasks) ==> exists i :: 0 <= i < |s| && s[i].taskId == id) <==>
      forall t :: t in tasks && t.required ==> exists r :: r in e.integrations && r.taskId == t.taskId
  {
    forall t | t in tasks && t.required
      ensures t.taskId in RequiredIds(tasks)
      ensures (exists i :: 0 <= i < |s| && s[i].taskId == t.taskId) <==>
        exists r :: r in e.integrations && r.taskId == t.taskId
    {
      TaskListed(e.integrations, s, t.taskId);
    }
  }

  lemma {:induction false} TaskListed(list: seq<Integration>, s: seq<Integration>, id: Identifier)
    requires forall r :: r in s <==> r in list
    ensures (exists i :: 0 <= i < |s| && s[i].taskId == id) <==> exists r :: r in list && r.taskId == id
  {
    if i :| 0 <= i < |s| && s[i].taskId == id { assert s[i] in list; }
    if r :| r in list && r.taskId == id {
      var i :| 0 <= i < |s| && s[i] == r;
    }
  }

  /** Every required task has its receipt. */
  lemma {:induction false} RequiredCovered(sprint: Sprint, tasks: seq<GraphTask>, e: Evidence, t: GraphTask)
    requires IntegrationsComplete(sprint, tasks, e) && t in tasks && t.required
    ensures exists r :: r in e.integrations && r.taskId == t.taskId
  {
    var s := SortByOrdinal(e.integrations);
    assert t.taskId in RequiredIds(tasks);
    var i :| 0 <= i < |s| && s[i].taskId == t.taskId;
    assert s[i] in multiset(s);
  }
}
