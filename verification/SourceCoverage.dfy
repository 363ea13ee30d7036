/**
 * The coverage checks on a source list: admitted identities, and members that no two sources share
 * (application_composition.rs).
 */
module SourceCoverage {
  import opened Outcomes
  import opened Bytes
  import opened Finite
  import opened Manifest
  import opened Sources

  /** The snapshots to link, and the identities of the sources to link them with. */
  datatype CompositionInputs = CompositionInputs(baseSnapshot: Digest, resultSnapshot: Digest,
                                                 sourceIdentities: seq<Digest>)

  predicate IdentitySetValid(identities: seq<Digest>) {
    1 <= |identities| <= MAX_SOURCES && NoRepeats(identities)
  }

  /** `validate_source_identity_set`. */
  method ValidateSourceIdentitySet(identities: seq<Digest>) returns (r: Result<(), CompositionConflict>)
    ensures r.Ok? <==> IdentitySetValid(identities)
    ensures r.Err? ==> IsInputConflict(r.error)
  {
    if identities == [] || |identities| > MAX_SOURCES {
      return Err(LimitExceeded(SourceCount));
    }
    var unique: set<Digest> := {};
    for k := 0 to |identities|
      invariant NoRepeats(identities[..k])
      invariant forall x :: x in unique <==> x in identities[..k]
    {
      if identities[k] in unique {
        return Err(DuplicateSourceMember);
      }
      unique := unique + {identities[k]};
      assert identities[..k + 1] == identities[..k] + [identities[k]];
    }
    assert identities[..|identities|] == identities;
    return Ok(());
  }

  predicate ShareNothing(a: Members, b: Members) {
    && a.taskId != b.taskId && a.attemptId != b.attemptId
    && a.taskDoneProofId != b.taskDoneProofId && a.integrationReceiptId != b.integrationReceiptId
  }

  /** Source `k` is the admitted one, and shares no member with a source before it. */
  predicate CoverageHolds(identities: seq<Digest>, sources: seq<Source>, k: nat)
    requires k < |sources| == |identities|
  {
    && sources[k].identity == identities[k]
    && forall j :: 0 <= j < k ==> ShareNothing(sources[j].members, sources[k].members)
  }

  /** The members of the sources so far. */
  datatype Seen = Seen(
    taskIds: set<ByteString>, attemptIds: set<ByteString>, taskDoneProofIds: set<ByteString>,
    integrationReceiptIds: set<ByteString>)

  ghost predicate SeenExactly(seen: Seen, sources: seq<Source>, k: nat)
    requires k <= |sources|
  {
    && (forall id :: id in seen.taskIds <==> exists j :: 0 <= j < k && sources[j].members.taskId == id)
    && (forall id :: id in seen.attemptIds <==> exists j :: 0 <= j < k && sources[j].members.attemptId == id)
    && (forall id :: id in seen.taskDoneProofIds <==>
      exists j :: 0 <= j < k && sources[j].members.taskDoneProofId == id)
    && (forall id :: id in seen.integrationReceiptIds <==>
          exists j :: 0 <= j < k && sources[j].members.integrationReceiptId == id)
  }

  predicate Unseen(seen: Seen, m: Members) {
    && m.taskId !in seen.taskIds && m.attemptId !in seen.attemptIds
    && m.taskDoneProofId !in seen.taskDoneProofIds && m.integrationReceiptId !in seen.integrationReceiptIds
  }

  /** `require_unique_source_member`, for each of the four kinds. */
  method RequireUniqueMembers(seen: Seen, m: Members) returns (r: Result<Seen, CompositionConflict>)
    ensures r.Ok? <==> Unseen(seen, m)
    ensures r.Ok? ==> r.value == Seen(seen.taskIds + {m.taskId}, seen.attemptIds + {m.attemptId},
                                      seen.taskDoneProofIds + {m.taskDoneProofId},
                                      seen.integrationReceiptIds + {m.integrationReceiptId})
    ensures r.Err? ==> r.error == DuplicateSourceMember
  {
    var next := seen;
    if m.taskId in next.taskIds {
      return Err(DuplicateSourceMember);
    }
    next := next.(taskIds := next.taskIds + {m.taskId});
    if m.attemptId in next.attemptIds {
      return Err(DuplicateSourceMember);
    }
    next := next.(attemptIds := next.attemptIds + {m.attemptId});
    if m.taskDoneProofId in next.taskDoneProofIds {
      return Err(DuplicateSourceMember);
    }
    next := next.(taskDoneProofIds := next.taskDoneProofIds + {m.taskDoneProofId});
    if m.integrationReceiptId in next.integrationReceiptIds {
      return Err(DuplicateSourceMember);
    }
    return Ok(next.(integrationReceiptIds := next.integrationReceiptIds + {m.integrationReceiptId}));
  }

  /** The coverage half of the source loop's body. */
  method CheckCoverage(identities: seq<Digest>, sources: seq<Source>, k: nat, seen: Seen)
    returns (r: Result<Seen, CompositionConflict>)
    requires k < |sources| == |identities| && SeenExactly(seen, sources, k)
    ensures r.Ok? <==> CoverageHolds(identities, sources, k)
    ensures r.Ok? ==> SeenExactly(r.value, sources, k + 1)
    ensures r.Err? ==> IsInputConflict(r.error)
  {
    if sources[k].identity != identities[k] {
      return Err(SourceCoverageIdentityMismatch);
    }
    r := RequireUniqueMembers(seen, sources[k].members);
  }

  /** A covered list is the admitted list in its order, and its sources share no task, attempt, proof or receipt. */
  lemma {:induction false} CoverageExactly(identities: seq<Digest>, sources: seq<Source>)
    requires |sources| == |identities|
    ensures (forall k :: 0 <= k < |sources| ==> CoverageHolds(identities, sources, k)) <==>
      (forall k :: 0 <= k < |sources| ==> sources[k].identity == identities[k])
      && (forall j, k :: 0 <= j < |sources| && 0 <= k < |sources| && j != k ==>
        ShareNothing(sources[j].members, sources[k].members))
  {
    if forall k :: 0 <= k < |sources| ==> CoverageHolds(identities, sources, k) {
      forall k | 0 <= k < |sources| ensures sources[k].identity == identities[k] {
        assert CoverageHolds(identities, sources, k);
      }
      forall j, k | 0 <= j < |sources| && 0 <= k < |sources| && j != k
        ensures ShareNothing(sources[j].members, sources[k].members)
      {
        assert CoverageHolds(identities, sources, if j < k then k else j);
      }
    }
  }
}
