/** Admission and order-independent selection of finish candidates (optimal_finish.rs). */
module CandidateSelection {
  import opened Bytes
  import opened Finite
  import opened Outcomes

  type DigestText = ByteString

  datatype Gate = AcceptanceAndSecurity | OutsideBehaviorPreserved | ClarityPreserved | ImmediateRollback

  datatype Admissibility = Admissibility(
    acceptanceAndSecurity: bool, outsideBehavior: bool, unresolvedRisks: nat, clarity: bool, immediateRollback: bool,
    evidenceDigest: DigestText)

  datatype Cost = Cost(
    newPublicInterfaceItems: nat, newDirectDependencies: nat, productionPathsChanged: nat, productionLinesChanged: nat,
    runtimeCostUnits: nat, maintenanceCostUnits: nat)

  datatype Candidate = Candidate(
    digest: DigestText, cohort: DigestText, measurementPolicy: DigestText, snapshot: DigestText,
    admissibilityEvidence: DigestText, cost: Cost)

  datatype SelectionError =
    | Inadmissible(gate: Gate)
    | UnresolvedRisk(count: nat)
    | CohortMismatch
    | MeasurementPolicyMismatch
    | IdentityCollision
    | EmptyCandidateSet
    | DuplicateCandidate

  datatype Ordering = Less | Equal | Greater

  /** The error names a gate that really failed, or the true number of open risks. */
  predicate Refuses(a: Admissibility, error: SelectionError) {
    match error
    case Inadmissible(AcceptanceAndSecurity) => !a.acceptanceAndSecurity
    case Inadmissible(OutsideBehaviorPreserved) => !a.outsideBehavior
    case Inadmissible(ClarityPreserved) => !a.clarity
    case Inadmissible(ImmediateRollback) => !a.immediateRollback
    case UnresolvedRisk(count) => count == a.unresolvedRisks != 0
    case _ => false
  }

  /** `admit`: the first failed gate, in order, or the candidate with its evidence. */
  function Admit(digest: DigestText, cohort: DigestText, measurementPolicy: DigestText, snapshot: DigestText,
                 a: Admissibility, cost: Cost): (r: Result<Candidate, SelectionError>)
    ensures r.Ok? <==>
      a.acceptanceAndSecurity && a.outsideBehavior && a.unresolvedRisks == 0 && a.clarity && a.immediateRollback
    ensures r.Ok? ==>
      r.value.digest == digest && r.value.cohort == cohort && r.value.measurementPolicy == measurementPolicy
    ensures r.Ok? ==>
      r.value.snapshot == snapshot && r.value.admissibilityEvidence == a.evidenceDigest && r.value.cost == cost
    ensures r.Err? ==> Refuses(a, r.error)
  {
    if !a.acceptanceAndSecurity then Err(Inadmissible(AcceptanceAndSecurity))
    else if !a.outsideBehavior then Err(Inadmissible(OutsideBehaviorPreserved))
    else if a.unresolvedRisks != 0 then Err(UnresolvedRisk(a.unresolvedRisks))
    else if !a.clarity then Err(Inadmissible(ClarityPreserved))
    else if !a.immediateRollback then Err(Inadmissible(ImmediateRollback))
    else Ok(Candidate(digest, cohort, measurementPolicy, snapshot, a.evidenceDigest, cost))
  }

  // ---------- the order ----------

  function Fields(c: Cost): (fields: seq<nat>)
    ensures |fields| == 6
  {
    [c.newPublicInterfaceItems, c.newDirectDependencies, c.productionPathsChanged, c.productionLinesChanged,
     c.runtimeCostUnits, c.maintenanceCostUnits]
  }

  /** The first differing field decides. */
  predicate FieldsLess(a: seq<nat>, b: seq<nat>)
    requires |a| == |b|
  {
    a != [] && (a[0] < b[0] || (a[0] == b[0] && FieldsLess(a[1..], b[1..])))
  }

  predicate CostLess(a: Cost, b: Cost) {
    FieldsLess(Fields(a), Fields(b))
  }

  /** Cheaper, or as cheap with a smaller digest. */
  predicate Preferred(a: Candidate, b: Candidate) {
    CostLess(a.cost, b.cost) || (a.cost == b.cost && Lt(a.digest, b.digest))
  }

  function CompareCosts(a: Cost, b: Cost): Ordering {
    if CostLess(a, b) then Less else if a == b then Equal else Greater
  }

  function CompareDigests(a: DigestText, b: DigestText): Ordering {
    if Lt(a, b) then Less else if a == b then Equal else Greater
  }

  /** `compare_optimal_finish_candidates`. */
  function Compare(left: Candidate, right: Candidate): Result<Ordering, SelectionError> {
    if left.cohort != right.cohort then Err(CohortMismatch)
    else if left.measurementPolicy != right.measurementPolicy then Err(MeasurementPolicyMismatch)
    else if left.digest == right.digest then if left == right then Ok(Equal) else Err(IdentityCollision)
    else if CompareCosts(left.cost, right.cost) != Equal then Ok(CompareCosts(left.cost, right.cost))
    else Ok(CompareDigests(left.digest, right.digest))
  }

  lemma {:induction false} FieldsOrder(a: seq<nat>, b: seq<nat>, c: seq<nat>)
    requires |a| == |b| == |c|
    ensures !FieldsLess(a, a)
    ensures FieldsLess(a, b) && FieldsLess(b, c) ==> FieldsLess(a, c)
    ensures FieldsLess(a, b) || a == b || FieldsLess(b, a)
  {
    if a != [] {
      FieldsOrder(a[1..], b[1..], c[1..]);
      assert a == [a[0]] + a[1..] && b == [b[0]] + b[1..];
    }
  }

  /** Preference is a strict order that decides between any two candidates with different digests. */
  lemma {:induction false} PreferenceOrder(a: Candidate, b: Candidate, c: Candidate)
    ensures !Preferred(a, a)
    ensures Preferred(a, b) && Preferred(b, c) ==> Preferred(a, c)
    ensures a.digest != b.digest ==> Preferred(a, b) || Preferred(b, a)
    ensures Preferred(a, b) ==> !Preferred(b, a)
  {
    FieldsOrder(Fields(a.cost), Fields(b.cost), Fields(c.cost));
    FieldsOrder(Fields(a.cost), Fields(b.cost), Fields(a.cost));
    LtIrreflexive(a.digest);
    LtTotal(a.digest, b.digest);
    if Lt(a.digest, b.digest) { LtAsymmetric(a.digest, b.digest); }
    if Lt(a.digest, b.digest) && Lt(b.digest, c.digest) { LtTransitive(a.digest, b.digest, c.digest); }
  }

  /** Comparing candidates that share cohort and policy answers `Less` exactly for the preferred one. */
  lemma {:induction false} CompareDecides(a: Candidate, b: Candidate)
    requires a.cohort == b.cohort && a.measurementPolicy == b.measurementPolicy && a.digest != b.digest
    ensures Compare(a, b).Ok? && (Compare(a, b).value == Less <==> Preferred(a, b))
    ensures Compare(a, b).value == Greater <==> Preferred(b, a)
  {
    PreferenceOrder(a, b, a);
    FieldsOrder(Fields(a.cost), Fields(b.cost), Fields(a.cost));
    LtTotal(a.digest, b.digest);
  }

  // ---------- the order, cost by cost ----------

  /**
   * `a` goes before `b`: fewer public interface items; with as many, fewer direct dependencies; then fewer production
   * paths, fewer production lines, less runtime cost, less maintenance cost; at equal cost, the smaller digest.
   */
  ghost predicate GoesBefore(a: Candidate, b: Candidate) {
    var x, y := a.cost, b.cost;
    && x.newPublicInterfaceItems <= y.newPublicInterfaceItems
    && (x.newPublicInterfaceItems == y.newPublicInterfaceItems ==>
      && x.newDirectDependencies <= y.newDirectDependencies
      && (x.newDirectDependencies == y.newDirectDependencies ==>
        && x.productionPathsChanged <= y.productionPathsChanged
        && (x.productionPathsChanged == y.productionPathsChanged ==>
          && x.productionLinesChanged <= y.productionLinesChanged
          && (x.productionLinesChanged == y.productionLinesChanged ==>
            && x.runtimeCostUnits <= y.runtimeCostUnits
            && (x.runtimeCostUnits == y.runtimeCostUnits ==>
              && x.maintenanceCostUnits <= y.maintenanceCostUnits
              && (x.maintenanceCostUnits == y.maintenanceCostUnits ==> ComesBefore(a.digest, b.digest)))))))
  }

  lemma {:induction false} FieldsLessNext(a: seq<nat>, b: seq<nat>)
    requires |a| == |b| > 0
    ensures FieldsLess(a, b) <==> a[0] <= b[0] && (a[0] == b[0] ==> FieldsLess(a[1..], b[1..]))
  {
  }

  lemma {:induction false} PreferredExactly(a: Candidate, b: Candidate)
    ensures Preferred(a, b) <==> GoesBefore(a, b)
  {
    var x, y := Fields(a.cost), Fields(b.cost);
    FieldsLessNext(x, y);
    FieldsLessNext(x[1..], y[1..]);
    FieldsLessNext(x[1..][1..], y[1..][1..]);
    FieldsLessNext(x[1..][1..][1..], y[1..][1..][1..]);
    FieldsLessNext(x[1..][1..][1..][1..], y[1..][1..][1..][1..]);
    FieldsLessNext(x[1..][1..][1..][1..][1..], y[1..][1..][1..][1..][1..]);
    LtExactly(a.digest, b.digest);
  }

  // ---------- selection ----------

  /** One cohort, one measurement policy, every identity once. */
  predicate Comparable(candidates: seq<Candidate>) {
    && (forall i, j :: 0 <= i < j < |candidates| ==> candidates[i].digest != candidates[j].digest)
    && (forall i :: 0 <= i < |candidates| ==>
          candidates[i].cohort == candidates[0].cohort
            && candidates[i].measurementPolicy == candidates[0].measurementPolicy)
  }

  predicate Selectable(candidates: seq<Candidate>) {
    candidates != [] && Comparable(candidates)
  }

  /** A member preferred to every other. */
  predicate Best(candidates: seq<Candidate>, best: Candidate) {
    best in candidates && forall c :: c in candidates && c != best ==> Preferred(best, c)
  }

  ghost predicate IdentitiesExact(candidates: seq<Candidate>, n: nat, identities: map<DigestText, Candidate>)
    requires n <= |candidates|
  {
    && (forall i :: 0 <= i < n ==> candidates[i].digest in identities)
    && (forall d :: d in identities ==> identities[d] in candidates[..n] && identities[d].digest == d)
  }

  /** What is wrong with the list when selection fails. */
  ghost predicate Faulty(candidates: seq<Candidate>, e: SelectionError) {
    match e
    case EmptyCandidateSet => candidates == []
    case DuplicateCandidate => exists i, j :: 0 <= i < j < |candidates| && candidates[i] == candidates[j]
    case IdentityCollision =>
      exists i, j ::
        0 <= i < j < |candidates| && candidates[i].digest == candidates[j].digest && candidates[i] != candidates[j]
    case CohortMismatch => exists i, j :: 0 <= i < j < |candidates| && candidates[i].cohort != candidates[j].cohort
    case MeasurementPolicyMismatch =>
      exists i, j :: 0 <= i < j < |candidates| && candidates[i].measurementPolicy != candidates[j].measurementPolicy
    case _ => false
  }

  /** After `n` candidates: all comparable, the best of them selected, every identity recorded. */
  ghost predicate Selecting(candidates: seq<Candidate>, n: nat, selected: Candidate,
                            identities: map<DigestText, Candidate>)
    requires n <= |candidates|
  {
    Comparable(candidates[..n]) && Best(candidates[..n], selected) && IdentitiesExact(candidates, n, identities)
  }

  lemma {:induction false} ComparableExtends(candidates: seq<Candidate>, selected: Candidate, c: Candidate)
    requires Comparable(candidates) && selected in candidates && forall d :: d in candidates ==> d.digest != c.digest
    requires c.cohort == selected.cohort && c.measurementPolicy == selected.measurementPolicy
    ensures Comparable(candidates + [c])
  {
  }

  /** One more candidate that shares no identity with those before it. */
  method Consider(candidates: seq<Candidate>, n: nat, selected: Candidate, identities: map<DigestText, Candidate>)
    returns (r: Result<Candidate, SelectionError>)
    requires 0 < n < |candidates| && Selecting(candidates, n, selected, identities)
    requires candidates[n].digest !in identities
    ensures r.Ok? <==> Comparable(candidates[..n + 1])
    ensures r.Ok? ==> Best(candidates[..n + 1], r.value)
    ensures r.Err? ==> Faulty(candidates, r.error)
  {
    var candidate := candidates[n];
    var i :| 0 <= i < n && candidates[..n][i] == selected;
    assert candidates[i] == selected && selected.digest in identities;
    var compared := Compare(candidate, selected);
    if compared.Err? {
      return Err(compared.error);
    }
    CompareDecides(candidate, selected);
    BestExtends(candidates[..n], selected, candidate);
    assert candidates[..n + 1] == candidates[..n] + [candidate];
    ComparableExtends(candidates[..n], selected, candidate);
    return Ok(if compared.value == Less then candidate else selected);
  }

  lemma {:induction false} IdentitiesNext(candidates: seq<Candidate>, n: nat, identities: map<DigestText, Candidate>)
    requires n < |candidates| && IdentitiesExact(candidates, n, identities)
    ensures IdentitiesExact(candidates, n + 1, identities[candidates[n].digest := candidates[n]])
  {
    assert candidates[..n + 1] == candidates[..n] + [candidates[n]];
  }

  /** `select_optimal_finish_candidate`. */
  method Select(candidates: seq<Candidate>) returns (r: Result<Candidate, SelectionError>)
    ensures r.Ok? <==> Selectable(candidates)
    ensures r.Ok? <==> candidates != [] && forall i, j :: 0 <= i < j < |candidates| ==>
      && candidates[i].digest != candidates[j].digest && candidates[i].cohort == candidates[j].cohort
      && candidates[i].measurementPolicy == candidates[j].measurementPolicy
    ensures r.Ok? ==> Best(candidates, r.value)
    ensures r.Ok? ==> r.value in candidates && forall c :: c in candidates && c != r.value ==> GoesBefore(r.value, c)
    ensures r.Err? ==> Faulty(candidates, r.error)
  {
    if candidates == [] {
      return Err(EmptyCandidateSet);
    }
    var selected := candidates[0];
    var identities := map[selected.digest := selected];
    for n := 1 to |candidates|
      invariant Selecting(candidates, n, selected, identities)
    {
      if candidates[n].digest in identities {
        return Err(if identities[candidates[n].digest] == candidates[n] then DuplicateCandidate else IdentityCollision);
      }
      r := Consider(candidates, n, selected, identities);
      if r.Err? {
        return;
      }
      IdentitiesNext(candidates, n, identities);
      selected := r.value;
      identities := identities[candidates[n].digest := candidates[n]];
    }
    assert candidates[..|candidates|] == candidates;
    forall c | c in candidates && c != selected ensures GoesBefore(selected, c) {
      PreferredExactly(selected, c);
    }
    return Ok(selected);
  }

  /** The better of the best so far and a newcomer is best. */
  lemma {:induction false} BestExtends(candidates: seq<Candidate>, best: Candidate, c: Candidate)
    requires Best(candidates, best) && best.digest != c.digest
    ensures Best(candidates + [c], if Preferred(c, best) then c else best)
  {
    PreferenceOrder(c, best, c);
    forall d | d in candidates ensures Preferred(c, best) && d != best ==> Preferred(c, d) {
      PreferenceOrder(c, best, d);
    }
  }

  /** Any two orders of the same candidates are selectable alike and have the same best one. */
  lemma {:induction false} SelectionIgnoresOrder(a: seq<Candidate>, b: seq<Candidate>, x: Candidate, y: Candidate)
    requires multiset(a) == multiset(b)
    ensures Selectable(a) <==> Selectable(b)
    ensures Best(a, x) && Best(b, y) ==> x == y
  {
    if Selectable(a) { SelectableReordered(a, b); }
    if Selectable(b) { SelectableReordered(b, a); }
    if Best(a, x) && Best(b, y) && x != y {
      assert x in multiset(b) && y in multiset(a);
      PreferenceOrder(x, y, x);
    }
  }

  lemma {:induction false} SelectableReordered(a: seq<Candidate>, b: seq<Candidate>)
    requires multiset(a) == multiset(b) && Selectable(a)
    ensures Selectable(b)
  {
    assert a[0] in multiset(b);
    forall i | 0 <= i < |b| ensures b[i] in a {
      assert b[i] in multiset(a);
    }
    forall i, j | 0 <= i < j < |b| ensures b[i].digest != b[j].digest {
      if b[i] == b[j] {
        PlacesCount(b, i, j);
        NoRepeatsCountsOnce(a, b[i]);
      }
      var k :| 0 <= k < |a| && a[k] == b[i];
      var l :| 0 <= l < |a| && a[l] == b[j];
    }
  }
}
