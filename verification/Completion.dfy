/** The finish predicate (completion.rs). */
module Completion {
  import opened Finite
  import opened Outcomes
  import opened Identifiers
  import opened CompletionEvidence
  import opened CompletionMeaning
  import opened Integrations

  // ---------- first matches ----------

  function FirstLaunch(s: seq<Launch>, id: Identifier): (r: Option<Launch>)
    ensures r.Some? ==> r.value in s && r.value.launchId == id
    ensures r.None? ==> forall x :: x in s ==> x.launchId != id
  {
    if s == [] then None else if s[0].launchId == id then Some(s[0]) else FirstLaunch(s[1..], id)
  }

  function FirstSession(s: seq<Session>, id: Identifier): (r: Option<Session>)
    ensures r.Some? ==> r.value in s && r.value.sessionId == id
    ensures r.None? ==> forall x :: x in s ==> x.sessionId != id
  {
    if s == [] then None else if s[0].sessionId == id then Some(s[0]) else FirstSession(s[1..], id)
  }

  function FirstCleanup(s: seq<Cleanup>, sessionId: Identifier): (r: Option<Cleanup>)
    ensures r.Some? ==> r.value in s && r.value.sessionId == sessionId
    ensures r.None? ==> forall x :: x in s ==> x.sessionId != sessionId
  {
    if s == [] then None else if s[0].sessionId == sessionId then Some(s[0]) else FirstCleanup(s[1..], sessionId)
  }

  // ---------- launches and sessions ----------

  predicate LaunchFits(sprint: Sprint, l: Launch) {
    l.valid && l.sprintId == sprint.sprintId && l.policy.grantHash == sprint.grantHash
      && l.policy.policyVersion == sprint.policyVersion
  }

  predicate LaunchesValid(sprint: Sprint, launches: seq<Launch>) {
    && (forall i :: 0 <= i < |launches| ==> LaunchFits(sprint, launches[i]))
    && (forall i, j :: 0 <= i < j < |launches| ==> launches[i].launchId != launches[j].launchId)
    && (forall i, j :: 0 <= i < j < |launches| ==> launches[i].sessionId != launches[j].sessionId)
  }

  /** The session repeats its launch in every field they share. */
  predicate Registers(l: Launch, s: Session) {
    && l.sessionId == s.sessionId && l.purpose == s.purpose && l.workerId == s.workerId && l.lease == s.lease
    && l.policy.policyHash == s.policy.policyHash && l.runner == s.runner && l.createdAt <= s.registeredAt
  }

  predicate SessionFits(sprint: Sprint, launches: seq<Launch>, s: Session) {
    && s.valid && s.sprintId == sprint.sprintId && s.policy.grantHash == sprint.grantHash
    && s.policy.policyVersion == sprint.policyVersion
    && (exists l :: l in launches && l.launchId == s.launchId && Registers(l, s))
  }

  predicate SessionsValid(sprint: Sprint, launches: seq<Launch>, sessions: seq<Session>) {
    && (forall i :: 0 <= i < |sessions| ==> SessionFits(sprint, launches, sessions[i]))
    && (forall i, j :: 0 <= i < j < |sessions| ==> sessions[i].sessionId != sessions[j].sessionId)
  }

  /** The session that carried out the final verification. */
  predicate FinalSession(e: Evidence, v: Verification, s: Session) {
    && e.finalSessionId == Some(s.sessionId) && s.purpose.FinalVerifier? && s.policy.policyHash == v.policyHash
    && s.registeredAt <= v.finishedAt
    && (exists f :: f in e.effects && f.verification == v && f.sessionId == s.sessionId && f.launchId == s.launchId)
  }

  predicate SessionPoliciesValid(sprint: Sprint, e: Evidence) {
    && LaunchesValid(sprint, e.launches)
    && SessionsValid(sprint, e.launches, e.sessions)
    && e.launches != []
    && e.finalVerification.Some?
    && (exists s :: s in e.sessions && FinalSession(e, e.finalVerification.value, s))
  }

  method CheckLaunches(sprint: Sprint, launches: seq<Launch>) returns (ok: bool)
    ensures ok <==> LaunchesValid(sprint, launches)
  {
    var launchIds: set<Identifier> := {};
    var sessionIds: set<Identifier> := {};
    for n := 0 to |launches|
      invariant LaunchesValid(sprint, launches[..n])
      invariant forall id :: id in launchIds <==> exists i :: 0 <= i < n && launches[i].launchId == id
      invariant forall id :: id in sessionIds <==> exists i :: 0 <= i < n && launches[i].sessionId == id
    {
      if !LaunchFits(sprint, launches[n]) || launches[n].launchId in launchIds || launches[n].sessionId in sessionIds {
        return false;
      }
      launchIds := launchIds + {launches[n].launchId};
      sessionIds := sessionIds + {launches[n].sessionId};
    }
    assert launches[..|launches|] == launches;
    return true;
  }

  method CheckSessions(sprint: Sprint, launches: seq<Launch>, sessions: seq<Session>) returns (ok: bool)
    requires LaunchesValid(sprint, launches)
    ensures ok <==> SessionsValid(sprint, launches, sessions)
  {
    var sessionIds: set<Identifier> := {};
    for n := 0 to |sessions|
      invariant SessionsValid(sprint, launches, sessions[..n])
      invariant forall id :: id in sessionIds <==> exists i :: 0 <= i < n && sessions[i].sessionId == id
    {
      var s := sessions[n];
      var found := FirstLaunch(launches, s.launchId);
      if !s.valid || s.sprintId != sprint.sprintId || s.policy.grantHash != sprint.grantHash
         || s.policy.policyVersion != sprint.policyVersion || s.sessionId in sessionIds
         || found.None? || !Registers(found.value, s) {
        return false;
      }
      sessionIds := sessionIds + {s.sessionId};
    }
    assert sessions[..|sessions|] == sessions;
    return true;
  }

  /** `session_policies_are_valid`. */
  method SessionPoliciesAreValid(sprint: Sprint, e: Evidence) returns (ok: bool)
    ensures ok <==> SessionPoliciesValid(sprint, e)
  {
    ok := CheckLaunches(sprint, e.launches);
    if ok {
      ok := CheckSessions(sprint, e.launches, e.sessions);
    }
    ok := ok && e.launches != [] && e.finalVerification.Some?
      && exists s :: s in e.sessions && FinalSession(e, e.finalVerification.value, s);
  }

  // ---------- cleanups ----------

  /** The launch that carried out the final verification, if one is selected. */
  predicate IsFinalLaunch(e: Evidence, launchId: Identifier) {
    && e.finalSessionId.Some?
    && var selected := FirstSession(e.sessions, e.finalSessionId.value);
      selected.Some? && selected.value.launchId == launchId
  }

  predicate FitsLaunch(e: Evidence, l: Launch, c: Cleanup) {
    && c.sessionId == l.sessionId && c.lease == l.lease && c.policy == l.policy && l.createdAt <= c.cleanedAt
    && (exists s :: s in e.sessions && s.launchId == l.launchId && s.sessionId == l.sessionId && s.lease == l.lease)
    && (IsFinalLaunch(e, l.launchId) ==>
      e.finalVerification.Some? && e.finalVerification.value.finishedAt <= c.cleanedAt)
  }

  predicate CleanupsValid(sprint: Sprint, cleanups: seq<Cleanup>) {
    && (forall i :: 0 <= i < |cleanups| ==> cleanups[i].valid && cleanups[i].sprintId == sprint.sprintId)
    && (forall i, j :: 0 <= i < j < |cleanups| ==> cleanups[i].launchId != cleanups[j].launchId)
  }

  predicate CleanupSetComplete(sprint: Sprint, e: Evidence) {
    && CleanupsValid(sprint, e.cleanups)
    && |e.cleanups| == |e.launches|
    && (forall l :: l in e.launches ==> exists c :: c in e.cleanups && c.launchId == l.launchId && FitsLaunch(e, l, c))
  }

  /** Each launch identity maps to its cleanup. */
  ghost predicate Indexed(cleanups: seq<Cleanup>, n: nat, byLaunch: map<Identifier, Cleanup>)
    requires n <= |cleanups|
  {
    && (forall i :: 0 <= i < n ==> cleanups[i].launchId in byLaunch && byLaunch[cleanups[i].launchId] == cleanups[i])
    && (forall id :: id in byLaunch ==> byLaunch[id].launchId == id && byLaunch[id] in cleanups[..n])
  }

  lemma {:induction false} IndexedStep(cleanups: seq<Cleanup>, n: nat, byLaunch: map<Identifier, Cleanup>)
    requires n < |cleanups| && Indexed(cleanups, n, byLaunch) && cleanups[n].launchId !in byLaunch
    ensures Indexed(cleanups, n + 1, byLaunch[cleanups[n].launchId := cleanups[n]])
  {
    assert cleanups[..n + 1] == cleanups[..n] + [cleanups[n]];
  }

  /** With no launch named twice, the map has one entry for each cleanup. */
  lemma {:induction false} IndexedSize(sprint: Sprint, cleanups: seq<Cleanup>, byLaunch: map<Identifier, Cleanup>)
    requires CleanupsValid(sprint, cleanups) && Indexed(cleanups, |cleanups|, byLaunch)
    ensures |byLaunch| == |cleanups|
  {
    var keys := Keys(cleanups, CleanupLaunch);
    forall id ensures id in byLaunch.Keys <==> id in keys {
      if id in byLaunch {
        var i :| 0 <= i < |cleanups| && cleanups[i] == byLaunch[id];
        assert keys[i] == id;
      }
    }
    assert byLaunch.Keys == Elements(keys);
    ElementsSize(keys);
  }

  method IndexCleanups(sprint: Sprint, cleanups: seq<Cleanup>) returns (ok: bool, byLaunch: map<Identifier, Cleanup>)
    ensures ok <==> CleanupsValid(sprint, cleanups)
    ensures ok ==> Indexed(cleanups, |cleanups|, byLaunch) && |byLaunch| == |cleanups|
  {
    byLaunch := map[];
    for n := 0 to |cleanups|
      invariant CleanupsValid(sprint, cleanups[..n]) && Indexed(cleanups, n, byLaunch)
    {
      if !cleanups[n].valid || cleanups[n].sprintId != sprint.sprintId {
        return false, byLaunch;
      }
      if cleanups[n].launchId in byLaunch {
        var i :| 0 <= i < n && cleanups[..n][i] == byLaunch[cleanups[n].launchId];
        assert cleanups[i].launchId == cleanups[n].launchId;
        return false, byLaunch;
      }
      IndexedStep(cleanups, n, byLaunch);
      CleanupsStep(sprint, cleanups, n, byLaunch);
      byLaunch := byLaunch[cleanups[n].launchId := cleanups[n]];
    }
    assert cleanups[..|cleanups|] == cleanups;
    IndexedSize(sprint, cleanups, byLaunch);
    return true, byLaunch;
  }

  lemma {:induction false} CleanupsStep(sprint: Sprint, cleanups: seq<Cleanup>, n: nat,
                                        byLaunch: map<Identifier, Cleanup>)
    requires n < |cleanups| && CleanupsValid(sprint, cleanups[..n]) && Indexed(cleanups, n, byLaunch)
    requires cleanups[n].valid && cleanups[n].sprintId == sprint.sprintId && cleanups[n].launchId !in byLaunch
    ensures CleanupsValid(sprint, cleanups[..n + 1])
  {
    assert cleanups[..n + 1] == cleanups[..n] + [cleanups[n]];
  }

  /** `cleanup_set_is_complete`. */
  method CleanupSetIsComplete(sprint: Sprint, e: Evidence) returns (ok: bool)
    ensures ok <==> CleanupSetComplete(sprint, e)
  {
    var indexed, byLaunch := IndexCleanups(sprint, e.cleanups);
    if !indexed || |byLaunch| != |e.launches| {
      return false;
    }
    assert e.cleanups[..|e.cleanups|] == e.cleanups;
    ok := forall l :: l in e.launches ==> l.launchId in byLaunch && FitsLaunch(e, l, byLaunch[l.launchId]);
    forall l, c | l in e.launches && c in e.cleanups && c.launchId == l.launchId ensures byLaunch[l.launchId] == c {
    }
  }

  // ---------- launches, sessions and cleanups correspond ----------

  function LaunchOf(l: Launch): Identifier { l.launchId }
  function SessionLaunch(s: Session): Identifier { s.launchId }
  function CleanupLaunch(c: Cleanup): Identifier { c.launchId }
  function LeaseKey(l: Lease): Identifier { l.leaseId }

  function Keys<T(==)>(s: seq<T>, key: T -> Identifier): (keys: seq<Identifier>)
    ensures |keys| == |s| && forall i :: 0 <= i < |s| ==> keys[i] == key(s[i])
  {
    seq(|s|, i requires 0 <= i < |s| => key(s[i]))
  }

  /** The launch identities of two lists pair them off: none repeats, and each identity is in both. */
  ghost predicate Paired(a: seq<Identifier>, b: seq<Identifier>) {
    NoRepeats(a) && NoRepeats(b) && Elements(a) == Elements(b) && |a| == |b|
  }

  /** Lists of one length without repeats pair off as soon as one covers the other. */
  lemma {:induction false} PairedBySize(a: seq<Identifier>, b: seq<Identifier>)
    requires NoRepeats(a) && NoRepeats(b) && |a| == |b| && forall x :: x in a ==> x in b
    ensures Paired(a, b)
  {
    ElementsSize(a);
    ElementsSize(b);
    SubsetSameSize(Elements(a), Elements(b));
  }

  /** Every launch has its own cleanup, and no cleanup is without a launch. */
  lemma {:induction false} CleanupsPair(sprint: Sprint, e: Evidence)
    requires LaunchesValid(sprint, e.launches) && CleanupSetComplete(sprint, e)
    ensures Paired(Keys(e.launches, LaunchOf), Keys(e.cleanups, CleanupLaunch))
  {
    var launched, cleaned := Keys(e.launches, LaunchOf), Keys(e.cleanups, CleanupLaunch);
    forall id | id in launched ensures id in cleaned {
      var i :| 0 <= i < |e.launches| && launched[i] == id;
      var c :| c in e.cleanups && c.launchId == e.launches[i].launchId;
      var j :| 0 <= j < |e.cleanups| && e.cleanups[j] == c;
      assert cleaned[j] == id;
    }
    PairedBySize(launched, cleaned);
  }

  lemma {:induction false} LaunchIndex(sprint: Sprint, e: Evidence, j: nat) returns (i: nat)
    requires SessionsValid(sprint, e.launches, e.sessions) && j < |e.sessions|
    ensures i < |e.launches| && e.launches[i].launchId == e.sessions[j].launchId
    ensures Registers(e.launches[i], e.sessions[j])
  {
    assert SessionFits(sprint, e.launches, e.sessions[j]);
    var l :| l in e.launches && l.launchId == e.sessions[j].launchId && Registers(l, e.sessions[j]);
    i :| 0 <= i < |e.launches| && e.launches[i] == l;
  }

  lemma {:induction false} LaunchRegistered(sprint: Sprint, e: Evidence, i: nat) returns (j: nat)
    requires CleanupSetComplete(sprint, e) && i < |e.launches|
    ensures j < |e.sessions| && e.sessions[j].launchId == e.launches[i].launchId
  {
    var l := e.launches[i];
    assert l in e.launches;
    var c :| c in e.cleanups && c.launchId == l.launchId && FitsLaunch(e, l, c);
    var s :| s in e.sessions && s.launchId == l.launchId;
    j :| 0 <= j < |e.sessions| && e.sessions[j] == s;
  }

  /** Every launch has its own session, and no session is without a launch. */
  lemma {:induction false} SessionsPair(sprint: Sprint, e: Evidence)
    requires LaunchesValid(sprint, e.launches) && SessionsValid(sprint, e.launches, e.sessions)
    requires CleanupSetComplete(sprint, e)
    ensures Paired(Keys(e.launches, LaunchOf), Keys(e.sessions, SessionLaunch))
  {
    var launched, registered := Keys(e.launches, LaunchOf), Keys(e.sessions, SessionLaunch);
    forall i | 0 <= i < |launched| ensures launched[i] in registered {
      var j := LaunchRegistered(sprint, e, i);
      assert registered[j] == launched[i];
    }
    forall j | 0 <= j < |registered| ensures registered[j] in launched {
      var i := LaunchIndex(sprint, e, j);
      assert launched[i] == registered[j];
    }
    forall i, j | 0 <= i < j < |registered| ensures registered[i] != registered[j] {
    }
    assert NoRepeats(launched);
    ElementsSize(launched);
    ElementsSize(registered);
  }

  /** Launches, sessions and cleanups are in one-to-one correspondence by launch identity. */
  lemma {:induction false} OneToOne(sprint: Sprint, e: Evidence)
    requires SessionPoliciesValid(sprint, e) && CleanupSetComplete(sprint, e)
    ensures Paired(Keys(e.launches, LaunchOf), Keys(e.sessions, SessionLaunch))
    ensures Paired(Keys(e.launches, LaunchOf), Keys(e.cleanups, CleanupLaunch))
  {
    SessionsPair(sprint, e);
    CleanupsPair(sprint, e);
  }

  // ---------- worker leases ----------

  predicate LaunchLeaseValid(l: Launch) {
    if l.purpose.TaskWorker? then l.lease.Some? && l.lease.value.valid
    else (l.purpose.FinalVerifier? || l.purpose.Applier?) && l.lease.None?
  }

  /** One of the first `n` launches carries the lease. */
  predicate CarriedBy(launches: seq<Launch>, n: nat, lease: Lease)
    requires n <= |launches|
  {
    exists i :: 0 <= i < n && launches[i].lease == Some(lease)
  }

  /** Task workers carry valid leases of different identity, the other admitted launches none. */
  predicate LeasesDistinct(launches: seq<Launch>, n: nat)
    requires n <= |launches|
  {
    && (forall i :: 0 <= i < n ==> LaunchLeaseValid(launches[i]))
    && (forall i, j :: 0 <= i < j < n && launches[i].lease.Some? && launches[j].lease.Some? ==>
          launches[i].lease.value.leaseId != launches[j].lease.value.leaseId)
  }

  predicate ReleasedOnce(leases: seq<Lease>) {
    forall i, j :: 0 <= i < j < |leases| ==> leases[i].leaseId != leases[j].leaseId
  }

  /**
   * What complete lease evidence is: the carried leases are distinct, each is released exactly once and no other
   * is released, and every integration, and every cleanup that names a lease, names a carried one.
   */
  ghost predicate WorkerLeasesComplete(e: Evidence) {
    var n := |e.launches|;
    && LeasesDistinct(e.launches, n)
    && ReleasedOnce(e.releasedLeases)
    && (forall lease :: lease in e.releasedLeases <==> CarriedBy(e.launches, n, lease))
    && (forall r :: r in e.integrations ==> r.lease.Some? && CarriedBy(e.launches, n, r.lease.value))
    && (forall c :: c in e.cleanups && c.lease.Some? ==> CarriedBy(e.launches, n, c.lease.value))
  }

  predicate HoldsLease(byId: map<Identifier, Lease>, lease: Lease) {
    lease.leaseId in byId && byId[lease.leaseId] == lease
  }

  /** The map holds exactly the leases of the first `n` launches. */
  ghost predicate Expected(launches: seq<Launch>, n: nat, expected: map<Identifier, Lease>)
    requires n <= |launches|
  {
    && WellKeyed(expected)
    && forall lease :: HoldsLease(expected, lease) <==> CarriedBy(launches, n, lease)
  }

  predicate WellKeyed(byId: map<Identifier, Lease>) {
    forall id :: id in byId ==> byId[id].leaseId == id
  }

  lemma {:induction false} CarriedNext(launches: seq<Launch>, n: nat, lease: Lease)
    requires n < |launches|
    ensures CarriedBy(launches, n + 1, lease) <==> CarriedBy(launches, n, lease) || launches[n].lease == Some(lease)
  {
  }

  lemma {:induction false} ExpectedNext(launches: seq<Launch>, n: nat, expected: map<Identifier, Lease>)
    requires n < |launches| && Expected(launches, n, expected)
    requires launches[n].lease.Some? ==> launches[n].lease.value.leaseId !in expected
    ensures Expected(launches, n + 1,
                     match launches[n].lease case None => expected case Some(l) => expected[l.leaseId := l])
  {
    var next := match launches[n].lease case None => expected case Some(l) => expected[l.leaseId := l];
    forall lease ensures HoldsLease(next, lease) <==> CarriedBy(launches, n + 1, lease) {
      CarriedNext(launches, n, lease);
      assert HoldsLease(next, lease) <==> HoldsLease(expected, lease) || launches[n].lease == Some(lease);
    }
  }

  lemma {:induction false} DistinctNext(launches: seq<Launch>, n: nat, expected: map<Identifier, Lease>)
    requires n < |launches| && LeasesDistinct(launches, n) && Expected(launches, n, expected)
    ensures LeasesDistinct(launches, n + 1) <==>
      LaunchLeaseValid(launches[n]) && (launches[n].lease.Some? ==> launches[n].lease.value.leaseId !in expected)
  {
    if launches[n].lease.Some? {
      var id := launches[n].lease.value.leaseId;
      if id in expected {
        assert HoldsLease(expected, expected[id]);
        var i :| 0 <= i < n && launches[i].lease == Some(expected[id]);
      }
      forall i | 0 <= i < n && launches[i].lease.Some? ensures launches[i].lease.value.leaseId in expected {
        assert CarriedBy(launches, n, launches[i].lease.value);
      }
    }
  }

  /** `collect` into a map by identity: the last of a name wins. */
  function LeasesById(leases: seq<Lease>): (byId: map<Identifier, Lease>)
    ensures WellKeyed(byId)
  {
    if leases == [] then map[]
    else
      var last := leases[|leases| - 1];
      LeasesById(leases[..|leases| - 1])[last.leaseId := last]
  }

  lemma {:induction false} ReleasedById(leases: seq<Lease>)
    ensures LeasesById(leases).Keys == Elements(Keys(leases, LeaseKey))
    ensures ReleasedOnce(leases) ==> forall lease :: HoldsLease(LeasesById(leases), lease) <==> lease in leases
  {
    if leases != [] {
      var front, last := leases[..|leases| - 1], leases[|leases| - 1];
      ReleasedById(front);
      assert leases == front + [last];
      assert Keys(leases, LeaseKey) == Keys(front, LeaseKey) + [last.leaseId];
      if ReleasedOnce(leases) {
        OnceAtEnd(front, last);
      }
    }
  }

  lemma {:induction false} OnceAtEnd(front: seq<Lease>, last: Lease)
    requires ReleasedOnce(front + [last])
    ensures ReleasedOnce(front) && last.leaseId !in Keys(front, LeaseKey)
  {
    var leases := front + [last];
    forall i, j | 0 <= i < j < |front| ensures front[i].leaseId != front[j].leaseId {
      assert leases[i].leaseId != leases[j].leaseId;
    }
    forall i | 0 <= i < |front| ensures Keys(front, LeaseKey)[i] != last.leaseId {
      assert leases[i].leaseId != leases[|front|].leaseId;
    }
  }

  /** A list of leases keeps its length as a map exactly when no identity repeats. */
  lemma {:induction false} ReleasedSize(leases: seq<Lease>)
    ensures |LeasesById(leases)| == |leases| <==> ReleasedOnce(leases)
  {
    var keys := Keys(leases, LeaseKey);
    ReleasedById(leases);
    assert |LeasesById(leases)| == |LeasesById(leases).Keys|;
    ElementsSize(keys);
    assert NoRepeats(keys) <==> ReleasedOnce(leases) by {
      assert forall i :: 0 <= i < |leases| ==> keys[i] == leases[i].leaseId;
    }
  }

  lemma {:induction false} SameLeases(a: map<Identifier, Lease>, b: map<Identifier, Lease>)
    requires WellKeyed(a) && WellKeyed(b)
    ensures a == b <==> forall lease :: HoldsLease(a, lease) <==> HoldsLease(b, lease)
  {
    if forall lease :: HoldsLease(a, lease) <==> HoldsLease(b, lease) {
      forall id ensures id in a <==> id in b {
        if id in a { assert HoldsLease(a, a[id]); }
        if id in b { assert HoldsLease(b, b[id]); }
      }
      forall id | id in a ensures a[id] == b[id] {
        assert HoldsLease(a, a[id]);
      }
    }
  }

  /** The expected leases by identity, or none when a launch carries the wrong kind or an identity twice. */
  method ExpectedLeases(launches: seq<Launch>) returns (ok: bool, expected: map<Identifier, Lease>)
    ensures ok <==> LeasesDistinct(launches, |launches|)
    ensures ok ==> Expected(launches, |launches|, expected)
  {
    expected := map[];
    for n := 0 to |launches|
      invariant LeasesDistinct(launches, n) && Expected(launches, n, expected)
    {
      var l := launches[n];
      DistinctNext(launches, n, expected);
      if !LaunchLeaseValid(l) || (l.lease.Some? && l.lease.value.leaseId in expected) {
        return false, expected;
      }
      ExpectedNext(launches, n, expected);
      if l.lease.Some? {
        expected := expected[l.lease.value.leaseId := l.lease.value];
      }
    }
    return true, expected;
  }

  /** `worker_lease_evidence_is_complete`. */
  method WorkerLeaseEvidenceIsComplete(e: Evidence) returns (ok: bool)
    ensures ok <==> WorkerLeasesComplete(e)
  {
    var distinct, expected := ExpectedLeases(e.launches);
    if !distinct {
      return false;
    }
    var released := LeasesById(e.releasedLeases);
    ReleasedById(e.releasedLeases);
    ReleasedSize(e.releasedLeases);
    SameLeases(released, expected);
    return |released| == |e.releasedLeases| && released == expected
      && (forall r :: r in e.integrations ==> r.lease.Some? && HoldsLease(expected, r.lease.value))
      && (forall c :: c in e.cleanups ==> c.lease.Some? ==> HoldsLease(expected, c.lease.value));
  }

  // ---------- application ----------

  predicate FinalVerificationOk(sprint: Sprint, e: Evidence) {
    && e.finalVerification.Some?
    && var v := e.finalVerification.value;
      && v.valid && v.passed && v.sprintId == sprint.sprintId && v.taskId.None? && v.snapshot == e.finalSnapshot
      && (exists f :: f in e.effects && f.valid && f.verification == v)
  }

  /** `application_validation_authority_is_valid`. */
  predicate AuthorityValid(e: Evidence, a: Application) {
    var executor, validator := FirstSession(e.sessions, a.applierSessionId),
      FirstSession(e.sessions, a.validatorSessionId);
    && executor.Some? && validator.Some?
    && var x, v := executor.value, validator.value;
      && x.purpose.Applier? && x.policy.policyHash == a.policy.policyHash
      && v.purpose.Applier? && v.launchId == a.validatorLaunchId && v.policy == a.validatorPolicy
      && v.runner.privateState == a.validatorPrivateState
      && v.policy == x.policy && v.runner == x.runner
      && (match a.mode
          case DirectEffectResponse => v.launchId == x.launchId && v.sessionId == x.sessionId
          case RecoveryApplierReconciliation => v.launchId != x.launchId && v.sessionId != x.sessionId)
  }

  /** `application_cleanup_time_is_ordered`. */
  predicate CleanupTimeOrdered(e: Evidence, a: Application, executor: Session, validator: Session, l: Launch,
                               cleanedAt: nat) {
    && (e.receipt.Some? ==> cleanedAt <= e.receipt.value.completedAt)
    && (if !l.purpose.Applier? then cleanedAt <= a.appliedAt
        else if l.launchId == validator.launchId then
          e.rollback.Some? && a.appliedAt <= cleanedAt && e.rollback.value.validatedAt <= cleanedAt
        else if l.launchId == executor.launchId then a.appliedAt <= cleanedAt
        else cleanedAt <= a.appliedAt)
  }

  /** `application_cleanup_is_ordered`. */
  predicate CleanupOrdered(e: Evidence, a: Application) {
    var executor, validator := FirstSession(e.sessions, a.applierSessionId),
      FirstSession(e.sessions, a.validatorSessionId);
    && executor.Some? && validator.Some?
    && (forall c :: c in e.cleanups ==>
          var l := FirstLaunch(e.launches, c.launchId);
          l.Some? && CleanupTimeOrdered(e, a, executor.value, validator.value, l.value, c.cleanedAt))
  }

  predicate AppliedValid(sprint: Sprint, e: Evidence, a: Application) {
    && a.valid && AuthorityValid(e, a)
    && a.sprintId == sprint.sprintId && a.baseSnapshot == sprint.baseSnapshot && a.resultSnapshot == e.finalSnapshot
    && a.policy.grantHash == sprint.grantHash && a.policy.policyVersion == sprint.policyVersion
    && e.finalVerification.Some? && e.finalVerification.value.finishedAt <= a.appliedAt
    && CleanupOrdered(e, a)
  }

  predicate NoOpValid(sprint: Sprint, e: Evidence, n: NoOp) {
    && n.valid && n.sprintId == sprint.sprintId && n.baseSnapshot == sprint.baseSnapshot
    && e.finalSnapshot == sprint.baseSnapshot && n.grantHash == sprint.grantHash
      && n.policyVersion == sprint.policyVersion
    && e.finalVerification.Some? && n.finalVerificationReceiptId == e.finalVerification.value.receiptId
    && e.finalVerification.value.finishedAt <= n.observedAt
    && (forall c :: c in e.cleanups ==> c.cleanedAt <= n.observedAt)
  }

  predicate LiveApplicationValid(sprint: Sprint, e: Evidence, cleanupOk: bool) {
    && cleanupOk
    && (if e.application.Some? && e.noOp.None? then AppliedValid(sprint, e, e.application.value)
        else e.application.None? && e.noOp.Some? && NoOpValid(sprint, e, e.noOp.value))
  }

  /** `rollback_is_available`. */
  predicate RollbackAvailable(sprint: Sprint, e: Evidence) {
    if e.application.Some? && e.noOp.None? && e.rollback.Some? then
      var a, r := e.application.value, e.rollback.value;
      var cleanup := FirstCleanup(e.cleanups, a.validatorSessionId);
      && a.valid && r.valid && r.sprintId == sprint.sprintId && r.baseSnapshot == sprint.baseSnapshot
      && r.applicationReceiptId == a.receiptId && r.transactionId == a.transactionId && a.appliedAt <= r.validatedAt
      && cleanup.Some? && a.appliedAt <= cleanup.value.cleanedAt && r.validatedAt <= cleanup.value.cleanedAt
    else e.application.None? && e.noOp.Some? && e.rollback.None?
  }

  // ---------- the assessment ----------

  datatype Branch = Applied | VerifiedNoOp

  datatype Assessment = Assessment(branch: Option<Branch>, unmet: seq<Requirement>) {
    predicate IsComplete() {
      branch.Some? && unmet == []
    }
  }

  function BranchOf(e: Evidence): Option<Branch> {
    if e.application.Some? && e.noOp.None? then Some(Applied)
    else if e.application.None? && e.noOp.Some? then Some(VerifiedNoOp)
    else None
  }

  ghost predicate CleanupOk(sprint: Sprint, e: Evidence) {
    SessionPoliciesValid(sprint, e) && CleanupSetComplete(sprint, e)
  }

  ghost predicate ApplicationOk(sprint: Sprint, e: Evidence) {
    LiveApplicationValid(sprint, e, CleanupOk(sprint, e)) && BranchOf(e) != Some(VerifiedNoOp)
  }

  predicate ReceiptAgrees(e: Evidence) {
    e.receipt.Some? && e.receipt.value.consistent
  }

  /** The separate findings that the requirements combine. */
  datatype Findings = Findings(
    contracts: bool, criteria: bool, integrated: bool, verified: bool, captured: bool, applied: bool,
      conflictFree: bool,
    effectsKnown: bool, cleaned: bool, leased: bool, rollback: bool, report: bool, receipt: bool, persisted: bool)

  /** When a requirement holds. */
  predicate Holding(f: Findings, q: Requirement) {
    match q
    case ContractsValid => f.contracts
    case AllCriteriaSatisfied => f.criteria
    case AllRequiredTasksIntegrated => f.integrated
    case FinalSnapshotVerified => f.verified
    case NoOpCaptureAuthorized => f.captured
    case FinalSnapshotApplied => f.applied && f.verified
    case LiveHashesMatch => f.applied
    case NoUnresolvedConflicts => f.conflictFree
    case NoUnknownSideEffects => f.effectsKnown
    case NoSurvivingProcesses => f.cleaned
    case NoActiveWorkerLeases => f.leased
    case RollbackReady => f.rollback
    case FinalReportAvailable => f.report
    case ReceiptConsistent => f.receipt && f.integrated
    case ReceiptPersisted => f.persisted && f.receipt && f.integrated
  }

  ghost function FindingsOf(sprint: Sprint, tasks: seq<GraphTask>, e: Evidence): Findings {
    Findings(
      e.contractsValid, e.criteriaSatisfied, IntegrationsComplete(sprint, tasks, e), FinalVerificationOk(sprint, e),
      BranchOf(e) != Some(VerifiedNoOp), ApplicationOk(sprint, e), e.unresolvedConflicts == 0,
      e.unknownSideEffects == 0,
      CleanupOk(sprint, e), e.activeLeases == 0 && WorkerLeasesComplete(e), RollbackAvailable(sprint, e),
      e.finalReportId.Some? && !Blank(e.finalReportId.value), ReceiptAgrees(e), e.receiptPersisted)
  }

  ghost predicate Met(sprint: Sprint, tasks: seq<GraphTask>, e: Evidence, q: Requirement) {
    Holding(FindingsOf(sprint, tasks, e), q)
  }

  // ---------- each requirement, on the fields of the evidence ----------

  lemma {:induction false} VerdictExactly(sprint: Sprint, e: Evidence)
    ensures FinalVerificationOk(sprint, e) <==> Verified(sprint, e)
  {
    if FinalVerificationOk(sprint, e) {
      var v := e.finalVerification.value;
      var f :| f in e.effects && f.valid && f.verification == v;
      assert e.finalVerification == Some(v) && v.taskId == None;
    }
  }

  lemma {:induction false} LaunchesExactly(sprint: Sprint, e: Evidence)
    ensures LaunchesValid(sprint, e.launches) && e.launches != [] <==> LaunchesSound(sprint, e)
  {
    forall l | l in e.launches ensures exists i :: 0 <= i < |e.launches| && e.launches[i] == l {
    }
  }

  lemma {:induction false} SessionsExactly(sprint: Sprint, e: Evidence)
    ensures SessionsValid(sprint, e.launches, e.sessions) <==> SessionsSound(sprint, e)
  {
    forall s | s in e.sessions ensures exists i :: 0 <= i < |e.sessions| && e.sessions[i] == s {
    }
    forall s: Session
      ensures (exists l :: l in e.launches && l.launchId == s.launchId && Registers(l, s)) <==>
        exists l :: l in e.launches && LaunchedAs(l, s)
    {
      RegisteredExactly(e, s);
    }
  }

  lemma {:induction false} RegisteredExactly(e: Evidence, s: Session)
    ensures (exists l :: l in e.launches && l.launchId == s.launchId && Registers(l, s)) <==>
      exists l :: l in e.launches && LaunchedAs(l, s)
  {
    forall l: Launch ensures l.launchId == s.launchId && Registers(l, s) <==> LaunchedAs(l, s) {
    }
  }

  lemma {:induction false} FinalSessionExactly(e: Evidence)
    ensures (e.finalVerification.Some? && exists s :: s in e.sessions && FinalSession(e, e.finalVerification.value, s))
      <==> FinalVerifierRan(e)
  {
    if e.finalVerification.Some? && exists s :: s in e.sessions && FinalSession(e, e.finalVerification.value, s) {
      var v := e.finalVerification.value;
      var s :| s in e.sessions && FinalSession(e, v, s);
      var f :| f in e.effects && f.verification == v && f.sessionId == s.sessionId && f.launchId == s.launchId;
      assert e.finalVerification == Some(v) && s.purpose == FinalVerifier;
    }
  }

  lemma {:induction false} FinalLaunchExactly(e: Evidence, launchId: Identifier)
    requires forall i, j :: 0 <= i < j < |e.sessions| ==> e.sessions[i].sessionId != e.sessions[j].sessionId
    ensures IsFinalLaunch(e, launchId) <==>
      exists s :: s in e.sessions && s.launchId == launchId && e.finalSessionId == Some(s.sessionId)
  {
    if s :| s in e.sessions && s.launchId == launchId && e.finalSessionId == Some(s.sessionId) {
      FirstIsOnly(e.sessions, s);
    }
  }

  /** Among distinct sessions, the first with an identity is the one with it. */
  lemma {:induction false} FirstIsOnly(sessions: seq<Session>, s: Session)
    requires forall i, j :: 0 <= i < j < |sessions| ==> sessions[i].sessionId != sessions[j].sessionId
    requires s in sessions
    ensures FirstSession(sessions, s.sessionId) == Some(s)
  {
  }

  lemma {:induction false} CleansExactly(e: Evidence, l: Launch, c: Cleanup)
    requires forall i, j :: 0 <= i < j < |e.sessions| ==> e.sessions[i].sessionId != e.sessions[j].sessionId
    ensures c.launchId == l.launchId && FitsLaunch(e, l, c) <==> Cleans(e, l, c)
  {
    FinalLaunchExactly(e, l.launchId);
    assert (e.finalVerification.Some? && e.finalVerification.value.finishedAt <= c.cleanedAt) <==>
      exists v :: e.finalVerification == Some(v) && v.finishedAt <= c.cleanedAt;
  }

  lemma {:induction false} CleanupsExactly(sprint: Sprint, e: Evidence)
    requires forall i, j :: 0 <= i < j < |e.sessions| ==> e.sessions[i].sessionId != e.sessions[j].sessionId
    ensures CleanupSetComplete(sprint, e) <==> CleanupsSound(sprint, e)
  {
    forall l, c | l in e.launches && c in e.cleanups
      ensures c.launchId == l.launchId && FitsLaunch(e, l, c) <==> Cleans(e, l, c)
    {
      CleansExactly(e, l, c);
    }
    assert (forall i :: 0 <= i < |e.cleanups| ==> e.cleanups[i].valid && e.cleanups[i].sprintId == sprint.sprintId)
      <==> forall c :: c in e.cleanups ==> c.valid && c.sprintId == sprint.sprintId;
  }

  lemma {:induction false} CleanedExactly(sprint: Sprint, e: Evidence)
    ensures CleanupOk(sprint, e) <==> NothingSurvives(sprint, e)
  {
    LaunchesExactly(sprint, e);
    SessionsExactly(sprint, e);
    FinalSessionExactly(e);
    if SessionsSound(sprint, e) {
      CleanupsExactly(sprint, e);
    }
  }

  lemma {:induction false} CarriedExactly(e: Evidence, lease: Lease)
    ensures CarriedBy(e.launches, |e.launches|, lease) <==> Carried(e, lease)
  {
    if i :| 0 <= i < |e.launches| && e.launches[i].lease == Some(lease) {
      assert e.launches[i] in e.launches;
    }
  }

  lemma {:induction false} LeaseKindsExactly(e: Evidence)
    ensures (forall i :: 0 <= i < |e.launches| ==> LaunchLeaseValid(e.launches[i])) <==>
      forall l :: l in e.launches ==> LeaseOfKind(l)
  {
    forall l ensures LaunchLeaseValid(l) <==> LeaseOfKind(l) {
    }
    if forall i :: 0 <= i < |e.launches| ==> LaunchLeaseValid(e.launches[i]) {
      forall l | l in e.launches ensures LeaseOfKind(l) {
        var i :| 0 <= i < |e.launches| && e.launches[i] == l;
      }
    }
  }

  lemma {:induction false} LeasesExactly(e: Evidence)
    ensures e.activeLeases == 0 && WorkerLeasesComplete(e) <==> LeasesReturned(e)
  {
    LeaseKindsExactly(e);
    forall lease ensures CarriedBy(e.launches, |e.launches|, lease) <==> Carried(e, lease) {
      CarriedExactly(e, lease);
    }
  }

  lemma {:induction false} PlacedExactly(sprint: Sprint, e: Evidence, a: Application, x: Session, v: Session,
                                         c: Cleanup)
    requires LaunchesValid(sprint, e.launches)
    ensures (FirstLaunch(e.launches, c.launchId).Some?
             && CleanupTimeOrdered(e, a, x, v, FirstLaunch(e.launches, c.launchId).value, c.cleanedAt)) <==>
      exists l :: l in e.launches && l.launchId == c.launchId && CleanedInOrder(e, a, x, v, l, c)
  {
    forall l | l in e.launches && l.launchId == c.launchId
      ensures FirstLaunch(e.launches, c.launchId) == Some(l)
      ensures CleanupTimeOrdered(e, a, x, v, l, c.cleanedAt) <==> CleanedInOrder(e, a, x, v, l, c)
    {
      TimeExactly(e, a, x, v, l, c);
    }
  }

  lemma {:induction false} TimeExactly(e: Evidence, a: Application, x: Session, v: Session, l: Launch, c: Cleanup)
    ensures CleanupTimeOrdered(e, a, x, v, l, c.cleanedAt) <==> CleanedInOrder(e, a, x, v, l, c)
  {
    assert (e.receipt.Some? ==> c.cleanedAt <= e.receipt.value.completedAt) <==>
      forall receipt :: e.receipt == Some(receipt) ==> c.cleanedAt <= receipt.completedAt;
    assert (e.rollback.Some? && e.rollback.value.validatedAt <= c.cleanedAt) <==>
      exists rollback :: e.rollback == Some(rollback) && rollback.validatedAt <= c.cleanedAt;
  }

  lemma {:induction false} AuthorityExactly(e: Evidence, a: Application, x: Session, v: Session)
    requires FirstSession(e.sessions, a.applierSessionId) == Some(x)
    requires FirstSession(e.sessions, a.validatorSessionId) == Some(v)
    ensures AuthorityValid(e, a) <==> Authorized(a, x, v)
  {
  }

  lemma {:induction false} ExecutedExactly(sprint: Sprint, e: Evidence, a: Application)
    requires LaunchesValid(sprint, e.launches) && SessionsValid(sprint, e.launches, e.sessions)
    ensures AuthorityValid(e, a) && CleanupOrdered(e, a) <==> exists x, v :: Executed(e, a, x, v)
  {
    var executor, validator := FirstSession(e.sessions, a.applierSessionId),
      FirstSession(e.sessions, a.validatorSessionId);
    if x, v :| Executed(e, a, x, v) {
      FirstIsOnly(e.sessions, x);
      FirstIsOnly(e.sessions, v);
    }
    if executor.Some? && validator.Some? {
      AuthorityExactly(e, a, executor.value, validator.value);
      forall c | c in e.cleanups
        ensures (FirstLaunch(e.launches, c.launchId).Some?
                 && CleanupTimeOrdered(e, a, executor.value, validator.value,
                                       FirstLaunch(e.launches, c.launchId).value, c.cleanedAt)) <==>
          exists l :: l in e.launches && l.launchId == c.launchId
            && CleanedInOrder(e, a, executor.value, validator.value, l, c)
      {
        PlacedExactly(sprint, e, a, executor.value, validator.value, c);
      }
      assert Executed(e, a, executor.value, validator.value) <==> AuthorityValid(e, a) && CleanupOrdered(e, a);
    }
  }

  lemma {:induction false} AppliedFields(sprint: Sprint, e: Evidence, a: Application)
    ensures AppliedValid(sprint, e, a) <==>
      && e.finalVerification.Some? && AppliedAfter(sprint, e, a, e.finalVerification.value)
      && AuthorityValid(e, a) && CleanupOrdered(e, a)
  {
  }

  lemma {:induction false} AppliedExactly(sprint: Sprint, e: Evidence)
    requires LaunchesValid(sprint, e.launches) && SessionsValid(sprint, e.launches, e.sessions)
    ensures (e.application.Some? && e.noOp.None? && AppliedValid(sprint, e, e.application.value)) <==>
      AppliedLive(sprint, e)
  {
    if e.application.Some? {
      var a := e.application.value;
      AppliedFields(sprint, e, a);
      ExecutedExactly(sprint, e, a);
      assert e.application == Some(a);
      assert e.finalVerification.Some? ==> e.finalVerification == Some(e.finalVerification.value);
    }
  }

  lemma {:induction false} LiveExactly(sprint: Sprint, e: Evidence, cleanupOk: bool)
    ensures LiveApplicationValid(sprint, e, cleanupOk) && BranchOf(e) != Some(VerifiedNoOp) <==>
      cleanupOk && e.application.Some? && e.noOp.None? && AppliedValid(sprint, e, e.application.value)
  {
  }

  lemma {:induction false} ApplicationExactly(sprint: Sprint, e: Evidence)
    ensures ApplicationOk(sprint, e) <==> NothingSurvives(sprint, e) && AppliedLive(sprint, e)
  {
    CleanedExactly(sprint, e);
    LiveExactly(sprint, e, CleanupOk(sprint, e));
    if CleanupOk(sprint, e) {
      AppliedExactly(sprint, e);
    }
  }

  lemma {:induction false} VerifiedApplicationExactly(sprint: Sprint, e: Evidence)
    ensures ApplicationOk(sprint, e) && FinalVerificationOk(sprint, e) <==>
      NothingSurvives(sprint, e) && AppliedLive(sprint, e) && Verified(sprint, e)
  {
    ApplicationExactly(sprint, e);
    VerdictExactly(sprint, e);
  }

  lemma {:induction false} FirstCleanupAt(cleanups: seq<Cleanup>, id: Identifier, i: nat)
    requires FirstOf(cleanups, id, i)
    ensures FirstCleanup(cleanups, id) == Some(cleanups[i])
  {
    if i > 0 {
      assert cleanups[0].sessionId != id;
      FirstCleanupAt(cleanups[1..], id, i - 1);
    }
  }

  lemma {:induction false} FirstCleanupPlace(cleanups: seq<Cleanup>, id: Identifier) returns (i: nat)
    requires FirstCleanup(cleanups, id).Some?
    ensures FirstOf(cleanups, id, i) && FirstCleanup(cleanups, id) == Some(cleanups[i])
  {
    if cleanups[0].sessionId == id {
      i := 0;
    } else {
      var j := FirstCleanupPlace(cleanups[1..], id);
      i := j + 1;
    }
  }

  lemma {:induction false} RollbackExactly(sprint: Sprint, e: Evidence)
    ensures RollbackAvailable(sprint, e) <==> CanRollBack(sprint, e)
  {
    if e.application.Some? && e.noOp.None? && e.rollback.Some? {
      var a := e.application.value;
      if FirstCleanup(e.cleanups, a.validatorSessionId).Some? {
        var i := FirstCleanupPlace(e.cleanups, a.validatorSessionId);
        assert e.application == Some(a) && e.rollback == Some(e.rollback.value);
      }
      forall i: nat | FirstOf(e.cleanups, a.validatorSessionId, i)
        ensures FirstCleanup(e.cleanups, a.validatorSessionId) == Some(e.cleanups[i])
      {
        FirstCleanupAt(e.cleanups, a.validatorSessionId, i);
      }
    }
  }

  lemma {:induction false} ReportExactly(e: Evidence)
    ensures (e.finalReportId.Some? && !Blank(e.finalReportId.value)) <==>
      exists report, i :: e.finalReportId == Some(report) && 0 <= i < |report| && !Trimmed(report[i] as int)
  {
    if e.finalReportId.Some? {
      BlankExactly(e.finalReportId.value);
    }
  }

  lemma {:induction false} AgreementExactly(e: Evidence)
    ensures ReceiptAgrees(e) <==> exists receipt :: e.receipt == Some(receipt) && receipt.consistent
  {
    if ReceiptAgrees(e) {
      assert e.receipt == Some(e.receipt.value);
    }
  }

  /** A requirement is met exactly when the evidence is what the requirement says. */
  lemma {:induction false} RequirementExactly(sprint: Sprint, tasks: seq<GraphTask>, e: Evidence, q: Requirement)
    ensures Met(sprint, tasks, e, q) <==> Meant(sprint, tasks, e, q)
  {
    match q {
      case FinalSnapshotVerified => VerdictExactly(sprint, e);
      case FinalSnapshotApplied => VerifiedApplicationExactly(sprint, e);
      case LiveHashesMatch => ApplicationExactly(sprint, e);
      case NoSurvivingProcesses => CleanedExactly(sprint, e);
      case NoActiveWorkerLeases => LeasesExactly(e);
      case RollbackReady => RollbackExactly(sprint, e);
      case FinalReportAvailable => ReportExactly(e);
      case _ => RecordedMetExactly(sprint, tasks, e, q);
    }
  }

  /** The requirements on integrations, the receipt and single fields. */
  lemma {:induction false} RecordedMetExactly(sprint: Sprint, tasks: seq<GraphTask>, e: Evidence, q: Requirement)
    requires q in {ContractsValid, AllCriteriaSatisfied, AllRequiredTasksIntegrated, NoOpCaptureAuthorized,
                   NoUnresolvedConflicts, NoUnknownSideEffects, ReceiptConsistent, ReceiptPersisted}
    ensures Met(sprint, tasks, e, q) <==> Meant(sprint, tasks, e, q)
  {
    match q {
      case AllRequiredTasksIntegrated => IntegratedExactly(sprint, tasks, e);
      case ReceiptConsistent => IntegratedExactly(sprint, tasks, e); AgreementExactly(e);
      case ReceiptPersisted => IntegratedExactly(sprint, tasks, e); AgreementExactly(e);
      case _ =>
    }
  }

  /** `require`. */
  function Push(unmet: seq<Requirement>, condition: bool, q: Requirement): (r: seq<Requirement>)
    ensures forall p :: p in r <==> p in unmet || (p == q && !condition)
  {
    if condition then unmet else unmet + [q]
  }

  /** The checklist, in evaluation order. */
  const CHECKLIST: seq<Requirement> := [
    ContractsValid, AllCriteriaSatisfied, AllRequiredTasksIntegrated, FinalSnapshotVerified, NoOpCaptureAuthorized,
    FinalSnapshotApplied, LiveHashesMatch, NoUnresolvedConflicts, NoUnknownSideEffects, NoSurvivingProcesses,
    NoActiveWorkerLeases, RollbackReady, FinalReportAvailable, ReceiptConsistent, ReceiptPersisted]

  lemma {:induction false} ChecklistComplete(q: Requirement)
    ensures q in CHECKLIST
  {
    var place := match q
      case ContractsValid => 0
      case AllCriteriaSatisfied => 1
      case AllRequiredTasksIntegrated => 2
      case FinalSnapshotVerified => 3
      case NoOpCaptureAuthorized => 4
      case FinalSnapshotApplied => 5
      case LiveHashesMatch => 6
      case NoUnresolvedConflicts => 7
      case NoUnknownSideEffects => 8
      case NoSurvivingProcesses => 9
      case NoActiveWorkerLeases => 10
      case RollbackReady => 11
      case FinalReportAvailable => 12
      case ReceiptConsistent => 13
      case ReceiptPersisted => 14;
    assert CHECKLIST[place] == q;
  }

  /** One push per failed requirement. */
  method ListUnmet(f: Findings) returns (unmet: seq<Requirement>)
    ensures forall q :: q in unmet <==> !Holding(f, q)
  {
    unmet := [];
    for k := 0 to |CHECKLIST|
      invariant forall q :: q in unmet <==> q in CHECKLIST[..k] && !Holding(f, q)
    {
      assert CHECKLIST[..k + 1] == CHECKLIST[..k] + [CHECKLIST[k]];
      unmet := Push(unmet, Holding(f, CHECKLIST[k]), CHECKLIST[k]);
    }
    assert CHECKLIST[..|CHECKLIST|] == CHECKLIST;
    forall q: Requirement ensures q in CHECKLIST {
      ChecklistComplete(q);
    }
  }

  /** `assess_completion`: lists exactly the requirements that fail. */
  method AssessCompletion(sprint: Sprint, tasks: seq<GraphTask>, e: Evidence) returns (r: Assessment)
    ensures r.branch == BranchOf(e)
    ensures forall q :: q in r.unmet <==> !Met(sprint, tasks, e, q)
    ensures forall q :: q in r.unmet <==> !Meant(sprint, tasks, e, q)
    ensures r.IsComplete() <==> AllMet(sprint, tasks, e)
    ensures r.IsComplete() <==> forall q :: Meant(sprint, tasks, e, q)
  {
    var integrated := TaskIntegrationsAreComplete(sprint, tasks, e);
    var policiesOk := SessionPoliciesAreValid(sprint, e);
    var cleanupsOk := CleanupSetIsComplete(sprint, e);
    var leased := WorkerLeaseEvidenceIsComplete(e);
    var captured := BranchOf(e) != Some(VerifiedNoOp);
    var cleaned := policiesOk && cleanupsOk;
    var applied := LiveApplicationValid(sprint, e, cleaned) && captured;
    var findings := Findings(
      e.contractsValid, e.criteriaSatisfied, integrated, FinalVerificationOk(sprint, e), captured, applied,
      e.unresolvedConflicts == 0, e.unknownSideEffects == 0, cleaned, e.activeLeases == 0 && leased,
      RollbackAvailable(sprint, e), e.finalReportId.Some? && !Blank(e.finalReportId.value), ReceiptAgrees(e),
      e.receiptPersisted);
    var unmet := ListUnmet(findings);
    CompleteExactly(sprint, tasks, e, unmet);
    forall q ensures Met(sprint, tasks, e, q) <==> Meant(sprint, tasks, e, q) {
      RequirementExactly(sprint, tasks, e, q);
    }
    r := Assessment(BranchOf(e), unmet);
  }

  /** Nothing is left unmet. */
  ghost predicate AllMet(sprint: Sprint, tasks: seq<GraphTask>, e: Evidence) {
    forall q :: Met(sprint, tasks, e, q)
  }

  lemma {:induction false} CompleteExactly(sprint: Sprint, tasks: seq<GraphTask>, e: Evidence, unmet: seq<Requirement>)
    requires forall q :: q in unmet <==> !Met(sprint, tasks, e, q)
    ensures BranchOf(e).Some? && unmet == [] <==> AllMet(sprint, tasks, e)
  {
    if unmet != [] {
      assert !Met(sprint, tasks, e, unmet[0]);
    } else {
      assert Met(sprint, tasks, e, LiveHashesMatch);
    }
  }

  /** A complete sprint's final verdict: passed, of the whole sprint, of the final snapshot, with its effect. */
  lemma {:induction false} CompleteMeansVerified(sprint: Sprint, tasks: seq<GraphTask>, e: Evidence)
    requires AllMet(sprint, tasks, e)
    ensures exists v, f ::
      && e.finalVerification == Some(v) && v.valid && v.passed && v.sprintId == sprint.sprintId && v.taskId == None
      && v.snapshot == e.finalSnapshot && f in e.effects && f.valid && f.verification == v
  {
    assert Met(sprint, tasks, e, FinalSnapshotVerified);
    VerdictExactly(sprint, e);
  }

  /** Every verification that a complete sprint's integration names passed, for that task and that result. */
  lemma {:induction false} CompleteMeansBacked(sprint: Sprint, tasks: seq<GraphTask>, e: Evidence, r: Integration,
                                               id: Identifier)
    requires AllMet(sprint, tasks, e) && r in e.integrations && id in r.verificationIds
    ensures exists f ::
      && f in e.effects && f.valid && f.verification.receiptId == id && f.verification.passed
      && f.verification.sprintId == sprint.sprintId && f.verification.taskId == Some(r.taskId)
      && f.verification.snapshot == r.resultSnapshot && f.verification.finishedAt <= r.integratedAt
  {
    assert Met(sprint, tasks, e, AllRequiredTasksIntegrated);
    IntegratedExactly(sprint, tasks, e);
    assert SoundReceipt(sprint, tasks, e, r);
    var f :| f in e.effects && f.verification.receiptId == id && Verifies(sprint, f, r);
  }

  /** A complete assessment is always the applied branch, over a complete cleanup set. */
  lemma {:induction false} CompleteMeansApplied(sprint: Sprint, tasks: seq<GraphTask>, e: Evidence)
    requires AllMet(sprint, tasks, e)
    ensures BranchOf(e) == Some(Applied) && CleanupOk(sprint, e) && AppliedValid(sprint, e, e.application.value)
  {
    assert Met(sprint, tasks, e, LiveHashesMatch);
  }

  lemma {:induction false} CompleteMeansReceipt(sprint: Sprint, tasks: seq<GraphTask>, e: Evidence)
    requires AllMet(sprint, tasks, e)
    ensures e.receipt.Some?
  {
    assert Met(sprint, tasks, e, ReceiptConsistent);
  }

  lemma {:induction false} CompleteMeansRollback(sprint: Sprint, tasks: seq<GraphTask>, e: Evidence)
    requires AllMet(sprint, tasks, e)
    ensures RollbackAvailable(sprint, e)
  {
    assert Met(sprint, tasks, e, RollbackReady);
  }

  /** A complete sprint has released exactly the leases its workers were launched under. */
  lemma {:induction false} CompleteMeansReleased(sprint: Sprint, tasks: seq<GraphTask>, e: Evidence, lease: Lease)
    requires AllMet(sprint, tasks, e)
    ensures lease in e.releasedLeases <==> exists i :: 0 <= i < |e.launches| && e.launches[i].lease == Some(lease)
    ensures e.activeLeases == 0 && forall i :: 0 <= i < |e.launches| ==> !e.launches[i].purpose.LiveStateVerifier?
  {
    assert Met(sprint, tasks, e, NoActiveWorkerLeases);
    assert lease in e.releasedLeases <==> CarriedBy(e.launches, |e.launches|, lease);
  }

  /** The cleanup of a launch in a complete set. */
  lemma {:induction false} CleanupOfLaunch(sprint: Sprint, e: Evidence, l: Launch) returns (c: Cleanup)
    requires CleanupSetComplete(sprint, e) && l in e.launches
    ensures c in e.cleanups && c.launchId == l.launchId && FitsLaunch(e, l, c)
  {
    c :| c in e.cleanups && c.launchId == l.launchId && FitsLaunch(e, l, c);
  }

  /** The time checks look launches up by identity, and so find the cleanup's own launch. */
  lemma {:induction false} CleanupPlaced(sprint: Sprint, e: Evidence, a: Application, l: Launch, c: Cleanup)
    requires LaunchesValid(sprint, e.launches) && CleanupOrdered(e, a)
    requires l in e.launches && c in e.cleanups && c.launchId == l.launchId
    ensures e.receipt.Some? ==> c.cleanedAt <= e.receipt.value.completedAt
    ensures !l.purpose.Applier? ==> c.cleanedAt <= a.appliedAt
  {
    assert FirstLaunch(e.launches, c.launchId) == Some(l);
  }

  /** A session that carried out the final verification makes its launch the final one. */
  lemma {:induction false} FinalLaunch(sprint: Sprint, e: Evidence, s: Session)
    requires SessionsValid(sprint, e.launches, e.sessions) && s in e.sessions && e.finalSessionId == Some(s.sessionId)
    ensures IsFinalLaunch(e, s.launchId)
  {
    assert FirstSession(e.sessions, s.sessionId) == Some(s);
  }

  /** The cleanup of the final verifier comes after its verdict and before the application. */
  lemma {:induction false} FinalVerifierCleaned(sprint: Sprint, e: Evidence, a: Application) returns (c: Cleanup)
    requires CleanupOk(sprint, e) && CleanupOrdered(e, a)
    ensures c in e.cleanups && e.finalSessionId == Some(c.sessionId)
    ensures e.finalVerification.value.finishedAt <= c.cleanedAt <= a.appliedAt
  {
    var s :| s in e.sessions && FinalSession(e, e.finalVerification.value, s);
    var l := LaunchOfSession(sprint, e, s);
    c := CleanupOfLaunch(sprint, e, l);
    FinalLaunch(sprint, e, s);
    CleanupPlaced(sprint, e, a, l, c);
  }

  lemma {:induction false} LaunchOfSession(sprint: Sprint, e: Evidence, s: Session) returns (l: Launch)
    requires SessionsValid(sprint, e.launches, e.sessions) && s in e.sessions
    ensures l in e.launches && l.launchId == s.launchId && Registers(l, s)
  {
    var j :| 0 <= j < |e.sessions| && e.sessions[j] == s;
    assert SessionFits(sprint, e.launches, e.sessions[j]);
    l :| l in e.launches && l.launchId == s.launchId && Registers(l, s);
  }

  /**
   * A complete sprint has one timeline: verification, its cleanup, application, rollback check, its cleanup,
   * completion.
   */
  lemma {:induction false} CompletionTimeline(sprint: Sprint, tasks: seq<GraphTask>, e: Evidence)
    returns (verifier: Cleanup, validator: Cleanup)
    requires AllMet(sprint, tasks, e)
    ensures BranchOf(e) == Some(Applied) && e.rollback.Some? && e.receipt.Some? && e.finalVerification.Some?
    ensures verifier in e.cleanups && e.finalSessionId == Some(verifier.sessionId)
    ensures validator in e.cleanups && validator.sessionId == e.application.value.validatorSessionId
    ensures e.finalVerification.value.finishedAt <= verifier.cleanedAt <= e.application.value.appliedAt
    ensures e.application.value.appliedAt <= e.rollback.value.validatedAt <= validator.cleanedAt
    ensures validator.cleanedAt <= e.receipt.value.completedAt
  {
    CompleteMeansApplied(sprint, tasks, e);
    CompleteMeansReceipt(sprint, tasks, e);
    CompleteMeansRollback(sprint, tasks, e);
    verifier := FinalVerifierCleaned(sprint, e, e.application.value);
    validator := FirstCleanup(e.cleanups, e.application.value.validatorSessionId).value;
    assert FirstLaunch(e.launches, validator.launchId).Some?;
  }

  predicate ReapedInTime(e: Evidence, l: Launch, c: Cleanup)
    requires e.application.Some? && e.receipt.Some?
  {
    && c.sessionId == l.sessionId && l.createdAt <= c.cleanedAt <= e.receipt.value.completedAt
    && (l.purpose.TaskWorker? || l.purpose.FinalVerifier? ==> c.cleanedAt <= e.application.value.appliedAt)
  }

  lemma {:induction false} ReapedByOrder(sprint: Sprint, e: Evidence, l: Launch) returns (c: Cleanup)
    requires CleanupOk(sprint, e) && l in e.launches
    requires e.application.Some? && e.receipt.Some? && CleanupOrdered(e, e.application.value)
    ensures c in e.cleanups && c.launchId == l.launchId && ReapedInTime(e, l, c)
  {
    c := CleanupOfLaunch(sprint, e, l);
    CleanupPlaced(sprint, e, e.application.value, l, c);
  }

  /** Every worker and verifier was reaped before the application, and everything before completion. */
  lemma {:induction false} ReapedBeforeApplication(sprint: Sprint, tasks: seq<GraphTask>, e: Evidence, l: Launch)
    requires AllMet(sprint, tasks, e) && l in e.launches
    ensures e.application.Some? && e.receipt.Some?
    ensures exists c :: c in e.cleanups && c.launchId == l.launchId && ReapedInTime(e, l, c)
  {
    CompleteMeansApplied(sprint, tasks, e);
    CompleteMeansReceipt(sprint, tasks, e);
    var c := ReapedByOrder(sprint, e, l);
  }
}
