/**
 * Which evidence is valid, field by field (current_final_verification_evidence.rs). Reserved identities are well
 * formed and apart, so an identity that equals its reservation passes every other check made on it.
 */
module EvidenceValidity {
  import opened Identifiers
  import opened EvidenceSources

  // ---------- what valid evidence is ----------

  ghost predicate Hex64(id: Identifier) {
    |id| == 64 && forall k :: 0 <= k < 64 ==> '0' <= id[k] <= '9' || 'a' <= id[k] <= 'f'
  }

  /** Some character is left after trimming, and the UTF-8 text is at most 256 bytes long. */
  ghost predicate Named(id: Identifier) {
    && (exists k :: 0 <= k < |id| && !Trimmed(id[k] as int))
    && |id| + CountFrom(id, 0x80) + CountFrom(id, 0x800) + CountFrom(id, 0x10000) <= 256
  }

  /** The sequence of the last stage reached. */
  ghost function LastSequence(f: Frontier): nat {
    match f
    case LaunchCommitted(_, _, committed) => committed.sequence
    case CaptureAcquired(_, _, _, acquired) => acquired.sequence
    case Initialized(_, _, _, _, initialized) => initialized.sequence
    case Dispatched(_, _, _, _, _, dispatched) => dispatched.sequence
  }

  /** Every reached stage carries its reserved identity and follows the stage before it. */
  ghost predicate StagesStand(f: Frontier) {
    && (f.CaptureAcquired? || f.Initialized? || f.Dispatched? ==>
      f.acquired.id == f.reservations[CaptureAcquiredEvent] && f.acquired.sequence > f.committed.sequence)
    && (f.Initialized? || f.Dispatched? ==>
      f.initialized.id == f.reservations[InitializedEvent] && f.initialized.sequence > f.acquired.sequence)
    && (f.Dispatched? ==>
      f.dispatched.id == f.reservations[DispatchedEvent] && f.dispatched.sequence > f.initialized.sequence)
  }

  ghost predicate ReservationStands(spine: Spine, role: Role) {
    var id := spine.frontier.reservations[role];
    Hex64(id) && id != spine.admitted.id && id != spine.frontier.committed.id
  }

  ghost predicate Different(spine: Spine, a: Role, b: Role) {
    spine.frontier.reservations[a] != spine.frontier.reservations[b]
  }

  ghost predicate SpineStands(spine: Spine) {
    && Named(spine.sprintId) && Named(spine.taskGraphId) && Named(spine.attemptId) && Named(spine.admissionId)
    && (forall role: Role :: ReservationStands(spine, role))
    && (forall a: Role, b: Role :: a != b ==> Different(spine, a, b))
    && Hex64(spine.admitted.id) && Hex64(spine.frontier.committed.id)
    && spine.admitted.id != spine.frontier.committed.id
    && 0 < spine.admitted.sequence < spine.frontier.committed.sequence
    && StagesStand(spine.frontier)
  }

  /** An event with the identity reserved for it, after every reached stage. */
  ghost predicate EventStands(spine: Spine, role: Role, event: Event) {
    event.id == spine.frontier.reservations[role] && event.sequence > LastSequence(spine.frontier)
  }

  ghost predicate TerminalStands(spine: Spine, t: TerminalSource) {
    && t.spine == spine && EventStands(spine, TerminalEvent, t.event)
    && t.observationId == spine.frontier.reservations[TerminalObservationId]
    && match t.observation
       case Exited(_) => true
       case Signaled(signal, _) => 1 <= signal <= 127
       case TimedOut => true
       case OutputLimitExceeded(limit, observed) => 0 < limit <= observed
       case RunnerCanceled(id) => id == spine.frontier.reservations[Control]
       case ProvenNoEffect(id, _) => id == t.observationId
       case Unknown(id, _) => id == t.observationId
  }

  ghost predicate EffectCutStands(spine: Spine, e: EffectCutSource) {
    && e.spine == spine && EventStands(spine, EffectCutEvent, e.event)
    && e.observationId == spine.frontier.reservations[EffectCutObservationId]
    && e.observation.identity == e.observationId
  }

  ghost predicate CustodyStands(spine: Spine, c: CustodySource) {
    && c.spine == spine && EventStands(spine, CustodyEvent, c.event)
    && c.observation.identity == spine.frontier.reservations[CustodyClosureReceipt]
  }

  /** A dedicated identity under Seatbelt on macOS, a cgroup under Bubblewrap on Linux. */
  ghost predicate OnePlatform(backend: CommandBackend, containment: Containment) {
    || (backend == MacOsDedicatedIdentity && containment == MacOsSeatbelt)
    || (backend == LinuxCgroupV2 && containment == LinuxBubblewrap)
  }

  ghost predicate CommandStands(spine: Spine, c: CommandCleanupSource) {
    && c.spine == spine && OnePlatform(c.backend, spine.frontier.containment)
    && EventStands(spine, CommandCleanupEvent, c.event)
    && c.domainId == spine.frontier.reservations[CommandAccountingDomain]
    && c.observationId == spine.frontier.reservations[CommandCleanupObservation]
    && match c.observation
       case ReapedEmpty(observed, _) => observed == 0
       case NoDomainCreatedBeforeEffect(observed, _) => observed == 0
       case SurvivorsPresent(observed, _) => observed > 0
       case Unknown(id, _) => id == c.observationId
  }

  ghost predicate ChildStands(spine: Spine, o: DirectChild, cleanup: nat) {
    && EventStands(spine, DirectChildEvent, o.event) && o.event.sequence < cleanup
    && o.observerId == spine.frontier.reservations[DirectChildObserver]
    && o.identity == spine.frontier.reservations[DirectChildObservation]
    && match o
       case Reaped(_, _, _, _, processId) => processId > 0
       case StillPresent(_, _, _, _, processId) => processId > 0
       case NotSpawned(_, _, _, _) => true
       case Unknown(_, _, _, _) => true
  }

  ghost predicate DomainStands(spine: Spine, o: RunnerDomain, cleanup: nat) {
    && EventStands(spine, RunnerDomainEvent, o.event) && o.event.sequence < cleanup
    && o.observerId == spine.frontier.reservations[RunnerDomainObserver]
    && o.identity == spine.frontier.reservations[RunnerDomainObservation]
    && match o
       case Empty(_, _, _, _, members) => members == 0
       case NotCreated(_, _, _, _, members) => members == 0
       case SurvivorsPresent(_, _, _, _, members) => members > 0
       case Unknown(_, _, _, _) => true
  }

  ghost predicate ShutdownStands(spine: Spine, d: Shutdown, cleanup: nat) {
    && d.requestId == spine.frontier.reservations[ShutdownRequest]
    && d.receiptId == spine.frontier.reservations[ShutdownReceipt]
    && LastSequence(spine.frontier) < d.acknowledged <= cleanup
  }

  ghost predicate RunnerStands(spine: Spine, r: RunnerCleanupSource) {
    && r.spine == spine && r.containment == spine.frontier.containment
    && EventStands(spine, RunnerCleanupEvent, r.event)
    && r.domainId == spine.frontier.reservations[RunnerAccountingDomain]
    && r.proofId == spine.frontier.reservations[RunnerCleanupProof]
    && ChildStands(spine, r.directChild, r.event.sequence) && DomainStands(spine, r.domain, r.event.sequence)
    && r.directChild.evidence != r.domain.evidence
    && (r.shutdown.Some? ==> ShutdownStands(spine, r.shutdown.value, r.event.sequence))
  }

  ghost predicate ControlStands(spine: Spine, c: ControlResolution) {
    && c.spine == spine && c.controlId == spine.frontier.reservations[Control]
    && match c
       case Authenticated(_, _, _, issued, observed) =>
         && EventStands(spine, ControlIssuedEvent, issued)
         && observed.id == spine.frontier.reservations[ControlObservedEvent] && observed.sequence > issued.sequence
       case UnmatchedAfterReconciliation(_, _, reconciliationId, through, reconciled) =>
         && reconciliationId == spine.frontier.reservations[ControlReconciliation]
         && reconciled.id == spine.frontier.reservations[ControlReconciledEvent]
         && LastSequence(spine.frontier) < through < reconciled.sequence
  }

  /** Every source that is there stands on the one spine. */
  ghost predicate InputsStand(i: Inputs) {
    && SpineStands(i.spine)
    && (i.terminal.Some? ==> TerminalStands(i.spine, i.terminal.value))
    && (i.effectCut.Some? ==> EffectCutStands(i.spine, i.effectCut.value))
    && (i.custody.Some? ==> CustodyStands(i.spine, i.custody.value))
    && (i.commandCleanup.Some? ==> CommandStands(i.spine, i.commandCleanup.value))
    && (i.runnerCleanup.Some? ==> RunnerStands(i.spine, i.runnerCleanup.value))
    && (i.control.Some? ==> ControlStands(i.spine, i.control.value))
  }

  // ---------- the chain of checks accepts exactly that ----------

  lemma {:induction false} HexExactly(id: Identifier)
    ensures Hex64(id) <==> CoreIdentity(id)
  {
  }

  lemma {:induction false} NamedExactly(id: Identifier)
    ensures Named(id) <==> BoundedIdentifier(id, 256)
  {
    BlankExactly(id);
    Utf8Exactly(id);
  }

  lemma {:induction false} LastIsReached(f: Frontier)
    ensures LastSequence(f) == f.ReachedSequence()
  {
  }

  lemma {:induction false} ReservationsExactly(spine: Spine)
    requires Hex64(spine.admitted.id) && Hex64(spine.frontier.committed.id)
    ensures ValidateReservations(spine.frontier.reservations).Pass?
            && UsedNowhere(spine.frontier.reservations, spine.admitted.id)
            && UsedNowhere(spine.frontier.reservations, spine.frontier.committed.id) <==>
      && (forall role: Role :: ReservationStands(spine, role))
      && (forall a: Role, b: Role :: a != b ==> Different(spine, a, b))
  {
    var m := spine.frontier.reservations;
    forall role: Role
      ensures ReservationStands(spine, role) <==>
        CoreReserved(m, role) && Unreserved(m, role, spine.admitted.id)
        && Unreserved(m, role, spine.frontier.committed.id)
    {
      HexExactly(m[role]);
    }
    forall a: Role, b: Role ensures Different(spine, a, b) <==> Apart(m, a, b) {
    }
  }

  lemma {:induction false} StagesExactly(f: Frontier)
    requires forall role: Role :: CoreReserved(f.reservations, role)
    ensures StagesStand(f) <==>
      f.LaunchCommitted?
      || (ValidateStage(f.reservations, CaptureAcquiredEvent, f.acquired, f.committed).Pass?
          && (f.CaptureAcquired?
              || (ValidateStage(f.reservations, InitializedEvent, f.initialized, f.acquired).Pass?
                  && (f.Initialized?
                      || ValidateStage(f.reservations, DispatchedEvent, f.dispatched, f.initialized).Pass?))))
  {
    var m := f.reservations;
    assert CoreReserved(m, CaptureAcquiredEvent) && CoreReserved(m, InitializedEvent)
      && CoreReserved(m, DispatchedEvent);
  }

  lemma {:induction false} FrontierExactly(spine: Spine)
    requires Hex64(spine.admitted.id)
    ensures ValidateFrontier(spine.frontier, spine.admitted).Pass? <==>
      && (forall role: Role :: ReservationStands(spine, role))
      && (forall a: Role, b: Role :: a != b ==> Different(spine, a, b))
      && Hex64(spine.frontier.committed.id) && spine.admitted.id != spine.frontier.committed.id
      && spine.admitted.sequence < spine.frontier.committed.sequence && StagesStand(spine.frontier)
  {
    var f := spine.frontier;
    HexExactly(f.committed.id);
    if Hex64(f.committed.id) {
      ReservationsExactly(spine);
      if ValidateReservations(f.reservations).Pass? {
        StagesExactly(f);
      }
    }
  }

  lemma {:induction false} SpineExactly(spine: Spine)
    ensures ValidateSpine(spine).Pass? <==> SpineStands(spine)
  {
    NamedExactly(spine.sprintId);
    NamedExactly(spine.taskGraphId);
    NamedExactly(spine.attemptId);
    NamedExactly(spine.admissionId);
    HexExactly(spine.admitted.id);
    if Hex64(spine.admitted.id) {
      FrontierExactly(spine);
    }
  }

  /** The reserved identity is well formed: it passes as a core identity and as a bounded one. */
  ghost predicate WellFormed(m: Reservations, role: Role) {
    CoreIdentity(m[role]) && BoundedIdentifier(m[role], 256)
  }

  lemma {:induction false} ReservedWellFormed(spine: Spine, role: Role)
    requires SpineStands(spine)
    ensures WellFormed(spine.frontier.reservations, role)
  {
    assert ReservationStands(spine, role);
    HexExactly(spine.frontier.reservations[role]);
    CoreIsBounded(spine.frontier.reservations[role], 256);
  }

  lemma {:induction false} RolesApart(spine: Spine, a: Role, b: Role)
    requires SpineStands(spine) && a != b
    ensures spine.frontier.reservations[a] != spine.frontier.reservations[b]
  {
    assert Different(spine, a, b);
  }

  lemma {:induction false} TerminalChecks(t: TerminalSource)
    requires ValidateSpine(t.spine).Pass? && WellFormed(t.spine.frontier.reservations, TerminalObservationId)
    requires WellFormed(t.spine.frontier.reservations, TerminalEvent)
    requires WellFormed(t.spine.frontier.reservations, Control)
    ensures ValidateTerminal(t).Pass? <==> TerminalStands(t.spine, t)
  {
    LastIsReached(t.spine.frontier);
  }

  lemma {:induction false} TerminalExactly(t: TerminalSource)
    ensures ValidateTerminal(t).Pass? <==> SpineStands(t.spine) && TerminalStands(t.spine, t)
  {
    SpineExactly(t.spine);
    if ValidateSpine(t.spine).Pass? {
      ReservedWellFormed(t.spine, TerminalObservationId);
      ReservedWellFormed(t.spine, TerminalEvent);
      ReservedWellFormed(t.spine, Control);
      TerminalChecks(t);
    }
  }

  lemma {:induction false} EffectCutChecks(e: EffectCutSource)
    requires ValidateSpine(e.spine).Pass? && WellFormed(e.spine.frontier.reservations, EffectCutObservationId)
    requires WellFormed(e.spine.frontier.reservations, EffectCutEvent)
    ensures ValidateEffectCut(e).Pass? <==> EffectCutStands(e.spine, e)
  {
    LastIsReached(e.spine.frontier);
  }

  lemma {:induction false} EffectCutExactly(e: EffectCutSource)
    ensures ValidateEffectCut(e).Pass? <==> SpineStands(e.spine) && EffectCutStands(e.spine, e)
  {
    SpineExactly(e.spine);
    if ValidateSpine(e.spine).Pass? {
      ReservedWellFormed(e.spine, EffectCutObservationId);
      ReservedWellFormed(e.spine, EffectCutEvent);
      EffectCutChecks(e);
    }
  }

  lemma {:induction false} CustodyChecks(c: CustodySource)
    requires ValidateSpine(c.spine).Pass? && WellFormed(c.spine.frontier.reservations, CustodyEvent)
    requires WellFormed(c.spine.frontier.reservations, CustodyClosureReceipt)
    ensures ValidateCustody(c).Pass? <==> CustodyStands(c.spine, c)
  {
    LastIsReached(c.spine.frontier);
  }

  lemma {:induction false} CustodyExactly(c: CustodySource)
    ensures ValidateCustody(c).Pass? <==> SpineStands(c.spine) && CustodyStands(c.spine, c)
  {
    SpineExactly(c.spine);
    if ValidateSpine(c.spine).Pass? {
      ReservedWellFormed(c.spine, CustodyEvent);
      ReservedWellFormed(c.spine, CustodyClosureReceipt);
      CustodyChecks(c);
    }
  }

  lemma {:induction false} CommandChecks(c: CommandCleanupSource)
    requires ValidateSpine(c.spine).Pass? && WellFormed(c.spine.frontier.reservations, CommandAccountingDomain)
    requires WellFormed(c.spine.frontier.reservations, CommandCleanupObservation)
    requires WellFormed(c.spine.frontier.reservations, CommandCleanupEvent)
    ensures ValidateCommandCleanup(c).Pass? <==> CommandStands(c.spine, c)
  {
    LastIsReached(c.spine.frontier);
  }

  lemma {:induction false} CommandExactly(c: CommandCleanupSource)
    ensures ValidateCommandCleanup(c).Pass? <==> SpineStands(c.spine) && CommandStands(c.spine, c)
  {
    SpineExactly(c.spine);
    if ValidateSpine(c.spine).Pass? {
      ReservedWellFormed(c.spine, CommandAccountingDomain);
      ReservedWellFormed(c.spine, CommandCleanupObservation);
      ReservedWellFormed(c.spine, CommandCleanupEvent);
      CommandChecks(c);
    }
  }

  /** The observer's identity is none of the runner's. */
  ghost predicate ObserverApart(m: Reservations, observer: Role) {
    && WellFormed(m, observer)
    && m[observer] != m[RunnerLaunch] && m[observer] != m[RunnerSession] && m[observer] != m[CommandRequest]
  }

  lemma {:induction false} ObserversApart(spine: Spine, observer: Role)
    requires SpineStands(spine) && observer in {DirectChildObserver, RunnerDomainObserver}
    ensures ObserverApart(spine.frontier.reservations, observer)
  {
    ReservedWellFormed(spine, observer);
    RolesApart(spine, observer, RunnerLaunch);
    RolesApart(spine, observer, RunnerSession);
    RolesApart(spine, observer, CommandRequest);
  }

  lemma {:induction false} ChildChecks(o: DirectChild, spine: Spine, cleanup: nat)
    requires ObserverApart(spine.frontier.reservations, DirectChildObserver)
    requires WellFormed(spine.frontier.reservations, DirectChildObservation)
    requires WellFormed(spine.frontier.reservations, DirectChildEvent)
    ensures ValidateDirectChild(o, spine, cleanup).Pass? <==> ChildStands(spine, o, cleanup)
  {
    LastIsReached(spine.frontier);
  }

  lemma {:induction false} ChildExactly(o: DirectChild, spine: Spine, cleanup: nat)
    requires SpineStands(spine)
    ensures ValidateDirectChild(o, spine, cleanup).Pass? <==> ChildStands(spine, o, cleanup)
  {
    ObserversApart(spine, DirectChildObserver);
    ReservedWellFormed(spine, DirectChildObservation);
    ReservedWellFormed(spine, DirectChildEvent);
    ChildChecks(o, spine, cleanup);
  }

  lemma {:induction false} DomainChecks(o: RunnerDomain, spine: Spine, cleanup: nat)
    requires ObserverApart(spine.frontier.reservations, RunnerDomainObserver)
    requires WellFormed(spine.frontier.reservations, RunnerDomainObservation)
    requires WellFormed(spine.frontier.reservations, RunnerDomainEvent)
    ensures ValidateRunnerDomain(o, spine, cleanup).Pass? <==> DomainStands(spine, o, cleanup)
  {
    LastIsReached(spine.frontier);
  }

  lemma {:induction false} DomainExactly(o: RunnerDomain, spine: Spine, cleanup: nat)
    requires SpineStands(spine)
    ensures ValidateRunnerDomain(o, spine, cleanup).Pass? <==> DomainStands(spine, o, cleanup)
  {
    ObserversApart(spine, RunnerDomainObserver);
    ReservedWellFormed(spine, RunnerDomainObservation);
    ReservedWellFormed(spine, RunnerDomainEvent);
    DomainChecks(o, spine, cleanup);
  }

  lemma {:induction false} ShutdownChecks(d: Shutdown, spine: Spine, cleanup: nat)
    requires WellFormed(spine.frontier.reservations, ShutdownRequest)
    requires WellFormed(spine.frontier.reservations, ShutdownReceipt)
    ensures ValidateShutdown(d, spine, cleanup).Pass? <==> ShutdownStands(spine, d, cleanup)
  {
    LastIsReached(spine.frontier);
  }

  lemma {:induction false} RunnerChecks(r: RunnerCleanupSource)
    requires ValidateSpine(r.spine).Pass? && WellFormed(r.spine.frontier.reservations, RunnerAccountingDomain)
    requires WellFormed(r.spine.frontier.reservations, RunnerCleanupProof)
    requires WellFormed(r.spine.frontier.reservations, RunnerCleanupEvent)
    requires r.spine.frontier.reservations[DirectChildObservation]
      != r.spine.frontier.reservations[RunnerDomainObservation]
    requires ValidateDirectChild(r.directChild, r.spine, r.event.sequence).Pass? <==>
      ChildStands(r.spine, r.directChild, r.event.sequence)
    requires ValidateRunnerDomain(r.domain, r.spine, r.event.sequence).Pass? <==>
      DomainStands(r.spine, r.domain, r.event.sequence)
    requires r.shutdown.Some? ==>
      (ValidateShutdown(r.shutdown.value, r.spine, r.event.sequence).Pass? <==>
       ShutdownStands(r.spine, r.shutdown.value, r.event.sequence))
    ensures ValidateRunnerCleanup(r).Pass? <==> RunnerStands(r.spine, r)
  {
    LastIsReached(r.spine.frontier);
  }

  lemma {:induction false} RunnerExactly(r: RunnerCleanupSource)
    ensures ValidateRunnerCleanup(r).Pass? <==> SpineStands(r.spine) && RunnerStands(r.spine, r)
  {
    SpineExactly(r.spine);
    if ValidateSpine(r.spine).Pass? {
      ReservedWellFormed(r.spine, RunnerAccountingDomain);
      ReservedWellFormed(r.spine, RunnerCleanupProof);
      ReservedWellFormed(r.spine, RunnerCleanupEvent);
      ReservedWellFormed(r.spine, ShutdownRequest);
      ReservedWellFormed(r.spine, ShutdownReceipt);
      RolesApart(r.spine, DirectChildObservation, RunnerDomainObservation);
      ChildExactly(r.directChild, r.spine, r.event.sequence);
      DomainExactly(r.domain, r.spine, r.event.sequence);
      if r.shutdown.Some? { ShutdownChecks(r.shutdown.value, r.spine, r.event.sequence); }
      RunnerChecks(r);
    }
  }

  /** No event up to the frontier has a later sequence than the last stage. */
  lemma {:induction false} PriorEarlier(spine: Spine)
    requires spine.admitted.sequence < spine.frontier.committed.sequence && StagesStand(spine.frontier)
    ensures forall s :: s > LastSequence(spine.frontier) ==> !HoldsSequence(PriorEvents(spine), s)
  {
    var prior := PriorEvents(spine);
    forall k | 0 <= k < |prior| ensures prior[k].sequence <= LastSequence(spine.frontier) {
    }
  }

  /** An identity that neither the authority, the launch nor a stage carries. */
  ghost predicate NotPrior(spine: Spine, id: Identifier) {
    var m := spine.frontier.reservations;
    && id != spine.admitted.id && id != spine.frontier.committed.id
    && id != m[CaptureAcquiredEvent] && id != m[InitializedEvent] && id != m[DispatchedEvent]
  }

  lemma {:induction false} PriorWithout(spine: Spine, id: Identifier)
    requires StagesStand(spine.frontier) && NotPrior(spine, id)
    ensures !HoldsId(PriorEvents(spine), id)
  {
  }

  lemma {:induction false} ControlNotPrior(spine: Spine, role: Role)
    requires SpineStands(spine) && role in {Control, ControlIssuedEvent, ControlObservedEvent}
    ensures !HoldsId(PriorEvents(spine), spine.frontier.reservations[role])
  {
    assert ReservationStands(spine, role);
    RolesApart(spine, role, CaptureAcquiredEvent);
    RolesApart(spine, role, InitializedEvent);
    RolesApart(spine, role, DispatchedEvent);
    PriorWithout(spine, spine.frontier.reservations[role]);
  }

  lemma {:induction false} AuthenticatedChecks(c: ControlResolution)
    requires c.Authenticated? && ValidateSpine(c.spine).Pass? && WellFormed(c.spine.frontier.reservations, Control)
    requires WellFormed(c.spine.frontier.reservations, ControlIssuedEvent)
    requires WellFormed(c.spine.frontier.reservations, ControlObservedEvent)
    requires var m, prior := c.spine.frontier.reservations, PriorEvents(c.spine);
      && m[Control] != m[ControlIssuedEvent] && m[Control] != m[ControlObservedEvent]
      && m[ControlIssuedEvent] != m[ControlObservedEvent] && !HoldsId(prior, m[Control])
      && !HoldsId(prior, m[ControlIssuedEvent]) && !HoldsId(prior, m[ControlObservedEvent])
      && forall s :: s > LastSequence(c.spine.frontier) ==> !HoldsSequence(prior, s)
    ensures ValidateControl(c).Pass? <==> ControlStands(c.spine, c)
  {
    LastIsReached(c.spine.frontier);
  }

  lemma {:induction false} UnmatchedChecks(c: ControlResolution)
    requires c.UnmatchedAfterReconciliation? && ValidateSpine(c.spine).Pass?
    requires WellFormed(c.spine.frontier.reservations, Control)
    requires WellFormed(c.spine.frontier.reservations, ControlReconciliation)
    requires WellFormed(c.spine.frontier.reservations, ControlReconciledEvent)
    requires var m := c.spine.frontier.reservations;
      && m[Control] != m[ControlReconciliation] && m[Control] != m[ControlReconciledEvent]
      && m[ControlReconciliation] != m[ControlReconciledEvent]
    ensures ValidateControl(c).Pass? <==> ControlStands(c.spine, c)
  {
    LastIsReached(c.spine.frontier);
  }

  lemma {:induction false} AuthenticatedExactly(c: ControlResolution)
    requires c.Authenticated? && SpineStands(c.spine) && ValidateSpine(c.spine).Pass?
    ensures ValidateControl(c).Pass? <==> ControlStands(c.spine, c)
  {
    ReservedWellFormed(c.spine, Control);
    ReservedWellFormed(c.spine, ControlIssuedEvent);
    ReservedWellFormed(c.spine, ControlObservedEvent);
    RolesApart(c.spine, Control, ControlIssuedEvent);
    RolesApart(c.spine, Control, ControlObservedEvent);
    RolesApart(c.spine, ControlIssuedEvent, ControlObservedEvent);
    ControlNotPrior(c.spine, Control);
    ControlNotPrior(c.spine, ControlIssuedEvent);
    ControlNotPrior(c.spine, ControlObservedEvent);
    PriorEarlier(c.spine);
    AuthenticatedChecks(c);
  }

  lemma {:induction false} UnmatchedExactly(c: ControlResolution)
    requires c.UnmatchedAfterReconciliation? && SpineStands(c.spine) && ValidateSpine(c.spine).Pass?
    ensures ValidateControl(c).Pass? <==> ControlStands(c.spine, c)
  {
    ReservedWellFormed(c.spine, Control);
    ReservedWellFormed(c.spine, ControlReconciliation);
    ReservedWellFormed(c.spine, ControlReconciledEvent);
    RolesApart(c.spine, Control, ControlReconciliation);
    RolesApart(c.spine, Control, ControlReconciledEvent);
    RolesApart(c.spine, ControlReconciliation, ControlReconciledEvent);
    UnmatchedChecks(c);
  }

  lemma {:induction false} ControlExactly(c: ControlResolution)
    ensures ValidateControl(c).Pass? <==> SpineStands(c.spine) && ControlStands(c.spine, c)
  {
    SpineExactly(c.spine);
    if ValidateSpine(c.spine).Pass? {
      if c.Authenticated? {
        AuthenticatedExactly(c);
      } else {
        UnmatchedExactly(c);
      }
    }
  }

  lemma {:induction false} TerminalOnSpine(i: Inputs)
    requires SpineStands(i.spine) && i.terminal.Some?
    ensures ValidateTerminal(i.terminal.value).Pass? && i.terminal.value.spine == i.spine <==>
      TerminalStands(i.spine, i.terminal.value)
  {
    TerminalExactly(i.terminal.value);
  }

  lemma {:induction false} EffectCutOnSpine(i: Inputs)
    requires SpineStands(i.spine) && i.effectCut.Some?
    ensures ValidateEffectCut(i.effectCut.value).Pass? && i.effectCut.value.spine == i.spine <==>
      EffectCutStands(i.spine, i.effectCut.value)
  {
    EffectCutExactly(i.effectCut.value);
  }

  lemma {:induction false} CustodyOnSpine(i: Inputs)
    requires SpineStands(i.spine) && i.custody.Some?
    ensures ValidateCustody(i.custody.value).Pass? && i.custody.value.spine == i.spine <==>
      CustodyStands(i.spine, i.custody.value)
  {
    CustodyExactly(i.custody.value);
  }

  lemma {:induction false} CommandOnSpine(i: Inputs)
    requires SpineStands(i.spine) && i.commandCleanup.Some?
    ensures ValidateCommandCleanup(i.commandCleanup.value).Pass? && i.commandCleanup.value.spine == i.spine <==>
      CommandStands(i.spine, i.commandCleanup.value)
  {
    CommandExactly(i.commandCleanup.value);
  }

  lemma {:induction false} RunnerOnSpine(i: Inputs)
    requires SpineStands(i.spine) && i.runnerCleanup.Some?
    ensures ValidateRunnerCleanup(i.runnerCleanup.value).Pass? && i.runnerCleanup.value.spine == i.spine <==>
      RunnerStands(i.spine, i.runnerCleanup.value)
  {
    RunnerExactly(i.runnerCleanup.value);
  }

  lemma {:induction false} EffectSourcesExactly(i: Inputs)
    requires SpineStands(i.spine)
    ensures ValidateEffectSources(i).Pass? <==>
      && (i.terminal.Some? ==> TerminalStands(i.spine, i.terminal.value))
      && (i.effectCut.Some? ==> EffectCutStands(i.spine, i.effectCut.value))
      && (i.custody.Some? ==> CustodyStands(i.spine, i.custody.value))
  {
    if i.terminal.Some? { TerminalOnSpine(i); }
    if i.effectCut.Some? { EffectCutOnSpine(i); }
    if i.custody.Some? { CustodyOnSpine(i); }
  }

  lemma {:induction false} CleanupSourcesExactly(i: Inputs)
    requires SpineStands(i.spine)
    ensures ValidateCleanupSources(i).Pass? <==>
      && (i.commandCleanup.Some? ==> CommandStands(i.spine, i.commandCleanup.value))
      && (i.runnerCleanup.Some? ==> RunnerStands(i.spine, i.runnerCleanup.value))
  {
    if i.commandCleanup.Some? { CommandOnSpine(i); }
    if i.runnerCleanup.Some? { RunnerOnSpine(i); }
  }

  /** The validation accepts exactly the evidence whose fields stand as listed above. */
  lemma {:induction false} InputsExactly(i: Inputs)
    ensures ValidateInputs(i).Pass? <==> InputsStand(i)
  {
    SpineExactly(i.spine);
    if SpineStands(i.spine) {
      EffectSourcesExactly(i);
      CleanupSourcesExactly(i);
      if i.control.Some? { ControlExactly(i.control.value); }
    }
  }
}
