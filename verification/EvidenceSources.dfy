/**
 * Final-verification evidence: identity spine, frontier, sources and their validation
 * (current_final_verification_evidence.rs).
 */
module EvidenceSources {
  import opened Outcomes
  import opened Identifiers

  type DigestText = string

  /** The 49 lifecycle identities reserved at launch, in schema order. */
  datatype Role =
    | RunnerLaunch | RunnerSession | Effect | Capture | CaptureIntent | Dispatch | CommandRequest | EffectIdempotencyKey
    | NativePreparationAttempt | NativeJournal | NativeCleanupEffect | NativePreparationReceipt | NativeReleaseReceipt
    | NativeCleanupReceipt
    | CaptureAcquiredEvent | InitializedEvent | DispatchedEvent | ControlIssuedEvent | ControlObservedEvent
    | ControlReconciledEvent | TerminalEvent | EffectCutEvent | CustodyEvent | CommandCleanupEvent | DirectChildEvent
    | RunnerDomainEvent | RunnerCleanupEvent | ClosureEvent | OutcomeEvent
    | InitializationRequest | InitializationReceipt | Control | ControlReconciliation | TerminalObservationId
    | EffectCutObservationId | ShutdownRequest | ShutdownReceipt | CommandAccountingDomain | CommandCleanupObservation
    | RunnerAccountingDomain | DirectChildObserver | DirectChildObservation | RunnerDomainObserver
    | RunnerDomainObservation | CustodyClosureReceipt | RunnerCleanupProof | EvidenceClosure | OutcomeId
    | VerificationReceipt

  /** One identity per role. */
  type Reservations = m: map<Role, Identifier> | forall role: Role :: role in m
    witness map role: Role | true :: ""

  datatype Event = Event(id: Identifier, sequence: nat)

  datatype Containment = MacOsSeatbelt | LinuxBubblewrap
  datatype CommandBackend = MacOsDedicatedIdentity | LinuxCgroupV2

  /** How far the attempt got; each stage retains its whole prefix. */
  datatype Frontier =
    | LaunchCommitted(reservations: Reservations, containment: Containment, committed: Event)
    | CaptureAcquired(reservations: Reservations, containment: Containment, committed: Event, acquired: Event)
    | Initialized(reservations: Reservations, containment: Containment, committed: Event, acquired: Event,
                  initialized: Event)
    | Dispatched(reservations: Reservations, containment: Containment, committed: Event, acquired: Event,
                 initialized: Event,
                 dispatched: Event)
  {
    /** The durable events of the reached stages, in lifecycle order. */
    function Events(): (events: seq<Event>)
      ensures events != []
    {
      [committed]
      + (if LaunchCommitted? then [] else [acquired])
      + (if Initialized? || Dispatched? then [initialized] else [])
      + (if Dispatched? then [dispatched] else [])
    }

    function ReachedSequence(): nat {
      Events()[|Events()| - 1].sequence
    }
  }

  /** `commitments` stands for every digest that is only compared for equality. */
  datatype Spine = Spine(
    sprintId: Identifier, taskGraphId: Identifier, attemptId: Identifier, admissionId: Identifier,
    commitments: seq<DigestText>, admitted: Event, frontier: Frontier)

  datatype TerminalObservation =
    | Exited(exitCode: nat)
    | Signaled(signal: nat, coreDumped: bool)
    | TimedOut
    | OutputLimitExceeded(limitBytes: nat, observedAtLeastBytes: nat)
    | RunnerCanceled(claimedControlId: Identifier)
    | ProvenNoEffect(proofId: Identifier, proofDigest: DigestText)
    | Unknown(reconciliationId: Identifier, evidenceDigest: DigestText)

  datatype EffectCut =
    | ProvenNoEffect(identity: Identifier, proofDigest: DigestText)
    | EffectStarted(identity: Identifier)
    | Unknown(identity: Identifier, evidenceDigest: DigestText)

  datatype AbandonmentReason = FailedBeforeEffect | CanceledBeforeEffect

  datatype Custody =
    | PublishedClean(identity: Identifier, artifacts: seq<DigestText>)
    | AbandonedSensitive(identity: Identifier, digests: seq<DigestText>)
    | AbandonedBeforeEffect(identity: Identifier, digests: seq<DigestText>, reason: AbandonmentReason)
    | ClosedBeforeCapture(identity: Identifier, digests: seq<DigestText>)
    | Unknown(identity: Identifier, digests: seq<DigestText>)

  datatype CommandCleanup =
    | ReapedEmpty(observedProcesses: nat, evidence: DigestText)
    | NoDomainCreatedBeforeEffect(observedProcesses: nat, evidence: DigestText)
    | SurvivorsPresent(observedProcesses: nat, evidence: DigestText)
    | Unknown(reconciliationId: Identifier, evidence: DigestText)

  datatype DirectChild =
    | Reaped(observerId: Identifier, identity: Identifier, event: Event, evidence: DigestText, processId: nat)
    | NotSpawned(observerId: Identifier, identity: Identifier, event: Event, evidence: DigestText)
    | StillPresent(observerId: Identifier, identity: Identifier, event: Event, evidence: DigestText, processId: nat)
    | Unknown(observerId: Identifier, identity: Identifier, event: Event, evidence: DigestText)

  datatype RunnerDomain =
    | Empty(observerId: Identifier, identity: Identifier, event: Event, evidence: DigestText, members: nat)
    | NotCreated(observerId: Identifier, identity: Identifier, event: Event, evidence: DigestText, members: nat)
    | SurvivorsPresent(observerId: Identifier, identity: Identifier, event: Event, evidence: DigestText, members: nat)
    | Unknown(observerId: Identifier, identity: Identifier, event: Event, evidence: DigestText)

  datatype Shutdown = Shutdown(requestId: Identifier, receiptId: Identifier, acknowledged: nat)

  datatype ControlAction = Pause | SteeringInterruption | Cancel

  datatype TerminalSource = TerminalSource(spine: Spine, observationId: Identifier, event: Event,
                                           observation: TerminalObservation)
  datatype EffectCutSource = EffectCutSource(spine: Spine, observationId: Identifier, event: Event,
                                             observation: EffectCut)
  datatype CustodySource = CustodySource(spine: Spine, event: Event, observation: Custody)
  datatype CommandCleanupSource = CommandCleanupSource(
    spine: Spine, backend: CommandBackend, domainId: Identifier, observationId: Identifier, event: Event,
    observation: CommandCleanup)
  datatype RunnerCleanupSource = RunnerCleanupSource(
    spine: Spine, containment: Containment, domainId: Identifier, proofId: Identifier, event: Event,
    directChild: DirectChild, domain: RunnerDomain, shutdown: Option<Shutdown>)
  datatype ControlResolution =
    | Authenticated(spine: Spine, controlId: Identifier, action: ControlAction, issued: Event, observed: Event)
    | UnmatchedAfterReconciliation(spine: Spine, controlId: Identifier, reconciliationId: Identifier, through: nat,
                                   reconciled: Event)

  datatype Inputs = Inputs(
    spine: Spine,
    terminal: Option<TerminalSource>,
    effectCut: Option<EffectCutSource>,
    custody: Option<CustodySource>,
    commandCleanup: Option<CommandCleanupSource>,
    runnerCleanup: Option<RunnerCleanupSource>,
    control: Option<ControlResolution>)

  // ---------- validation ----------

  datatype Fault =
    | InvalidIdentifier | InvalidEventOrder | InvalidObservation | CrossedIdentity | ReservationMismatch
    | NonCanonicalControls

  /** The outcome of a chain of checks; the first failure ends it. */
  datatype Check = Pass | Fail(fault: Fault) {
    predicate IsFailure() { Fail? }
    function PropagateFailure(): Check { this }
  }

  const MAX_IDENTIFIER_BYTES: nat := 256

  function Require(condition: bool, fault: Fault): Check {
    if condition then Pass else Fail(fault)
  }

  function RequireIdentifier(id: Identifier): Check {
    Require(BoundedIdentifier(id, MAX_IDENTIFIER_BYTES), InvalidIdentifier)
  }

  function RequireCore(id: Identifier): Check {
    Require(CoreIdentity(id), InvalidIdentifier)
  }

  function RequireReserved(id: Identifier, spine: Spine, role: Role): Check {
    Require(id == spine.frontier.reservations[role], ReservationMismatch)
  }

  function RequireAfterFrontier(sequence: nat, spine: Spine): Check {
    Require(sequence > spine.frontier.ReachedSequence(), InvalidEventOrder)
  }

  predicate CoreReserved(m: Reservations, role: Role) {
    CoreIdentity(m[role])
  }

  predicate Apart(m: Reservations, a: Role, b: Role) {
    m[a] != m[b]
  }

  predicate Unreserved(m: Reservations, role: Role, id: Identifier) {
    m[role] != id
  }

  predicate AllCore(m: Reservations) {
    forall role: Role :: CoreReserved(m, role)
  }

  predicate Injective(m: Reservations) {
    forall a: Role, b: Role :: a != b ==> Apart(m, a, b)
  }

  predicate UsedNowhere(m: Reservations, id: Identifier) {
    forall role: Role :: Unreserved(m, role, id)
  }

  function ValidateReservations(m: Reservations): Check {
    var core := AllCore(m);
    :- Require(core, InvalidIdentifier);
    Require(Injective(m), InvalidObservation)
  }

  /** A reached stage: its event carries the reserved identity and follows the stage before. */
  function ValidateStage(reservations: Reservations, role: Role, event: Event, previous: Event): Check {
    var reserved := reservations[role];
    :- RequireCore(event.id);
    :- Require(event.id == reserved, ReservationMismatch);
    Require(event.sequence > previous.sequence, InvalidEventOrder)
  }

  /** `validate_after`. */
  function ValidateFrontier(f: Frontier, authority: Event): Check {
    var m := f.reservations;
    :- ValidateReservations(m);
    :- RequireCore(f.committed.id);
    :- Require(authority.id != f.committed.id && UsedNowhere(m, authority.id)
               && UsedNowhere(m, f.committed.id), InvalidObservation);
    :- Require(f.committed.sequence > authority.sequence, InvalidEventOrder);
    if f.LaunchCommitted? then Pass
    else
      :- ValidateStage(m, CaptureAcquiredEvent, f.acquired, f.committed);
      if f.CaptureAcquired? then Pass
      else
        :- ValidateStage(m, InitializedEvent, f.initialized, f.acquired);
        if f.Initialized? then Pass
        else ValidateStage(m, DispatchedEvent, f.dispatched, f.initialized)
  }

  function ValidateSpine(spine: Spine): Check {
    var admitted := spine.admitted;
    :- RequireIdentifier(spine.sprintId);
    :- RequireIdentifier(spine.taskGraphId);
    :- RequireIdentifier(spine.attemptId);
    :- RequireIdentifier(spine.admissionId);
    :- RequireCore(admitted.id);
    :- Require(admitted.sequence != 0, InvalidEventOrder);
    ValidateFrontier(spine.frontier, admitted)
  }

  function PriorEvents(spine: Spine): seq<Event> {
    [spine.admitted] + spine.frontier.Events()
  }

  predicate HoldsId(events: seq<Event>, id: Identifier) {
    exists i :: 0 <= i < |events| && events[i].id == id
  }

  predicate HoldsSequence(events: seq<Event>, sequence: nat) {
    exists i :: 0 <= i < |events| && events[i].sequence == sequence
  }

  /** `validate_shape` of either control resolution. */
  function ValidateControl(c: ControlResolution): Check {
    var prior := PriorEvents(c.spine);
    :- ValidateSpine(c.spine);
    match c
    case Authenticated(spine, controlId, _, issued, observed) =>
      :- RequireCore(controlId);
      :- RequireCore(issued.id);
      :- RequireCore(observed.id);
      :- RequireReserved(controlId, spine, Control);
      :- RequireReserved(issued.id, spine, ControlIssuedEvent);
      :- RequireReserved(observed.id, spine, ControlObservedEvent);
      :- Require(controlId != issued.id && controlId != observed.id && issued.id != observed.id, NonCanonicalControls);
      :- Require(!HoldsId(prior, controlId) && !HoldsId(prior, issued.id) && !HoldsId(prior, observed.id),
                 NonCanonicalControls);
      Require(issued.sequence > spine.frontier.ReachedSequence() && !HoldsSequence(prior, issued.sequence)
              && !HoldsSequence(prior, observed.sequence) && observed.sequence > issued.sequence, InvalidEventOrder)
    case UnmatchedAfterReconciliation(spine, controlId, reconciliationId, through, reconciled) =>
      :- RequireCore(controlId);
      :- RequireCore(reconciliationId);
      :- RequireCore(reconciled.id);
      :- RequireReserved(controlId, spine, Control);
      :- RequireReserved(reconciliationId, spine, ControlReconciliation);
      :- RequireReserved(reconciled.id, spine, ControlReconciledEvent);
      :- Require(through > spine.frontier.ReachedSequence() && reconciled.sequence > through, InvalidEventOrder);
      Require(controlId != reconciliationId && controlId != reconciled.id && reconciliationId != reconciled.id,
              NonCanonicalControls)
  }

  function ValidateTerminalObservation(o: TerminalObservation): Check {
    match o
    case Signaled(signal, _) => Require(1 <= signal <= 127, InvalidObservation)
    case OutputLimitExceeded(limit, observed) => Require(limit != 0 && observed >= limit, InvalidObservation)
    case RunnerCanceled(id) => RequireIdentifier(id)
    case ProvenNoEffect(id, _) => RequireIdentifier(id)
    case Unknown(id, _) => RequireIdentifier(id)
    case _ => Pass
  }

  function ValidateTerminal(t: TerminalSource): Check {
    var spine := t.spine;
    :- ValidateSpine(spine);
    :- RequireCore(t.observationId);
    :- RequireCore(t.event.id);
    :- RequireReserved(t.observationId, spine, TerminalObservationId);
    :- RequireReserved(t.event.id, spine, TerminalEvent);
    :- RequireAfterFrontier(t.event.sequence, spine);
    :- ValidateTerminalObservation(t.observation);
    match t.observation
    case ProvenNoEffect(id, _) => Require(id == t.observationId, ReservationMismatch)
    case Unknown(id, _) => Require(id == t.observationId, ReservationMismatch)
    case RunnerCanceled(id) => RequireReserved(id, spine, Control)
    case _ => Pass
  }

  function ValidateEffectCut(e: EffectCutSource): Check {
    var spine := e.spine;
    :- ValidateSpine(spine);
    :- RequireCore(e.observationId);
    :- RequireCore(e.event.id);
    :- RequireReserved(e.observationId, spine, EffectCutObservationId);
    :- RequireReserved(e.event.id, spine, EffectCutEvent);
    :- RequireAfterFrontier(e.event.sequence, spine);
    :- RequireIdentifier(e.observation.identity);
    Require(e.observation.identity == e.observationId, ReservationMismatch)
  }

  function ValidateCustody(c: CustodySource): Check {
    var spine := c.spine;
    :- ValidateSpine(spine);
    :- RequireCore(c.event.id);
    :- RequireReserved(c.event.id, spine, CustodyEvent);
    :- RequireAfterFrontier(c.event.sequence, spine);
    :- RequireIdentifier(c.observation.identity);
    RequireReserved(c.observation.identity, spine, CustodyClosureReceipt)
  }

  predicate BackendMatches(command: CommandBackend, containment: Containment) {
    command.MacOsDedicatedIdentity? <==> containment.MacOsSeatbelt?
  }

  function ValidateCommandCleanup(c: CommandCleanupSource): Check {
    var spine := c.spine;
    :- ValidateSpine(spine);
    :- RequireCore(c.domainId);
    :- RequireCore(c.observationId);
    :- RequireCore(c.event.id);
    :- Require(BackendMatches(c.backend, spine.frontier.containment), ReservationMismatch);
    :- RequireReserved(c.domainId, spine, CommandAccountingDomain);
    :- RequireReserved(c.observationId, spine, CommandCleanupObservation);
    :- RequireReserved(c.event.id, spine, CommandCleanupEvent);
    :- RequireAfterFrontier(c.event.sequence, spine);
    match c.observation
    case ReapedEmpty(n, _) => Require(n == 0, InvalidObservation)
    case NoDomainCreatedBeforeEffect(n, _) => Require(n == 0, InvalidObservation)
    case SurvivorsPresent(n, _) => Require(n != 0, InvalidObservation)
    case Unknown(id, _) =>
      :- RequireIdentifier(id);
      Require(id == c.observationId, ReservationMismatch)
  }

  function RequireIndependentObserver(id: Identifier, spine: Spine, role: Role): Check {
    var m := spine.frontier.reservations;
    :- RequireCore(id);
    :- RequireReserved(id, spine, role);
    Require(id != m[RunnerLaunch] && id != m[RunnerSession]
            && id != m[CommandRequest], InvalidObservation)
  }

  function RequireWithin(sequence: nat, spine: Spine, cleanup: nat): Check {
    Require(spine.frontier.ReachedSequence() < sequence < cleanup, InvalidEventOrder)
  }

  function ValidateDirectChild(o: DirectChild, spine: Spine, cleanup: nat): Check {
    var event := o.event;
    :- RequireIndependentObserver(o.observerId, spine, DirectChildObserver);
    :- RequireCore(o.identity);
    :- RequireCore(event.id);
    :- RequireReserved(o.identity, spine, DirectChildObservation);
    :- RequireReserved(event.id, spine, DirectChildEvent);
    :- Require((o.Reaped? || o.StillPresent?) ==> o.processId != 0, InvalidObservation);
    RequireWithin(event.sequence, spine, cleanup)
  }

  function ValidateRunnerDomain(o: RunnerDomain, spine: Spine, cleanup: nat): Check {
    var event := o.event;
    :- RequireIndependentObserver(o.observerId, spine, RunnerDomainObserver);
    :- RequireCore(o.identity);
    :- RequireCore(event.id);
    :- RequireReserved(o.identity, spine, RunnerDomainObservation);
    :- RequireReserved(event.id, spine, RunnerDomainEvent);
    :- Require((o.Empty? || o.NotCreated? ==> o.members == 0) && (o.SurvivorsPresent? ==> o.members != 0),
               InvalidObservation);
    RequireWithin(event.sequence, spine, cleanup)
  }

  function ValidateShutdown(s: Shutdown, spine: Spine, cleanup: nat): Check {
    var acknowledged := s.acknowledged;
    :- RequireCore(s.requestId);
    :- RequireCore(s.receiptId);
    :- RequireReserved(s.requestId, spine, ShutdownRequest);
    :- RequireReserved(s.receiptId, spine, ShutdownReceipt);
    Require(spine.frontier.ReachedSequence() < acknowledged <= cleanup, InvalidEventOrder)
  }

  function ValidateRunnerCleanup(r: RunnerCleanupSource): Check {
    var spine := r.spine;
    :- ValidateSpine(spine);
    :- Require(r.containment == spine.frontier.containment, ReservationMismatch);
    :- RequireCore(r.domainId);
    :- RequireCore(r.proofId);
    :- RequireCore(r.event.id);
    :- RequireReserved(r.domainId, spine, RunnerAccountingDomain);
    :- RequireReserved(r.proofId, spine, RunnerCleanupProof);
    :- RequireReserved(r.event.id, spine, RunnerCleanupEvent);
    :- RequireAfterFrontier(r.event.sequence, spine);
    :- ValidateDirectChild(r.directChild, spine, r.event.sequence);
    :- ValidateRunnerDomain(r.domain, spine, r.event.sequence);
    :- Require(r.directChild.identity != r.domain.identity && r.directChild.evidence != r.domain.evidence,
               InvalidObservation);
    if r.shutdown.None? then Pass else ValidateShutdown(r.shutdown.value, spine, r.event.sequence)
  }

  function RequireSameSpine(observed: Spine, expected: Spine): Check {
    Require(observed == expected, CrossedIdentity)
  }

  /** An optional source: valid by itself, and on the expected spine. */
  function ValidateSource<S>(source: Option<S>, validate: S -> Check, spineOf: S -> Spine, expected: Spine): Check {
    if source.None? then Pass
    else
      :- validate(source.value);
      RequireSameSpine(spineOf(source.value), expected)
  }

  function ValidateEffectSources(i: Inputs): Check {
    var spine := i.spine;
    :- ValidateSource(i.terminal, ValidateTerminal, (t: TerminalSource) => t.spine, spine);
    :- ValidateSource(i.effectCut, ValidateEffectCut, (e: EffectCutSource) => e.spine, spine);
    ValidateSource(i.custody, ValidateCustody, (c: CustodySource) => c.spine, spine)
  }

  function ValidateCleanupSources(i: Inputs): Check {
    var spine := i.spine;
    :- ValidateSource(i.commandCleanup, ValidateCommandCleanup, (c: CommandCleanupSource) => c.spine, spine);
    ValidateSource(i.runnerCleanup, ValidateRunnerCleanup, (r: RunnerCleanupSource) => r.spine, spine)
  }

  /** `validate_inputs`. */
  function ValidateInputs(i: Inputs): Check {
    var spine := i.spine;
    :- ValidateSpine(spine);
    :- ValidateEffectSources(i);
    :- ValidateCleanupSources(i);
    ValidateSource(i.control, ValidateControl, (c: ControlResolution) => c.spine, spine)
  }
}
