/** Complete evidence of either platform is accepted and verified: the validation is not too strict. */
module EvidenceAcceptance {
  import opened Outcomes
  import opened Identifiers
  import opened EvidenceSources
  import opened EvidenceClassification
  import opened EvidenceValidity
  import opened EvidenceDerivation

  // ---------- fifty-one different identities ----------

  function Number(role: Role): (n: nat)
    ensures n < 49
  {
    match role
    case RunnerLaunch => 0 case RunnerSession => 1 case Effect => 2 case Capture => 3 case CaptureIntent => 4
    case Dispatch => 5 case CommandRequest => 6 case EffectIdempotencyKey => 7 case NativePreparationAttempt => 8
    case NativeJournal => 9 case NativeCleanupEffect => 10 case NativePreparationReceipt => 11
    case NativeReleaseReceipt => 12 case NativeCleanupReceipt => 13 case CaptureAcquiredEvent => 14
    case InitializedEvent => 15 case DispatchedEvent => 16 case ControlIssuedEvent => 17 case ControlObservedEvent => 18
    case ControlReconciledEvent => 19 case TerminalEvent => 20 case EffectCutEvent => 21 case CustodyEvent => 22
    case CommandCleanupEvent => 23 case DirectChildEvent => 24 case RunnerDomainEvent => 25
    case RunnerCleanupEvent => 26 case ClosureEvent => 27 case OutcomeEvent => 28 case InitializationRequest => 29
    case InitializationReceipt => 30 case Control => 31 case ControlReconciliation => 32
    case TerminalObservationId => 33 case EffectCutObservationId => 34 case ShutdownRequest => 35
    case ShutdownReceipt => 36 case CommandAccountingDomain => 37 case CommandCleanupObservation => 38
    case RunnerAccountingDomain => 39 case DirectChildObserver => 40 case DirectChildObservation => 41
    case RunnerDomainObserver => 42 case RunnerDomainObservation => 43 case CustodyClosureReceipt => 44
    case RunnerCleanupProof => 45 case EvidenceClosure => 46 case OutcomeId => 47 case VerificationReceipt => 48
  }

  /** The role with a number. */
  function RoleOf(n: nat): Role {
    if n < 17 then LowRole(n) else if n < 33 then MiddleRole(n) else HighRole(n)
  }

  function LowRole(n: nat): Role {
    if n == 0 then RunnerLaunch else if n == 1 then RunnerSession else if n == 2 then Effect else
    if n == 3 then Capture else if n == 4 then CaptureIntent else if n == 5 then Dispatch else
    if n == 6 then CommandRequest else if n == 7 then EffectIdempotencyKey else
    if n == 8 then NativePreparationAttempt else if n == 9 then NativeJournal else
    if n == 10 then NativeCleanupEffect else if n == 11 then NativePreparationReceipt else
    if n == 12 then NativeReleaseReceipt else if n == 13 then NativeCleanupReceipt else
    if n == 14 then CaptureAcquiredEvent else if n == 15 then InitializedEvent else DispatchedEvent
  }

  function MiddleRole(n: nat): Role {
    if n == 17 then ControlIssuedEvent else if n == 18 then ControlObservedEvent else
    if n == 19 then ControlReconciledEvent else if n == 20 then TerminalEvent else
    if n == 21 then EffectCutEvent else if n == 22 then CustodyEvent else
    if n == 23 then CommandCleanupEvent else if n == 24 then DirectChildEvent else
    if n == 25 then RunnerDomainEvent else if n == 26 then RunnerCleanupEvent else
    if n == 27 then ClosureEvent else if n == 28 then OutcomeEvent else
    if n == 29 then InitializationRequest else if n == 30 then InitializationReceipt else
    if n == 31 then Control else ControlReconciliation
  }

  function HighRole(n: nat): Role {
    if n == 33 then TerminalObservationId else if n == 34 then EffectCutObservationId else
    if n == 35 then ShutdownRequest else if n == 36 then ShutdownReceipt else
    if n == 37 then CommandAccountingDomain else if n == 38 then CommandCleanupObservation else
    if n == 39 then RunnerAccountingDomain else if n == 40 then DirectChildObserver else
    if n == 41 then DirectChildObservation else if n == 42 then RunnerDomainObserver else
    if n == 43 then RunnerDomainObservation else if n == 44 then CustodyClosureReceipt else
    if n == 45 then RunnerCleanupProof else if n == 46 then EvidenceClosure else if n == 47 then OutcomeId else
    VerificationReceipt
  }

  lemma {:induction false} LowNumbers(role: Role)
    requires Number(role) < 17
    ensures LowRole(Number(role)) == role
  {
  }

  lemma {:induction false} MiddleNumbers(role: Role)
    requires 17 <= Number(role) < 33
    ensures MiddleRole(Number(role)) == role
  {
  }

  lemma {:induction false} HighNumbers(role: Role)
    requires 33 <= Number(role)
    ensures HighRole(Number(role)) == role
  {
  }

  lemma {:induction false} RoleOfNumber(role: Role)
    ensures RoleOf(Number(role)) == role
  {
    if Number(role) < 17 {
      LowNumbers(role);
    } else if Number(role) < 33 {
      MiddleNumbers(role);
    } else {
      HighNumbers(role);
    }
  }

  lemma {:induction false} NumbersDiffer(a: Role, b: Role)
    requires a != b
    ensures Number(a) != Number(b)
  {
    RoleOfNumber(a);
    RoleOfNumber(b);
  }

  /** `n` ones and then zeros: 64 digits. */
  function Digits(n: nat): (id: Identifier)
    requires n <= 64
    ensures |id| == 64 && forall k :: 0 <= k < 64 ==> id[k] == if k < n then '1' else '0'
  {
    seq(64, k => if k < n then '1' else '0')
  }

  lemma {:induction false} DigitsDiffer(m: nat, n: nat)
    requires m < n <= 64
    ensures Digits(m) != Digits(n)
  {
    assert Digits(m)[m] != Digits(n)[m];
  }

  lemma {:induction false} DigitsStand(n: nat)
    requires n <= 64
    ensures Hex64(Digits(n)) && Named(Digits(n))
  {
    CoreIsBounded(Digits(n), 256);
    NamedExactly(Digits(n));
  }

  ghost function Reserved(): Reservations {
    map role: Role | true :: Digits(Number(role))
  }

  // ---------- a clean run ----------

  ghost function RunSpine(containment: Containment): Spine {
    Spine(Digits(49), Digits(49), Digits(49), Digits(49), [], Event(Digits(49), 1),
          Dispatched(Reserved(), containment, Event(Digits(50), 2), EventOf(CaptureAcquiredEvent, 3),
                     EventOf(InitializedEvent, 4), EventOf(DispatchedEvent, 5)))
  }

  ghost function EventOf(role: Role, sequence: nat): Event {
    Event(Digits(Number(role)), sequence)
  }

  ghost function Identity(role: Role): Identifier {
    Digits(Number(role))
  }

  ghost function CleanInputs(backend: CommandBackend, containment: Containment): Inputs {
    var spine := RunSpine(containment);
    Inputs(
      spine,
      Some(TerminalSource(spine, Identity(TerminalObservationId), EventOf(TerminalEvent, 7), Exited(0))),
      Some(EffectCutSource(spine, Identity(EffectCutObservationId), EventOf(EffectCutEvent, 6),
                           EffectStarted(Identity(EffectCutObservationId)))),
      Some(CustodySource(spine, EventOf(CustodyEvent, 8), PublishedClean(Identity(CustodyClosureReceipt), []))),
      Some(CommandCleanupSource(spine, backend, Identity(CommandAccountingDomain), Identity(CommandCleanupObservation),
                                EventOf(CommandCleanupEvent, 9), ReapedEmpty(0, "c"))),
      Some(RunnerCleanupSource(
        spine, containment, Identity(RunnerAccountingDomain), Identity(RunnerCleanupProof),
        EventOf(RunnerCleanupEvent, 12),
        Reaped(Identity(DirectChildObserver), Identity(DirectChildObservation), EventOf(DirectChildEvent, 10), "d", 1),
        Empty(Identity(RunnerDomainObserver), Identity(RunnerDomainObservation), EventOf(RunnerDomainEvent, 11), "e",
              0),
        None)),
      None)
  }

  lemma {:induction false} RunReserves(spine: Spine, role: Role)
    requires spine.frontier.reservations == Reserved()
    requires spine.admitted.id == Digits(49) && spine.frontier.committed.id == Digits(50)
    ensures ReservationStands(spine, role)
  {
    DigitsStand(Number(role));
    DigitsDiffer(Number(role), 49);
    DigitsDiffer(Number(role), 50);
  }

  lemma {:induction false} RunReservations(spine: Spine)
    requires spine.frontier.reservations == Reserved()
    requires spine.admitted.id == Digits(49) && spine.frontier.committed.id == Digits(50)
    ensures forall role: Role :: ReservationStands(spine, role)
    ensures forall a: Role, b: Role :: a != b ==> Different(spine, a, b)
  {
    forall role: Role ensures ReservationStands(spine, role) {
      RunReserves(spine, role);
    }
    forall a: Role, b: Role | a != b ensures Different(spine, a, b) {
      ReservedDiffer(a, b);
    }
  }

  lemma {:induction false} RunIdentities()
    ensures Named(Digits(49)) && Hex64(Digits(49)) && Hex64(Digits(50)) && Digits(49) != Digits(50)
  {
    DigitsStand(49);
    DigitsStand(50);
    DigitsDiffer(49, 50);
  }

  lemma {:induction false} RunStages(containment: Containment)
    ensures StagesStand(RunSpine(containment).frontier)
  {
  }

  lemma {:induction false} RunSpineStands(containment: Containment)
    ensures SpineStands(RunSpine(containment))
  {
    RunIdentities();
    RunStages(containment);
    RunReservations(RunSpine(containment));
  }

  lemma {:induction false} ReservedDiffer(a: Role, b: Role)
    requires a != b
    ensures Reserved()[a] != Reserved()[b]
  {
    NumbersDiffer(a, b);
    if Number(a) < Number(b) { DigitsDiffer(Number(a), Number(b)); } else { DigitsDiffer(Number(b), Number(a)); }
  }

  lemma {:induction false} CleanInputsStand(backend: CommandBackend, containment: Containment)
    requires OnePlatform(backend, containment)
    ensures InputsStand(CleanInputs(backend, containment)) && Complete(CleanInputs(backend, containment))
  {
    RunSpineStands(containment);
  }

  lemma {:induction false} CleanInputsTimeline(backend: CommandBackend, containment: Containment)
    ensures Complete(CleanInputs(backend, containment))
    ensures CleanRun(CleanInputs(backend, containment)) && Timeline(CleanInputs(backend, containment))
  {
  }

  /** Both platforms are accepted, each with its own backend: a clean run on either is valid, complete and verified. */
  lemma {:induction false} BothPlatformsVerified(containment: Containment)
    ensures exists i ::
      && Valid(i) && Complete(i) && Classify(i) == Verified && i.spine.frontier.containment == containment
      && i.commandCleanup.value.backend ==
        match containment case MacOsSeatbelt => MacOsDedicatedIdentity case LinuxBubblewrap => LinuxCgroupV2
  {
    var backend := match containment case MacOsSeatbelt => MacOsDedicatedIdentity case LinuxBubblewrap => LinuxCgroupV2;
    var i := CleanInputs(backend, containment);
    CleanInputsStand(backend, containment);
    InputsExactly(i);
    CleanInputsTimeline(backend, containment);
    VerifiedExactly(i);
  }
}
