/**
 * What validated evidence guarantees (current_final_verification_evidence.rs): reserved identities never clash, the
 * duplicate checks are about sequences alone, and every decided outcome, `Verified` among them, has an exact meaning.
 */
module EvidenceDerivation {
  import opened Outcomes
  import opened Identifiers
  import opened EvidenceSources
  import opened EvidenceClassification
  import opened EvidenceValidity

  predicate Valid(i: Inputs) {
    ValidateInputs(i).Pass?
  }

  // ---------- what validation guarantees ----------

  /** Whose identity an event carries. */
  datatype Owner = Authority | Launch | Lifecycle(role: Role)

  function IdentityOf(spine: Spine, owner: Owner): Identifier {
    match owner
    case Authority => spine.admitted.id
    case Launch => spine.frontier.committed.id
    case Lifecycle(role) => spine.frontier.reservations[role]
  }

  function FrontierOwners(f: Frontier): seq<Owner> {
    [Launch]
    + (if f.LaunchCommitted? then [] else [Lifecycle(CaptureAcquiredEvent)])
    + (if f.Initialized? || f.Dispatched? then [Lifecycle(InitializedEvent)] else [])
    + (if f.Dispatched? then [Lifecycle(DispatchedEvent)] else [])
  }

  /** Reservations are pairwise distinct, and none is used by the authority or launch event. */
  predicate ReservationsDistinct(spine: Spine) {
    && Injective(spine.frontier.reservations) && AllCore(spine.frontier.reservations)
    && UsedNowhere(spine.frontier.reservations, spine.admitted.id)
    && UsedNowhere(spine.frontier.reservations, spine.frontier.committed.id)
    && spine.admitted.id != spine.frontier.committed.id
  }

  /** The stages follow one another after the authority event. */
  predicate FrontierOrdered(f: Frontier, authority: nat) {
    && authority < f.committed.sequence
    && (!f.LaunchCommitted? ==> f.committed.sequence < f.acquired.sequence)
    && (f.Initialized? || f.Dispatched? ==> f.acquired.sequence < f.initialized.sequence)
    && (f.Dispatched? ==> f.initialized.sequence < f.dispatched.sequence)
  }

  /** The frontier's events carry the identities of their owners. */
  predicate FrontierOwned(spine: Spine) {
    var events, owners := spine.frontier.Events(), FrontierOwners(spine.frontier);
    |events| == |owners| && forall k :: 0 <= k < |events| ==> events[k].id == IdentityOf(spine, owners[k])
  }

  predicate SpineSound(spine: Spine) {
    ReservationsDistinct(spine) && FrontierOrdered(spine.frontier, spine.admitted.sequence) && FrontierOwned(spine)
  }

  lemma {:induction false} SpineDistinct(spine: Spine)
    requires ValidateSpine(spine).Pass?
    ensures ReservationsDistinct(spine) && FrontierOrdered(spine.frontier, spine.admitted.sequence)
  {
  }

  /** Each reached stage carries the identity reserved for it. */
  predicate StagesReserved(f: Frontier) {
    && (!f.LaunchCommitted? ==> f.acquired.id == f.reservations[CaptureAcquiredEvent])
    && (f.Initialized? || f.Dispatched? ==> f.initialized.id == f.reservations[InitializedEvent])
    && (f.Dispatched? ==> f.dispatched.id == f.reservations[DispatchedEvent])
  }

  lemma {:induction false} SpineReserved(spine: Spine)
    requires ValidateSpine(spine).Pass?
    ensures StagesReserved(spine.frontier)
  {
  }

  lemma {:induction false} SpineOwned(spine: Spine)
    requires StagesReserved(spine.frontier)
    ensures FrontierOwned(spine)
  {
  }

  /** A valid spine reserves distinct identities, orders its stages, and spends the reserved ones on them. */
  lemma {:induction false} ValidSpineSound(spine: Spine)
    requires ValidateSpine(spine).Pass?
    ensures SpineSound(spine)
  {
    SpineDistinct(spine);
    SpineReserved(spine);
    SpineOwned(spine);
  }

  /** An event of a valid source: its identity is the one reserved for its role, and it follows the frontier. */
  predicate Reserved(spine: Spine, event: Event, role: Role) {
    event.id == spine.frontier.reservations[role] && event.sequence > spine.frontier.ReachedSequence()
  }

  predicate EffectSourcesReserved(i: Inputs)
    requires Complete(i)
  {
    && Reserved(i.spine, i.terminal.value.event, TerminalEvent)
    && Reserved(i.spine, i.effectCut.value.event, EffectCutEvent)
    && Reserved(i.spine, i.custody.value.event, CustodyEvent)
  }

  predicate CleanupSourcesReserved(i: Inputs)
    requires Complete(i)
  {
    && Reserved(i.spine, i.commandCleanup.value.event, CommandCleanupEvent)
    && Reserved(i.spine, i.runnerCleanup.value.directChild.event, DirectChildEvent)
    && Reserved(i.spine, i.runnerCleanup.value.domain.event, RunnerDomainEvent)
    && Reserved(i.spine, i.runnerCleanup.value.event, RunnerCleanupEvent)
    && i.runnerCleanup.value.directChild.event.sequence < i.runnerCleanup.value.event.sequence
    && i.runnerCleanup.value.domain.event.sequence < i.runnerCleanup.value.event.sequence
  }

  /** A canceled terminal claims the reserved control; a signal is in range. */
  predicate TerminalSound(spine: Spine, o: TerminalObservation) {
    && (o.RunnerCanceled? ==> o.claimedControlId == spine.frontier.reservations[Control])
    && (o.Signaled? ==> 1 <= o.signal <= 127)
  }

  /** Every identity of a control source is the one reserved for it. */
  predicate ControlSound(spine: Spine, c: ControlResolution) {
    && c.controlId == spine.frontier.reservations[Control] && CoreIdentity(c.controlId)
    && (c.Authenticated? ==>
      Reserved(spine, c.issued, ControlIssuedEvent) && Reserved(spine, c.observed, ControlObservedEvent))
    && (c.UnmatchedAfterReconciliation? ==>
          && Reserved(spine, c.reconciled, ControlReconciledEvent)
          && c.reconciliationId == spine.frontier.reservations[ControlReconciliation])
  }

  /** Everything that classification relies on. */
  predicate Sound(i: Inputs)
    requires Complete(i)
  {
    && SpineSound(i.spine) && EffectSourcesReserved(i) && CleanupSourcesReserved(i)
    && TerminalSound(i.spine, i.terminal.value.observation)
    && (i.control.Some? ==> ControlSound(i.spine, i.control.value))
  }

  lemma {:induction false} ValidTerminal(t: TerminalSource)
    requires ValidateTerminal(t).Pass?
    ensures Reserved(t.spine, t.event, TerminalEvent) && TerminalSound(t.spine, t.observation)
  {
  }

  lemma {:induction false} ValidEffectCut(e: EffectCutSource)
    requires ValidateEffectCut(e).Pass?
    ensures Reserved(e.spine, e.event, EffectCutEvent)
  {
  }

  lemma {:induction false} ValidCustody(c: CustodySource)
    requires ValidateCustody(c).Pass?
    ensures Reserved(c.spine, c.event, CustodyEvent)
  {
  }

  lemma {:induction false} ValidCommandCleanup(c: CommandCleanupSource)
    requires ValidateCommandCleanup(c).Pass?
    ensures Reserved(c.spine, c.event, CommandCleanupEvent)
  {
  }

  lemma {:induction false} ValidDirectChild(o: DirectChild, spine: Spine, cleanup: nat)
    requires ValidateDirectChild(o, spine, cleanup).Pass?
    ensures Reserved(spine, o.event, DirectChildEvent) && o.event.sequence < cleanup
  {
  }

  lemma {:induction false} ValidRunnerDomain(o: RunnerDomain, spine: Spine, cleanup: nat)
    requires ValidateRunnerDomain(o, spine, cleanup).Pass?
    ensures Reserved(spine, o.event, RunnerDomainEvent) && o.event.sequence < cleanup
  {
  }

  lemma {:induction false} ValidRunner(r: RunnerCleanupSource)
    requires ValidateRunnerCleanup(r).Pass?
    ensures Reserved(r.spine, r.event, RunnerCleanupEvent)
    ensures Reserved(r.spine, r.directChild.event, DirectChildEvent) && r.directChild.event.sequence < r.event.sequence
    ensures Reserved(r.spine, r.domain.event, RunnerDomainEvent) && r.domain.event.sequence < r.event.sequence
  {
    ValidDirectChild(r.directChild, r.spine, r.event.sequence);
    ValidRunnerDomain(r.domain, r.spine, r.event.sequence);
  }

  lemma {:induction false} ValidControl(c: ControlResolution)
    requires ValidateControl(c).Pass?
    ensures ControlSound(c.spine, c)
  {
  }

  lemma {:induction false} ValidEffectSources(i: Inputs)
    requires ValidateEffectSources(i).Pass? && Complete(i)
    ensures EffectSourcesReserved(i) && TerminalSound(i.spine, i.terminal.value.observation)
  {
    ValidTerminal(i.terminal.value);
    ValidEffectCut(i.effectCut.value);
    ValidCustody(i.custody.value);
  }

  lemma {:induction false} ValidCleanupSources(i: Inputs)
    requires ValidateCleanupSources(i).Pass? && Complete(i)
    ensures CleanupSourcesReserved(i)
  {
    ValidCommandCleanup(i.commandCleanup.value);
    ValidRunner(i.runnerCleanup.value);
  }

  /** Validated inputs are sound. */
  lemma {:induction false} ValidSound(i: Inputs)
    requires Valid(i) && Complete(i)
    ensures Sound(i)
  {
    ValidSpineSound(i.spine);
    ValidEffectSources(i);
    ValidCleanupSources(i);
    if i.control.Some? {
      ValidControl(i.control.value);
    }
  }

  // ---------- reserved identities never clash ----------

  /** Two places with equal values. */
  predicate Repeats<T(==)>(s: seq<T>) {
    exists k, l :: 0 <= k < l < |s| && s[k] == s[l]
  }

  lemma {:induction false} OwnersApart(spine: Spine, a: Owner, b: Owner)
    requires SpineSound(spine) && a != b
    ensures IdentityOf(spine, a) != IdentityOf(spine, b)
  {
    var m := spine.frontier.reservations;
    if a.Lifecycle? {
      assert Unreserved(m, a.role, spine.admitted.id) && Unreserved(m, a.role, spine.frontier.committed.id);
    }
    if b.Lifecycle? {
      assert Unreserved(m, b.role, spine.admitted.id) && Unreserved(m, b.role, spine.frontier.committed.id);
    }
    if a.Lifecycle? && b.Lifecycle? {
      assert Apart(m, a.role, b.role);
    }
  }

  function SourceOwners(): seq<Owner> {
    [Authority, Lifecycle(TerminalEvent), Lifecycle(EffectCutEvent), Lifecycle(CustodyEvent),
     Lifecycle(CommandCleanupEvent),
     Lifecycle(DirectChildEvent), Lifecycle(RunnerDomainEvent), Lifecycle(RunnerCleanupEvent)]
  }

  function EventOwners(f: Frontier): seq<Owner> {
    SourceOwners() + FrontierOwners(f)
  }

  lemma {:induction false} OwnersDistinct(f: Frontier)
    ensures !Repeats(EventOwners(f))
  {
  }

  lemma {:induction false} EventIdentities(i: Inputs)
    requires Complete(i) && Sound(i)
    ensures var ids, owners := Ids(AllEvents(i)), EventOwners(i.spine.frontier);
      |ids| == |owners| && forall k :: 0 <= k < |ids| ==> ids[k] == IdentityOf(i.spine, owners[k])
  {
  }

  /** The identity half of the joint duplicate check is always false: only sequences can clash. */
  lemma {:induction false} IdentitiesNeverRepeat(i: Inputs)
    requires Complete(i) && Sound(i)
    ensures !HasDuplicate(Ids(AllEvents(i)))
  {
    var ids, owners := Ids(AllEvents(i)), EventOwners(i.spine.frontier);
    EventIdentities(i);
    OwnersDistinct(i.spine.frontier);
    forall k, l | 0 <= k < l < |ids| ensures ids[k] != ids[l] {
      OwnersApart(i.spine, owners[k], owners[l]);
    }
  }

  /** So is the identity half of the lifecycle check. */
  lemma {:induction false} SourceIdentitiesNeverRepeat(i: Inputs)
    requires Complete(i) && Sound(i)
    ensures !HasDuplicate(Ids(SourceEvents(i)))
  {
    IdentitiesNeverRepeat(i);
    var all, part := Ids(AllEvents(i)), Ids(SourceEvents(i));
    forall k, l | 0 <= k < l < |part| ensures part[k] != part[l] {
      assert all[k + 1] == part[k] && all[l + 1] == part[l];
    }
  }

  /** An identity reserved for a role that no event carries is never among the event identities. */
  lemma {:induction false} OtherRolesAbsent(i: Inputs, role: Role)
    requires Complete(i) && Sound(i) && !Carried(Lifecycle(role))
    ensures i.spine.frontier.reservations[role] !in Ids(AllEvents(i))
  {
    EventIdentities(i);
    OwnersCarried(i.spine.frontier);
    var ids, owners := Ids(AllEvents(i)), EventOwners(i.spine.frontier);
    forall k | 0 <= k < |ids| ensures ids[k] != i.spine.frontier.reservations[role] {
      assert owners[k] in owners;
      OwnersApart(i.spine, owners[k], Lifecycle(role));
    }
  }

  /** Every lifecycle identity that an event can carry: none of them belongs to a control. */
  predicate Carried(owner: Owner) {
    owner.Lifecycle? ==>
      || owner.role.CaptureAcquiredEvent? || owner.role.InitializedEvent? || owner.role.DispatchedEvent?
      || owner.role.TerminalEvent? || owner.role.EffectCutEvent? || owner.role.CustodyEvent?
      || owner.role.CommandCleanupEvent? || owner.role.DirectChildEvent? || owner.role.RunnerDomainEvent?
      || owner.role.RunnerCleanupEvent?
  }

  lemma {:induction false} OwnersCarried(f: Frontier)
    ensures forall owner :: owner in EventOwners(f) ==> Carried(owner)
  {
    assert forall owner :: owner in SourceOwners() ==> Carried(owner);
    assert forall owner :: owner in FrontierOwners(f) ==> Carried(owner);
  }

  predicate ControlRole(role: Role) {
    || role.Control? || role.ControlIssuedEvent? || role.ControlObservedEvent? || role.ControlReconciliation?
    || role.ControlReconciledEvent?
  }

  /** None of the identities a control source uses is in the list. */
  predicate ControlUnseen(c: ControlResolution, ids: seq<Identifier>) {
    && c.controlId !in ids
    && (c.Authenticated? ==> c.issued.id !in ids && c.observed.id !in ids)
    && (c.UnmatchedAfterReconciliation? ==> c.reconciliationId !in ids && c.reconciled.id !in ids)
  }

  lemma {:induction false} ReservedUnseen(spine: Spine, c: ControlResolution, ids: seq<Identifier>)
    requires ControlSound(spine, c) && forall role: Role :: ControlRole(role) ==>
      spine.frontier.reservations[role] !in ids
    ensures ControlUnseen(c, ids)
  {
    assert ControlRole(Control) && ControlRole(ControlIssuedEvent) && ControlRole(ControlObservedEvent)
      && ControlRole(ControlReconciliation) && ControlRole(ControlReconciledEvent);
  }

  /** The control identities never clash with a lifecycle event either. */
  lemma {:induction false} ControlIdentitiesNeverClash(i: Inputs)
    requires Complete(i) && Sound(i) && i.control.Some?
    ensures ControlUnseen(i.control.value, Ids(AllEvents(i)))
  {
    forall role: Role | ControlRole(role) ensures i.spine.frontier.reservations[role] !in Ids(AllEvents(i)) {
      OtherRolesAbsent(i, role);
    }
    ReservedUnseen(i.spine, i.control.value, Ids(AllEvents(i)));
  }

  /** With identities out of the way, the joint check is about sequences alone. */
  predicate SequencesClash(i: Inputs)
    requires Complete(i)
  {
    || HasDuplicate(AllSequences(i))
    || (match i.control
        case None => false
        case Some(Authenticated(_, _, _, issued, observed)) =>
          issued.sequence in AllSequences(i) || observed.sequence in AllSequences(i)
        case Some(UnmatchedAfterReconciliation(_, _, _, _, reconciled)) => reconciled.sequence in AllSequences(i))
  }

  lemma {:induction false} SoundDuplicates(i: Inputs)
    requires Complete(i) && Sound(i)
    ensures LifecycleDuplicated(i) || ControlLifecycleDuplicated(i) <==> SequencesClash(i)
  {
    IdentitiesNeverRepeat(i);
    SourceIdentitiesNeverRepeat(i);
    if i.control.Some? {
      ControlIdentitiesNeverClash(i);
    }
    LifecycleWithinJoint(i);
  }

  /**
   * The identity halves of both duplicate checks are false: for validated inputs they say exactly that some sequence
   * is used twice.
   */
  lemma {:induction false} DuplicateChecksAreSequenceChecks(i: Inputs)
    requires Valid(i) && Complete(i)
    ensures !HasDuplicate(Ids(SourceEvents(i))) && !HasDuplicate(Ids(AllEvents(i)))
    ensures i.control.Some? ==> ControlUnseen(i.control.value, Ids(AllEvents(i)))
    ensures LifecycleDuplicated(i) || ControlLifecycleDuplicated(i) <==> SequencesClash(i)
  {
    ValidSound(i);
    IdentitiesNeverRepeat(i);
    SourceIdentitiesNeverRepeat(i);
    if i.control.Some? {
      ControlIdentitiesNeverClash(i);
    }
    SoundDuplicates(i);
  }

  /** Any sequence the lifecycle check finds twice, the joint check finds twice. */
  lemma {:induction false} LifecycleWithinJoint(i: Inputs)
    requires Complete(i)
    ensures HasDuplicate(Sequences(SourceEvents(i))) ==> HasDuplicate(AllSequences(i))
    ensures forall s :: s in Acknowledgement(i) && s in Sequences(SourceEvents(i)) ==> HasDuplicate(AllSequences(i))
  {
    var part, all := Sequences(SourceEvents(i)), AllSequences(i);
    assert forall k :: 0 <= k < |part| ==> all[k + 1] == part[k];
    if Repeats(part) {
      var k, l :| 0 <= k < l < |part| && part[k] == part[l];
      assert all[k + 1] == all[l + 1];
    }
    forall s | s in Acknowledgement(i) && s in part ensures Repeats(all) {
      var k :| 0 <= k < |part| && part[k] == s;
      assert all[k + 1] == all[|all| - 1] && k + 1 < |all| - 1;
    }
  }

  // ---------- checks that reservations make redundant ----------

  /** No event before a control carries an identity reserved for controls. */
  lemma {:induction false} PriorCarriesNoControl(spine: Spine, role: Role)
    requires SpineSound(spine) && role in {Control, ControlIssuedEvent, ControlObservedEvent}
    ensures !HoldsId(PriorEvents(spine), spine.frontier.reservations[role])
  {
    var prior, owners := PriorEvents(spine), [Authority] + FrontierOwners(spine.frontier);
    OwnersCarried(spine.frontier);
    forall k | 0 <= k < |prior| ensures prior[k].id != spine.frontier.reservations[role] {
      assert owners[k] in EventOwners(spine.frontier);
      OwnersApart(spine, owners[k], Lifecycle(role));
    }
  }

  /** The identities reserved for controls differ from one another and from everything before. */
  predicate ControlsApart(spine: Spine) {
    var m, prior := spine.frontier.reservations, PriorEvents(spine);
    && m[Control] != m[ControlIssuedEvent] && m[Control] != m[ControlObservedEvent]
    && m[ControlIssuedEvent] != m[ControlObservedEvent] && m[Control] != m[ControlReconciliation]
    && m[Control] != m[ControlReconciledEvent] && m[ControlReconciliation] != m[ControlReconciledEvent]
    && !HoldsId(prior, m[Control]) && !HoldsId(prior, m[ControlIssuedEvent]) && !HoldsId(prior, m[ControlObservedEvent])
  }

  lemma {:induction false} SoundControlsApart(spine: Spine)
    requires SpineSound(spine)
    ensures ControlsApart(spine)
  {
    PriorCarriesNoControl(spine, Control);
    PriorCarriesNoControl(spine, ControlIssuedEvent);
    PriorCarriesNoControl(spine, ControlObservedEvent);
    OwnersApart(spine, Lifecycle(Control), Lifecycle(ControlIssuedEvent));
    OwnersApart(spine, Lifecycle(Control), Lifecycle(ControlObservedEvent));
    OwnersApart(spine, Lifecycle(ControlIssuedEvent), Lifecycle(ControlObservedEvent));
    OwnersApart(spine, Lifecycle(Control), Lifecycle(ControlReconciliation));
    OwnersApart(spine, Lifecycle(Control), Lifecycle(ControlReconciledEvent));
    OwnersApart(spine, Lifecycle(ControlReconciliation), Lifecycle(ControlReconciledEvent));
  }

  /** A control source is never rejected for reused identities. */
  lemma {:induction false} ControlCanonical(c: ControlResolution)
    ensures ValidateControl(c) != Fail(NonCanonicalControls)
  {
    if ValidateSpine(c.spine).Pass? {
      ValidSpineSound(c.spine);
      SoundControlsApart(c.spine);
    } else {
      SpineFaults(c.spine);
    }
  }

  lemma {:induction false} SpineFaults(spine: Spine)
    ensures ValidateSpine(spine) != Fail(NonCanonicalControls)
  {
  }

  lemma {:induction false} RunnerFaults(r: RunnerCleanupSource)
    ensures ValidateRunnerCleanup(r) != Fail(NonCanonicalControls)
  {
    SpineFaults(r.spine);
  }

  lemma {:induction false} TerminalFaults(s: TerminalSource)
    ensures ValidateTerminal(s) != Fail(NonCanonicalControls)
  {
    SpineFaults(s.spine);
  }

  lemma {:induction false} EffectCutFaults(s: EffectCutSource)
    ensures ValidateEffectCut(s) != Fail(NonCanonicalControls)
  {
    SpineFaults(s.spine);
  }

  lemma {:induction false} CustodyFaults(s: CustodySource)
    ensures ValidateCustody(s) != Fail(NonCanonicalControls)
  {
    SpineFaults(s.spine);
  }

  lemma {:induction false} CommandFaults(s: CommandCleanupSource)
    ensures ValidateCommandCleanup(s) != Fail(NonCanonicalControls)
  {
    SpineFaults(s.spine);
  }

  lemma {:induction false} EffectSourcesFaults(i: Inputs)
    ensures ValidateEffectSources(i) != Fail(NonCanonicalControls)
  {
    if i.terminal.Some? { TerminalFaults(i.terminal.value); }
    if i.effectCut.Some? { EffectCutFaults(i.effectCut.value); }
    if i.custody.Some? { CustodyFaults(i.custody.value); }
  }

  lemma {:induction false} CleanupSourcesFaults(i: Inputs)
    ensures ValidateCleanupSources(i) != Fail(NonCanonicalControls)
  {
    if i.commandCleanup.Some? { CommandFaults(i.commandCleanup.value); }
    if i.runnerCleanup.Some? { RunnerFaults(i.runnerCleanup.value); }
  }

  /** The error for reused control identities is never returned. */
  lemma {:induction false} ControlsAlwaysCanonical(i: Inputs)
    ensures ValidateInputs(i) != Fail(NonCanonicalControls)
  {
    SpineFaults(i.spine);
    EffectSourcesFaults(i);
    CleanupSourcesFaults(i);
    if i.control.Some? { ControlCanonical(i.control.value); }
  }

  /** An observer that matches its own reservation is never one of the runner's identities. */
  lemma {:induction false} ObserverAlwaysIndependent(id: Identifier, spine: Spine, role: Role)
    requires ValidateSpine(spine).Pass? && role in {DirectChildObserver, RunnerDomainObserver}
    ensures RequireIndependentObserver(id, spine, role) != Fail(InvalidObservation)
  {
    ValidSpineSound(spine);
    OwnersApart(spine, Lifecycle(role), Lifecycle(RunnerLaunch));
    OwnersApart(spine, Lifecycle(role), Lifecycle(RunnerSession));
    OwnersApart(spine, Lifecycle(role), Lifecycle(CommandRequest));
  }

  // ---------- the meaning of the outcomes ----------

  /** One timeline from authority to runner cleanup, with every recorded sequence used once. */
  predicate Timeline(i: Inputs)
    requires Complete(i) && i.spine.frontier.Dispatched?
  {
    var f, runner := i.spine.frontier, i.runnerCleanup.value;
    var command, child, domain := i.commandCleanup.value.event.sequence, runner.directChild.event.sequence,
      runner.domain.event.sequence;
    && i.spine.admitted.sequence < f.committed.sequence < f.acquired.sequence
    && f.acquired.sequence < f.initialized.sequence < f.dispatched.sequence
    && f.dispatched.sequence < i.effectCut.value.event.sequence < i.terminal.value.event.sequence
    && i.terminal.value.event.sequence < i.custody.value.event.sequence < command
    && command < child < runner.event.sequence
    && command < domain < runner.event.sequence
    && child != domain
    && (runner.shutdown.Some? ==> runner.shutdown.value.acknowledged !in Sequences(AllEvents(i)))
  }

  lemma {:induction false} TimelineMeansNoClash(i: Inputs)
    requires Complete(i) && i.spine.frontier.Dispatched? && i.control.None? && Timeline(i)
    ensures !SequencesClash(i)
  {
  }

  /** Distinct sequences set the two observers and the acknowledgement apart from everything else. */
  lemma {:induction false} NoClashSeparates(i: Inputs)
    requires Complete(i) && !SequencesClash(i)
    ensures i.runnerCleanup.value.directChild.event.sequence != i.runnerCleanup.value.domain.event.sequence
    ensures i.runnerCleanup.value.shutdown.Some? ==>
      i.runnerCleanup.value.shutdown.value.acknowledged !in Sequences(AllEvents(i))
  {
    var all, events := AllSequences(i), Sequences(AllEvents(i));
    assert all[5] == i.runnerCleanup.value.directChild.event.sequence
      && all[6] == i.runnerCleanup.value.domain.event.sequence;
    if i.runnerCleanup.value.shutdown.Some? {
      assert all[|all| - 1] == i.runnerCleanup.value.shutdown.value.acknowledged;
      assert forall k :: 0 <= k < |events| ==> all[k] == events[k];
    }
  }

  /** For a started, dispatched attempt without control, the order checks accept exactly the strict timelines. */
  lemma {:induction false} OrderExactly(i: Inputs)
    requires Complete(i) && Sound(i) && i.spine.frontier.Dispatched? && i.control.None?
    requires i.effectCut.value.observation.EffectStarted?
    ensures OrderContradiction(i) <==> !Timeline(i)
  {
    SoundDuplicates(i);
    if Timeline(i) {
      TimelineMeansNoClash(i);
    } else if !SequencesClash(i) {
      NoClashSeparates(i);
    }
  }

  /** The attempt ran to a clean exit with nothing left behind and no control source. */
  predicate CleanRun(i: Inputs)
    requires Complete(i)
  {
    && i.spine.frontier.Dispatched?
    && i.effectCut.value.observation.EffectStarted?
    && i.terminal.value.observation == Exited(0)
    && i.custody.value.observation.PublishedClean?
    && i.commandCleanup.value.observation.ReapedEmpty?
    && i.runnerCleanup.value.directChild.Reaped?
    && i.runnerCleanup.value.domain.Empty?
    && i.control.None?
  }

  /**
   * What a control identity contradiction comes from: a canceled terminal, and a reconciliation that covers it
   * unmatched.
   */
  predicate UnmatchedCancel(i: Inputs)
    requires Complete(i)
  {
    && i.control.Some? && i.control.value.UnmatchedAfterReconciliation?
    && i.terminal.value.observation.RunnerCanceled? && i.control.value.through >= i.terminal.value.event.sequence
  }

  /** Nothing is unknown, the events are in order, and the process domains are as the frontier allows. */
  predicate Settled(i: Inputs)
    requires Complete(i)
  {
    PositiveUnknown(i).None? && !OrderContradiction(i) && CleanupFits(i)
  }

  lemma {:induction false} SoundContradiction(i: Inputs)
    requires Complete(i) && Sound(i)
    ensures Classify(i) == Ambiguous(ControlIdentityContradiction) <==> Settled(i) && UnmatchedCancel(i)
  {
    if Settled(i) {
      SettledContradiction(i);
    }
  }

  lemma {:induction false} SettledContradiction(i: Inputs)
    requires Complete(i) && Sound(i) && PositiveUnknown(i).None? && CleanupFits(i)
    ensures ClassifyOrdered(i) == Ambiguous(ControlIdentityContradiction) <==> UnmatchedCancel(i)
  {
    if i.terminal.value.observation.RunnerCanceled? {
      assert !Absent(i, ControlResolution);
      CancelContradiction(i);
    } else if i.control.None? {
      ObservedWithoutContradiction(i);
    }
  }

  lemma {:induction false} CancelContradiction(i: Inputs)
    requires Complete(i) && i.terminal.value.observation.RunnerCanceled?
    requires i.control.value.controlId == i.terminal.value.observation.claimedControlId
    ensures ClassifyCancel(i, i.terminal.value.observation.claimedControlId) == Ambiguous(ControlIdentityContradiction)
      <==> i.control.value.UnmatchedAfterReconciliation?
  {
  }

  lemma {:induction false} ObservedWithoutContradiction(i: Inputs)
    requires Complete(i)
    ensures var terminal, effect, custody := i.terminal.value.observation, i.effectCut.value.observation,
      i.custody.value.observation;
      ClassifyObservations(i.spine.frontier, terminal, effect, custody) != Ambiguous(ControlIdentityContradiction)
  {
  }

  /**
   * An authenticated control always names the canceled terminal's control: exactly a settled attempt whose
   * cancellation was reconciled unmatched contradicts its identity.
   */
  lemma {:induction false} IdentityContradictionIsUnmatched(i: Inputs)
    requires Valid(i) && Complete(i)
    ensures Classify(i) == Ambiguous(ControlIdentityContradiction) <==> Settled(i) && UnmatchedCancel(i)
  {
    ValidSound(i);
    SoundContradiction(i);
  }

  /** The effect began, and no control source was recorded. */
  predicate Uncontrolled(i: Inputs)
    requires Complete(i)
  {
    i.effectCut.value.observation.EffectStarted? && i.control.None?
  }

  /** The command ended by itself: by exit, signal, time or output limit. */
  predicate EndedByItself(o: TerminalObservation) {
    o.Exited? || o.Signaled? || o.TimedOut? || o.OutputLimitExceeded?
  }

  /** A canceled terminal under an authenticated control that was observed before it. */
  predicate Stopped(i: Inputs, controlId: Identifier)
    requires Complete(i)
  {
    && i.control.Some? && i.control.value.Authenticated? && i.control.value.controlId == controlId
    && i.terminal.value.observation.RunnerCanceled?
    && i.control.value.observed.sequence < i.terminal.value.event.sequence
  }

  /** The control came before any effect, and the output was given up for it. */
  predicate StoppedBeforeEffect(i: Inputs)
    requires Complete(i) && i.control.Some? && i.control.value.Authenticated?
  {
    && i.effectCut.value.observation.ProvenNoEffect?
    && i.control.value.observed.sequence < i.effectCut.value.event.sequence
    && (var custody := i.custody.value.observation;
      if i.spine.frontier.LaunchCommitted? then custody.ClosedBeforeCapture?
      else custody.AbandonedBeforeEffect? && custody.reason == CanceledBeforeEffect)
  }

  /** The observations that an outcome stands for. */
  predicate Means(i: Inputs, o: Outcome)
    requires Complete(i)
  {
    var terminal, effect, custody := i.terminal.value.observation, i.effectCut.value.observation,
      i.custody.value.observation;
    match o
    case Verified => Uncontrolled(i) && custody.PublishedClean? && terminal == Exited(0)
    case NonzeroExit(code) => Uncontrolled(i) && custody.PublishedClean? && terminal == Exited(code) && code != 0
    case Signaled(signal) => Uncontrolled(i) && custody.PublishedClean?
      && terminal == TerminalObservation.Signaled(signal, false)
    case TimedOut => Uncontrolled(i) && custody.PublishedClean? && terminal.TimedOut?
    case OutputLimitExceeded => Uncontrolled(i) && custody.PublishedClean? && terminal.OutputLimitExceeded?
    case SensitiveOutputRejected => Uncontrolled(i) && custody.AbandonedSensitive? && EndedByItself(terminal)
    case FailedBeforeEffect =>
      && terminal.ProvenNoEffect? && effect.ProvenNoEffect? && terminal.proofDigest == effect.proofDigest
      && i.control.None?
      && (if i.spine.frontier.LaunchCommitted? then custody.ClosedBeforeCapture?
          else custody.AbandonedBeforeEffect? && custody.reason == AbandonmentReason.FailedBeforeEffect)
    case ControlInterruptedBeforeEffect(id, action) =>
      Stopped(i, id) && i.control.value.action == action && !action.Cancel? && StoppedBeforeEffect(i)
    case Canceled(id) =>
      && Stopped(i, id) && i.control.value.action.Cancel?
      && (StoppedBeforeEffect(i) || (effect.EffectStarted? && (custody.PublishedClean? || custody.AbandonedSensitive?)))
    case Unknown(_) => false
  }

  lemma {:induction false} CancelDecision(i: Inputs, o: Outcome)
    requires Complete(i) && !o.Unknown? && i.terminal.value.observation.RunnerCanceled?
    requires i.control.value.controlId == i.terminal.value.observation.claimedControlId
    ensures ClassifyCancel(i, i.terminal.value.observation.claimedControlId) == o <==> Means(i, o)
  {
  }

  lemma {:induction false} ObservedDecision(i: Inputs, o: Outcome)
    requires Complete(i) && !o.Unknown? && PositiveUnknown(i).None?
    requires !i.terminal.value.observation.RunnerCanceled? && i.control.None?
    ensures var terminal, effect, custody := i.terminal.value.observation, i.effectCut.value.observation,
      i.custody.value.observation;
      ClassifyObservations(i.spine.frontier, terminal, effect, custody) == o <==> Means(i, o)
  {
  }

  lemma {:induction false} ControlledMeansNothing(i: Inputs, o: Outcome)
    requires Complete(i) && !i.terminal.value.observation.RunnerCanceled? && i.control.Some?
    ensures !Means(i, o)
  {
  }

  lemma {:induction false} SoundDecision(i: Inputs, o: Outcome)
    requires Complete(i) && Sound(i) && !o.Unknown?
    ensures Classify(i) == o <==> Settled(i) && Means(i, o)
  {
    if Settled(i) {
      if i.terminal.value.observation.RunnerCanceled? {
        assert !Absent(i, ControlResolution);
        CancelDecision(i, o);
      } else if i.control.Some? {
        ControlledMeansNothing(i, o);
      } else {
        ObservedDecision(i, o);
      }
    }
  }

  /** Every decided outcome stands for exactly one state of affairs, on a settled attempt. */
  lemma {:induction false} DecidedExactly(i: Inputs, o: Outcome)
    requires Valid(i) && Complete(i) && !o.Unknown?
    ensures Classify(i) == o <==> Settled(i) && Means(i, o)
  {
    ValidSound(i);
    SoundDecision(i, o);
  }

  lemma {:induction false} CleanRunSettles(i: Inputs)
    requires Complete(i)
    ensures CleanRun(i) <==> PositiveUnknown(i).None? && CleanupFits(i) && Means(i, Verified)
  {
  }

  /** `Verified` means exactly: a clean run, on one strict timeline in which no sequence is used twice. */
  lemma {:induction false} VerifiedExactly(i: Inputs)
    requires Valid(i) && Complete(i)
    ensures Classify(i) == Verified <==> CleanRun(i) && Timeline(i)
  {
    CleanRunSettles(i);
    ValidSound(i);
    SoundDecision(i, Verified);
    if CleanRun(i) {
      OrderExactly(i);
    }
  }

  /** The outcome record never rejects the outcome it is given. */
  lemma {:induction false} OutcomeAlwaysValid(i: Inputs)
    requires Valid(i) && Complete(i)
    ensures OutcomeValid(Classify(i))
  {
    ValidSound(i);
    SoundOutcome(i);
  }

  lemma {:induction false} SoundOutcome(i: Inputs)
    requires Complete(i) && Sound(i)
    ensures OutcomeValid(Classify(i))
  {
    if !Classify(i).Unknown? {
      SoundDecision(i, Classify(i));
    }
    if i.control.Some? {
      CoreIsBounded(i.control.value.controlId, MAX_IDENTIFIER_BYTES);
    }
  }

  // ---------- the derivation ----------

  datatype Derivation = NotReady(missing: seq<MissingSource>) | Derived(outcome: Outcome)

  /** `derive_non_authorizing_current_final_verification_evidence_v2`. */
  method Derive(i: Inputs) returns (r: Result<Derivation, Fault>)
    ensures r.Ok? <==> Valid(i)
    ensures r.Ok? <==> InputsStand(i)
    ensures r.Err? ==> r.error != NonCanonicalControls
    ensures r.Ok? && !Complete(i) ==> r.value.NotReady? && InSchemaOrder(r.value.missing)
    ensures r.Ok? && !Complete(i) ==> forall s :: s in r.value.missing <==> Absent(i, s)
    ensures r.Ok? && Complete(i) ==> r.value == Derived(Classify(i)) && OutcomeValid(r.value.outcome)
    ensures r.Ok? && Complete(i) ==> (r.value.outcome == Verified <==> CleanRun(i) && Timeline(i))
  {
    var checked := ValidateInputs(i);
    InputsExactly(i);
    if checked.Fail? {
      ControlsAlwaysCanonical(i);
      return Err(checked.fault);
    }
    var missing := MissingSources(i);
    if missing != [] {
      MissingInOrder(i);
      return Ok(NotReady(missing));
    }
    OutcomeAlwaysValid(i);
    VerifiedExactly(i);
    return Ok(Derived(Classify(i)));
  }
}
