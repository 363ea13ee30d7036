/** Which observations give which outcome, case by case (current_final_verification_evidence.rs). */
module EvidenceOutcomes {
  import opened Outcomes
  import opened EvidenceSources
  import opened EvidenceClassification
  import opened EvidenceValidity
  import opened EvidenceDerivation

  // ---------- settled attempts ----------

  /** The first three sources say what happened. */
  ghost predicate SourcesRead(i: Inputs)
    requires Complete(i)
  {
    && !i.terminal.value.observation.Unknown? && !i.effectCut.value.observation.Unknown?
    && !i.custody.value.observation.Unknown?
  }

  ghost predicate CommandRead(i: Inputs)
    requires Complete(i)
  {
    var command := i.commandCleanup.value.observation;
    SourcesRead(i) && (command.ReapedEmpty? || command.NoDomainCreatedBeforeEffect?)
  }

  ghost predicate ChildRead(i: Inputs)
    requires Complete(i)
  {
    var child := i.runnerCleanup.value.directChild;
    CommandRead(i) && (child.Reaped? || child.NotSpawned?)
  }

  ghost predicate DomainRead(i: Inputs)
    requires Complete(i)
  {
    var domain := i.runnerCleanup.value.domain;
    ChildRead(i) && (domain.Empty? || domain.NotCreated?)
  }

  ghost predicate DumpedCore(i: Inputs)
    requires Complete(i)
  {
    i.terminal.value.observation.Signaled? && i.terminal.value.observation.coreDumped
  }

  /** The sequences of the stages reached. */
  ghost function StageSequences(f: Frontier): seq<nat> {
    match f
    case LaunchCommitted(_, _, a) => [a.sequence]
    case CaptureAcquired(_, _, a, b) => [a.sequence, b.sequence]
    case Initialized(_, _, a, b, c) => [a.sequence, b.sequence, c.sequence]
    case Dispatched(_, _, a, b, c, d) => [a.sequence, b.sequence, c.sequence, d.sequence]
  }

  ghost function ControlSequences(c: Option<ControlResolution>): seq<nat> {
    match c
    case None => []
    case Some(Authenticated(_, _, _, issued, observed)) => [issued.sequence, observed.sequence]
    case Some(UnmatchedAfterReconciliation(_, _, _, _, reconciled)) => [reconciled.sequence]
  }

  /** Every sequence the evidence records. */
  ghost function Recorded(i: Inputs): seq<nat>
    requires Complete(i)
  {
    var runner := i.runnerCleanup.value;
    [i.spine.admitted.sequence, i.terminal.value.event.sequence, i.effectCut.value.event.sequence,
     i.custody.value.event.sequence, i.commandCleanup.value.event.sequence, runner.directChild.event.sequence,
     runner.domain.event.sequence, runner.event.sequence]
    + StageSequences(i.spine.frontier)
    + (if runner.shutdown.Some? then [runner.shutdown.value.acknowledged] else [])
    + ControlSequences(i.control)
  }

  ghost predicate AllDifferent(s: seq<nat>) {
    forall k, l :: 0 <= k < l < |s| ==> s[k] != s[l]
  }

  /** A started effect before the terminal, both before custody, then the command's cleanup, then the runner's three. */
  ghost predicate InOrder(i: Inputs)
    requires Complete(i)
  {
    var terminal, effect, custody := i.terminal.value.event.sequence, i.effectCut.value, i.custody.value.event.sequence;
    var command, runner := i.commandCleanup.value.event.sequence, i.runnerCleanup.value;
    && (effect.observation.EffectStarted? ==> effect.event.sequence < terminal)
    && terminal < custody && effect.event.sequence < custody && custody < command
    && command < runner.directChild.event.sequence && command < runner.domain.event.sequence
    && command < runner.event.sequence
    && AllDifferent(Recorded(i))
  }

  /** Processes exist only from capture on, and a command domain only from dispatch on. */
  ghost predicate DomainsFit(i: Inputs)
    requires Complete(i)
  {
    var f, effect, command := i.spine.frontier, i.effectCut.value.observation, i.commandCleanup.value.observation;
    var child, domain := i.runnerCleanup.value.directChild, i.runnerCleanup.value.domain;
    && (f.LaunchCommitted? ==> child.NotSpawned? && domain.NotCreated?)
    && (f.CaptureAcquired? ==> (child.NotSpawned? && domain.NotCreated?) || (child.Reaped? && domain.Empty?))
    && (f.Initialized? || f.Dispatched? ==> child.Reaped? && domain.Empty?)
    && (effect.EffectStarted? || effect.ProvenNoEffect?)
    && (effect.EffectStarted? ==> f.Dispatched? && command.ReapedEmpty?)
    && (effect.ProvenNoEffect? ==> command.NoDomainCreatedBeforeEffect? || (f.Dispatched? && command.ReapedEmpty?))
  }

  /** Everything is read, nothing dumped core, the events are in order and the domains fit. */
  ghost predicate SettledAs(i: Inputs)
    requires Complete(i)
  {
    DomainRead(i) && !DumpedCore(i) && InOrder(i) && DomainsFit(i)
  }

  lemma {:induction false} RecordedIs(i: Inputs)
    requires Complete(i)
    ensures Recorded(i) == AllSequences(i) + ControlSequences(i.control)
  {
    assert Sequences(AllEvents(i)) == Recorded(i)[..8] + StageSequences(i.spine.frontier);
  }

  lemma {:induction false} AppendDiffers(s: seq<nat>, t: seq<nat>)
    requires AllDifferent(t)
    ensures AllDifferent(s + t) <==> AllDifferent(s) && forall x :: x in t ==> x !in s
  {
    var all := s + t;
    if AllDifferent(all) {
      forall k, l | 0 <= k < l < |s| ensures s[k] != s[l] {
        assert all[k] != all[l];
      }
      forall k, l | 0 <= k < |s| && 0 <= l < |t| ensures s[k] != t[l] {
        assert all[k] != all[|s| + l];
      }
    } else {
      var k, l :| 0 <= k < l < |all| && all[k] == all[l];
      assert l >= |s| ==> t[l - |s|] in t;
    }
  }

  lemma {:induction false} DuplicateIsRepeat(s: seq<nat>)
    ensures HasDuplicate(s) <==> !AllDifferent(s)
  {
    if k, l :| 0 <= k < l < |s| && s[k] == s[l] {
      assert s[..l][k] == s[l];
    }
    if HasDuplicate(s) {
      var k :| 0 <= k < |s| && s[k] in s[..k];
      var j :| 0 <= j < k && s[..k][j] == s[k];
      assert s[j] == s[k];
    }
  }

  lemma {:induction false} ClashIsRepeat(i: Inputs)
    requires Complete(i) && AllDifferent(ControlSequences(i.control))
    ensures SequencesClash(i) <==> !AllDifferent(Recorded(i))
  {
    RecordedIs(i);
    DuplicateIsRepeat(AllSequences(i));
    AppendDiffers(AllSequences(i), ControlSequences(i.control));
    ControlInRecorded(i);
  }

  lemma {:induction false} ControlInRecorded(i: Inputs)
    requires Complete(i)
    ensures SequencesClash(i) <==>
      HasDuplicate(AllSequences(i)) || exists x :: x in ControlSequences(i.control) && x in AllSequences(i)
  {
    match i.control {
      case None =>
      case Some(Authenticated(_, _, _, issued, observed)) =>
        assert ControlSequences(i.control)[0] == issued.sequence && ControlSequences(i.control)[1] == observed.sequence;
      case Some(UnmatchedAfterReconciliation(_, _, _, _, reconciled)) =>
        assert ControlSequences(i.control)[0] == reconciled.sequence;
    }
  }

  lemma {:induction false} ValidControlOrder(i: Inputs)
    requires Valid(i)
    ensures AllDifferent(ControlSequences(i.control))
  {
    InputsExactly(i);
  }

  lemma {:induction false} OrderByClash(i: Inputs)
    requires Complete(i)
    requires LifecycleDuplicated(i) || ControlLifecycleDuplicated(i) <==> !AllDifferent(Recorded(i))
    ensures OrderContradiction(i) <==> !InOrder(i)
  {
  }

  lemma {:induction false} OrderedExactly(i: Inputs)
    requires Valid(i) && Complete(i)
    ensures OrderContradiction(i) <==> !InOrder(i)
  {
    DuplicateChecksAreSequenceChecks(i);
    ValidControlOrder(i);
    ClashIsRepeat(i);
    OrderByClash(i);
  }

  lemma {:induction false} FitsExactly(i: Inputs)
    requires Complete(i) && DomainRead(i)
    ensures CleanupFits(i) <==> DomainsFit(i)
  {
  }

  lemma {:induction false} ReadExactly(i: Inputs)
    requires Complete(i)
    ensures PositiveUnknown(i).None? <==> DomainRead(i) && !DumpedCore(i)
  {
  }

  lemma {:induction false} SettledExactly(i: Inputs)
    requires Valid(i) && Complete(i)
    ensures Settled(i) <==> SettledAs(i)
  {
    ReadExactly(i);
    OrderedExactly(i);
    if DomainRead(i) { FitsExactly(i); }
  }

  // ---------- why an outcome is unknown ----------

  /** The first source, in the order they are looked at, that is unreadable or shows something left behind. */
  ghost predicate Unreadable(i: Inputs, reason: UnknownReason)
    requires Complete(i)
  {
    var terminal, effect, custody := i.terminal.value.observation, i.effectCut.value.observation,
      i.custody.value.observation;
    match reason
    case TerminalSourceUnknown => terminal.Unknown?
    case EffectCutUnknown => !terminal.Unknown? && effect.Unknown?
    case OutputCustodyUnknown => !terminal.Unknown? && !effect.Unknown? && custody.Unknown?
    case CommandDomainSurvivorsPresent => SourcesRead(i) && i.commandCleanup.value.observation.SurvivorsPresent?
    case CommandDomainCleanupUnknown => SourcesRead(i) && i.commandCleanup.value.observation.Unknown?
    case RunnerDirectChildPresent => CommandRead(i) && i.runnerCleanup.value.directChild.StillPresent?
    case RunnerDirectChildUnknown => CommandRead(i) && i.runnerCleanup.value.directChild.Unknown?
    case RunnerDomainSurvivorsPresent => ChildRead(i) && i.runnerCleanup.value.domain.SurvivorsPresent?
    case RunnerDomainUnknown => ChildRead(i) && i.runnerCleanup.value.domain.Unknown?
    case CoreDumpObserved => DomainRead(i) && DumpedCore(i)
    case _ => false
  }

  lemma {:induction false} UnreadableExactly(i: Inputs, reason: UnknownReason)
    requires Complete(i)
    ensures PositiveUnknown(i) == Some(reason) <==> Unreadable(i, reason)
  {
  }

  /** The output was given up before any effect, for this reason, as the frontier calls for. */
  ghost predicate GivenUp(i: Inputs, reason: AbandonmentReason)
    requires Complete(i)
  {
    var custody := i.custody.value.observation;
    && (i.spine.frontier.LaunchCommitted? ==> custody.ClosedBeforeCapture?)
    && (!i.spine.frontier.LaunchCommitted? ==> custody.AbandonedBeforeEffect? && custody.reason == reason)
  }

  /** An authenticated control stopped the attempt: before any effect, or a running command by a cancel. */
  ghost predicate ControlStopped(i: Inputs)
    requires Complete(i) && i.control.Some? && i.control.value.Authenticated?
  {
    var control, effect, custody := i.control.value, i.effectCut.value, i.custody.value.observation;
    && control.observed.sequence < i.terminal.value.event.sequence
    && (|| (effect.observation.ProvenNoEffect? && control.observed.sequence < effect.event.sequence
            && GivenUp(i, CanceledBeforeEffect))
        || (control.action == Cancel && effect.observation.EffectStarted?
            && (custody.PublishedClean? || custody.AbandonedSensitive?)))
  }

  /** What a settled attempt contradicts itself in. */
  ghost predicate Contradicts(i: Inputs, reason: UnknownReason)
    requires Complete(i)
  {
    var terminal, effect, custody := i.terminal.value.observation, i.effectCut.value.observation,
      i.custody.value.observation;
    match reason
    case ControlIdentityContradiction => terminal.RunnerCanceled? && i.control.value.UnmatchedAfterReconciliation?
    case ControlEffectOrderingContradiction =>
      && i.control.Some?
      && (terminal.RunnerCanceled? ==> i.control.value.Authenticated? && !ControlStopped(i))
    case TerminalEffectContradiction =>
      && i.control.None? && !terminal.RunnerCanceled? && (terminal.ProvenNoEffect? || effect.ProvenNoEffect?)
      && !(terminal.ProvenNoEffect? && effect.ProvenNoEffect? && terminal.proofDigest == effect.proofDigest
           && GivenUp(i, AbandonmentReason.FailedBeforeEffect))
    case TerminalCustodyContradiction =>
      && i.control.None? && !terminal.RunnerCanceled? && !terminal.ProvenNoEffect? && effect.EffectStarted?
      && !custody.PublishedClean? && !custody.AbandonedSensitive?
    case _ => false
  }

  lemma {:induction false} GivenUpExactly(i: Inputs, reason: AbandonmentReason)
    requires Complete(i)
    ensures PreEffectCustodyMatches(i.spine.frontier, i.custody.value.observation, reason) <==> GivenUp(i, reason)
  {
  }

  lemma {:induction false} CancelContradicts(i: Inputs, reason: UnknownReason)
    requires Complete(i) && i.terminal.value.observation.RunnerCanceled?
    requires i.control.value.controlId == i.terminal.value.observation.claimedControlId
    ensures ClassifyCancel(i, i.terminal.value.observation.claimedControlId) == Ambiguous(reason) <==>
      Contradicts(i, reason)
  {
    GivenUpExactly(i, CanceledBeforeEffect);
  }

  lemma {:induction false} ObservationsContradict(i: Inputs, reason: UnknownReason)
    requires Complete(i) && !i.terminal.value.observation.RunnerCanceled? && i.control.None?
    requires !i.terminal.value.observation.Unknown? && !i.effectCut.value.observation.Unknown?
    ensures ClassifyObservations(i.spine.frontier, i.terminal.value.observation, i.effectCut.value.observation,
                                 i.custody.value.observation) == Ambiguous(reason) <==>
      Contradicts(i, reason)
  {
    GivenUpExactly(i, AbandonmentReason.FailedBeforeEffect);
  }

  lemma {:induction false} SettledContradicts(i: Inputs, reason: UnknownReason)
    requires Complete(i) && PositiveUnknown(i).None? && CleanupFits(i)
    requires i.terminal.value.observation.RunnerCanceled? ==>
      i.control.value.controlId == i.terminal.value.observation.claimedControlId
    ensures ClassifyOrdered(i) == Ambiguous(reason) <==> Contradicts(i, reason)
  {
    if i.terminal.value.observation.RunnerCanceled? {
      CancelContradicts(i, reason);
    } else if i.control.None? {
      ObservationsContradict(i, reason);
    }
  }

  /** In validated evidence a canceled terminal and its control name the one reserved control. */
  lemma {:induction false} ClaimsReserved(i: Inputs)
    requires Valid(i) && Complete(i) && i.terminal.value.observation.RunnerCanceled?
    ensures i.control.value.controlId == i.terminal.value.observation.claimedControlId
  {
    ValidSound(i);
    ClaimsBySound(i);
  }

  lemma {:induction false} ClaimsBySound(i: Inputs)
    requires Complete(i) && Sound(i) && i.terminal.value.observation.RunnerCanceled?
    ensures i.control.value.controlId == i.terminal.value.observation.claimedControlId
  {
    assert !Absent(i, ControlResolution);
  }

  ghost predicate Gives(i: Inputs, reason: UnknownReason)
    requires Complete(i)
  {
    match reason
    case SourceEventOrderingContradiction => DomainRead(i) && !DumpedCore(i) && !InOrder(i)
    case CleanupEffectContradiction => DomainRead(i) && !DumpedCore(i) && InOrder(i) && !DomainsFit(i)
    case _ => Unreadable(i, reason) || (SettledAs(i) && Contradicts(i, reason))
  }

  lemma {:induction false} UnknownByParts(i: Inputs, reason: UnknownReason)
    requires Complete(i) && (OrderContradiction(i) <==> !InOrder(i))
    requires i.terminal.value.observation.RunnerCanceled? ==>
      i.control.value.controlId == i.terminal.value.observation.claimedControlId
    ensures Classify(i) == Outcome.Unknown(reason) <==> Gives(i, reason)
  {
    UnreadableExactly(i, reason);
    ReadExactly(i);
    if PositiveUnknown(i).None? {
      FitsExactly(i);
      if CleanupFits(i) { SettledContradicts(i, reason); }
    }
  }

  /** Each reason for an unknown outcome comes from exactly these observations. */
  lemma {:induction false} UnknownExactly(i: Inputs, reason: UnknownReason)
    requires Valid(i) && Complete(i)
    ensures Classify(i) == Outcome.Unknown(reason) <==> Gives(i, reason)
  {
    OrderedExactly(i);
    if i.terminal.value.observation.RunnerCanceled? { ClaimsReserved(i); }
    UnknownByParts(i, reason);
  }

  /** Each decided outcome comes from a settled attempt and exactly the observations it stands for. */
  lemma {:induction false} OutcomeExactly(i: Inputs, o: Outcome)
    requires Valid(i) && Complete(i) && !o.Unknown?
    ensures Classify(i) == o <==> SettledAs(i) && Means(i, o)
  {
    DecidedExactly(i, o);
    SettledExactly(i);
  }
}
