/** Missing sources, the outcome matrix, and what its outcomes mean (current_final_verification_evidence.rs). */
module EvidenceClassification {
  import opened Outcomes
  import opened Identifiers
  import opened EvidenceSources

  datatype MissingSource =
    | Terminal | EffectCut | OutputCustody | CommandDomainCleanup | RunnerCleanup | ControlResolution

  datatype UnknownReason =
    | TerminalSourceUnknown | EffectCutUnknown | OutputCustodyUnknown
    | CommandDomainCleanupUnknown | CommandDomainSurvivorsPresent
    | RunnerDirectChildUnknown | RunnerDirectChildPresent
    | RunnerDomainUnknown | RunnerDomainSurvivorsPresent
    | CoreDumpObserved | TerminalEffectContradiction | TerminalCustodyContradiction | CleanupEffectContradiction
    | ControlIdentityContradiction | ControlEffectOrderingContradiction | SourceEventOrderingContradiction

  datatype Outcome =
    | Verified
    | NonzeroExit(exitCode: nat)
    | Signaled(signal: nat)
    | TimedOut
    | OutputLimitExceeded
    | SensitiveOutputRejected
    | FailedBeforeEffect
    | ControlInterruptedBeforeEffect(controlId: Identifier, action: ControlAction)
    | Canceled(controlId: Identifier)
    | Unknown(reason: UnknownReason)

  // ---------- missing sources ----------

  /** Which sources count as absent; a canceled terminal also needs its control reconciled far enough. */
  predicate Absent(i: Inputs, s: MissingSource) {
    match s
    case Terminal => i.terminal.None?
    case EffectCut => i.effectCut.None?
    case OutputCustody => i.custody.None?
    case CommandDomainCleanup => i.commandCleanup.None?
    case RunnerCleanup => i.runnerCleanup.None?
    case ControlResolution =>
      && i.terminal.Some? && i.terminal.value.observation.RunnerCanceled?
      && (match i.control
          case None => true
          case Some(Authenticated(_, _, _, _, _)) => false
          case Some(UnmatchedAfterReconciliation(_, _, _, through, _)) => through < i.terminal.value.event.sequence)
  }

  function PushIfAbsent(i: Inputs, s: MissingSource, missing: seq<MissingSource>): seq<MissingSource> {
    if Absent(i, s) then missing + [s] else missing
  }

  /** `missing_sources`: one push per absent source, in schema order. */
  function MissingSources(i: Inputs): (missing: seq<MissingSource>)
    ensures forall s :: s in missing <==> Absent(i, s)
    ensures missing == [] <==> Complete(i)
  {
    var first := PushIfAbsent(i, OutputCustody, PushIfAbsent(i, EffectCut, PushIfAbsent(i, Terminal, [])));
    var all := PushIfAbsent(i, ControlResolution,
                            PushIfAbsent(i, RunnerCleanup, PushIfAbsent(i, CommandDomainCleanup, first)));
    assert all != [] ==> all[0] in all;
    all
  }

  /** A source's place in the schema. */
  function Place(s: MissingSource): nat {
    match s
    case Terminal => 0
    case EffectCut => 1
    case OutputCustody => 2
    case CommandDomainCleanup => 3
    case RunnerCleanup => 4
    case ControlResolution => 5
  }

  predicate InSchemaOrder(missing: seq<MissingSource>) {
    forall k, l :: 0 <= k < l < |missing| ==> Place(missing[k]) < Place(missing[l])
  }

  /** Only sources before place `n`, in order. */
  predicate OrderedBefore(missing: seq<MissingSource>, n: nat) {
    InSchemaOrder(missing) && forall k :: 0 <= k < |missing| ==> Place(missing[k]) < n
  }

  lemma {:induction false} PushKeepsOrder(i: Inputs, s: MissingSource, missing: seq<MissingSource>)
    requires OrderedBefore(missing, Place(s))
    ensures OrderedBefore(PushIfAbsent(i, s, missing), Place(s) + 1)
  {
  }

  /** The absent sources come out in schema order, so the list is the same for the same absences. */
  lemma {:induction false} MissingInOrder(i: Inputs)
    ensures InSchemaOrder(MissingSources(i))
  {
    var one := PushIfAbsent(i, Terminal, []);
    var two := PushIfAbsent(i, EffectCut, one);
    var three := PushIfAbsent(i, OutputCustody, two);
    var four := PushIfAbsent(i, CommandDomainCleanup, three);
    var five := PushIfAbsent(i, RunnerCleanup, four);
    PushKeepsOrder(i, Terminal, []);
    PushKeepsOrder(i, EffectCut, one);
    PushKeepsOrder(i, OutputCustody, two);
    PushKeepsOrder(i, CommandDomainCleanup, three);
    PushKeepsOrder(i, RunnerCleanup, four);
    PushKeepsOrder(i, ControlResolution, five);
  }

  predicate Complete(i: Inputs) {
    && !Absent(i, Terminal) && !Absent(i, EffectCut) && !Absent(i, OutputCustody)
    && !Absent(i, CommandDomainCleanup) && !Absent(i, RunnerCleanup) && !Absent(i, ControlResolution)
  }

  // ---------- duplicate events ----------

  predicate HasDuplicate<T(==)>(s: seq<T>) {
    exists k :: 0 <= k < |s| && s[k] in s[..k]
  }

  function Ids(events: seq<Event>): (ids: seq<Identifier>)
    ensures |ids| == |events| && forall k :: 0 <= k < |events| ==> ids[k] == events[k].id
  {
    seq(|events|, k requires 0 <= k < |events| => events[k].id)
  }

  function Sequences(events: seq<Event>): (sequences: seq<nat>)
    ensures |sequences| == |events| && forall k :: 0 <= k < |events| ==> sequences[k] == events[k].sequence
  {
    seq(|events|, k requires 0 <= k < |events| => events[k].sequence)
  }

  /** The events of the five sources. */
  function SourceEvents(i: Inputs): seq<Event>
    requires Complete(i)
  {
    [i.terminal.value.event, i.effectCut.value.event, i.custody.value.event, i.commandCleanup.value.event,
     i.runnerCleanup.value.directChild.event, i.runnerCleanup.value.domain.event, i.runnerCleanup.value.event]
  }

  function Acknowledgement(i: Inputs): seq<nat>
    requires Complete(i)
  {
    match i.runnerCleanup.value.shutdown
    case None => []
    case Some(s) => [s.acknowledged]
  }

  /** `lifecycle_event_identity_is_duplicated`. */
  predicate LifecycleDuplicated(i: Inputs)
    requires Complete(i)
  {
    || HasDuplicate(Ids(SourceEvents(i)))
    || HasDuplicate(Sequences(SourceEvents(i)))
    || (exists s :: s in Acknowledgement(i) && s in Sequences(SourceEvents(i)))
  }

  /** Authority, sources, then the frontier. */
  function AllEvents(i: Inputs): seq<Event>
    requires Complete(i)
  {
    [i.spine.admitted] + SourceEvents(i) + i.spine.frontier.Events()
  }

  function AllSequences(i: Inputs): seq<nat>
    requires Complete(i)
  {
    Sequences(AllEvents(i)) + Acknowledgement(i)
  }

  /** `control_lifecycle_event_identity_is_duplicated`. */
  predicate ControlLifecycleDuplicated(i: Inputs)
    requires Complete(i)
  {
    || HasDuplicate(Ids(AllEvents(i)))
    || HasDuplicate(AllSequences(i))
    || (match i.control
        case None => false
        case Some(Authenticated(_, controlId, _, issued, observed)) =>
          || controlId in Ids(AllEvents(i)) || issued.id in Ids(AllEvents(i)) || observed.id in Ids(AllEvents(i))
          || issued.sequence in AllSequences(i) || observed.sequence in AllSequences(i)
        case Some(UnmatchedAfterReconciliation(_, controlId, reconciliationId, _, reconciled)) =>
          || controlId in Ids(AllEvents(i)) || reconciliationId in Ids(AllEvents(i))
          || reconciled.id in Ids(AllEvents(i))
          || reconciled.sequence in AllSequences(i))
  }

  // ---------- classification ----------

  function Ambiguous(reason: UnknownReason): Outcome {
    Outcome.Unknown(reason)
  }

  function PositiveUnknown(i: Inputs): Option<UnknownReason>
    requires Complete(i)
  {
    var command, runner := i.commandCleanup.value.observation, i.runnerCleanup.value;
    if i.terminal.value.observation.Unknown? then Some(TerminalSourceUnknown)
    else if i.effectCut.value.observation.Unknown? then Some(EffectCutUnknown)
    else if i.custody.value.observation.Unknown? then Some(OutputCustodyUnknown)
    else if command.SurvivorsPresent? then Some(CommandDomainSurvivorsPresent)
    else if command.Unknown? then Some(CommandDomainCleanupUnknown)
    else if runner.directChild.StillPresent? then Some(RunnerDirectChildPresent)
    else if runner.directChild.Unknown? then Some(RunnerDirectChildUnknown)
    else if runner.domain.SurvivorsPresent? then Some(RunnerDomainSurvivorsPresent)
    else if runner.domain.Unknown? then Some(RunnerDomainUnknown)
    else if i.terminal.value.observation.Signaled? && i.terminal.value.observation.coreDumped
      then Some(CoreDumpObserved)
    else None
  }

  function Max(a: nat, b: nat): nat {
    if a < b then b else a
  }

  predicate OrderContradiction(i: Inputs)
    requires Complete(i)
  {
    var terminal, effect, custody := i.terminal.value.event, i.effectCut.value, i.custody.value.event;
    var command, runner := i.commandCleanup.value.event, i.runnerCleanup.value;
    || (effect.observation.EffectStarted? && effect.event.sequence >= terminal.sequence)
    || custody.sequence <= Max(terminal.sequence, effect.event.sequence)
    || command.sequence <= custody.sequence
    || runner.event.sequence <= command.sequence
    || runner.directChild.event.sequence <= command.sequence
    || runner.domain.event.sequence <= command.sequence
    || LifecycleDuplicated(i)
    || ControlLifecycleDuplicated(i)
  }

  predicate CommandClean(o: CommandCleanup) { o.ReapedEmpty? || o.NoDomainCreatedBeforeEffect? }
  predicate ChildClean(o: DirectChild) { o.Reaped? || o.NotSpawned? }
  predicate DomainClean(o: RunnerDomain) { o.Empty? || o.NotCreated? }

  predicate AllClean(i: Inputs)
    requires Complete(i)
  {
    && CommandClean(i.commandCleanup.value.observation)
    && ChildClean(i.runnerCleanup.value.directChild)
    && DomainClean(i.runnerCleanup.value.domain)
  }

  /** `clean_cleanup_matches_reached_frontier`. */
  predicate CleanupMatches(f: Frontier, effect: EffectCut, command: CommandCleanup, child: DirectChild,
                           domain: RunnerDomain) {
    match f
    case LaunchCommitted(_, _, _) =>
      effect.ProvenNoEffect? && command.NoDomainCreatedBeforeEffect? && child.NotSpawned? && domain.NotCreated?
    case CaptureAcquired(_, _, _, _) =>
      && effect.ProvenNoEffect? && command.NoDomainCreatedBeforeEffect?
      && ((child.NotSpawned? && domain.NotCreated?) || (child.Reaped? && domain.Empty?))
    case Initialized(_, _, _, _, _) =>
      effect.ProvenNoEffect? && command.NoDomainCreatedBeforeEffect? && child.Reaped? && domain.Empty?
    case Dispatched(_, _, _, _, _, _) =>
      && child.Reaped? && domain.Empty?
      && ((effect.EffectStarted? && command.ReapedEmpty?)
          || (effect.ProvenNoEffect? && (command.NoDomainCreatedBeforeEffect? || command.ReapedEmpty?)))
  }

  predicate CleanupFits(i: Inputs)
    requires Complete(i)
  {
    CleanupMatches(i.spine.frontier, i.effectCut.value.observation, i.commandCleanup.value.observation,
                   i.runnerCleanup.value.directChild, i.runnerCleanup.value.domain)
  }

  predicate PreEffectCustodyMatches(f: Frontier, custody: Custody, expected: AbandonmentReason) {
    if f.LaunchCommitted? then custody.ClosedBeforeCapture?
    else custody.AbandonedBeforeEffect? && custody.reason == expected
  }

  function ClassifyCancel(i: Inputs, claimedControlId: Identifier): Outcome
    requires Complete(i) && i.terminal.value.observation.RunnerCanceled?
  {
    if i.control.value.UnmatchedAfterReconciliation? then Ambiguous(ControlIdentityContradiction)
    else
      var control, effect, custody := i.control.value, i.effectCut.value, i.custody.value.observation;
      if control.controlId != claimedControlId then Ambiguous(ControlIdentityContradiction)
      else if control.observed.sequence >= i.terminal.value.event.sequence
        then Ambiguous(ControlEffectOrderingContradiction)
      else if effect.observation.ProvenNoEffect? && control.observed.sequence < effect.event.sequence
              && PreEffectCustodyMatches(i.spine.frontier, custody, CanceledBeforeEffect) then
        if control.action.Cancel? then Canceled(control.controlId)
        else ControlInterruptedBeforeEffect(control.controlId, control.action)
      else if control.action.Cancel? && effect.observation.EffectStarted?
              && (custody.PublishedClean? || custody.AbandonedSensitive?) then Canceled(control.controlId)
      else Ambiguous(ControlEffectOrderingContradiction)
  }

  function ClassifyObservations(frontier: Frontier, terminal: TerminalObservation, effect: EffectCut,
                                custody: Custody): Outcome {
    if terminal.ProvenNoEffect? && effect.ProvenNoEffect? && terminal.proofDigest == effect.proofDigest
       && PreEffectCustodyMatches(frontier, custody, AbandonmentReason.FailedBeforeEffect)
      then Outcome.FailedBeforeEffect
    else if terminal.ProvenNoEffect? || effect.ProvenNoEffect? then Ambiguous(TerminalEffectContradiction)
    else if effect.EffectStarted? && custody.AbandonedSensitive? then SensitiveOutputRejected
    else if effect.EffectStarted? && custody.PublishedClean? then
      match terminal
      case Exited(code) => if code == 0 then Verified else NonzeroExit(code)
      case Signaled(signal, _) => Outcome.Signaled(signal)
      case TimedOut => Outcome.TimedOut
      case OutputLimitExceeded(_, _) => Outcome.OutputLimitExceeded
      case _ => Ambiguous(TerminalCustodyContradiction)
    else Ambiguous(TerminalCustodyContradiction)
  }

  /** The rest of the matrix, once nothing is unknown and the order holds. No input enters the first branch. */
  function ClassifyOrdered(i: Inputs): Outcome
    requires Complete(i) && PositiveUnknown(i).None?
  {
    if !AllClean(i) then assert false; Ambiguous(CleanupEffectContradiction)
    else if !CleanupFits(i) then Ambiguous(CleanupEffectContradiction)
    else if i.terminal.value.observation.RunnerCanceled?
      then ClassifyCancel(i, i.terminal.value.observation.claimedControlId)
    else if i.control.Some? then Ambiguous(ControlEffectOrderingContradiction)
    else ClassifyObservations(i.spine.frontier, i.terminal.value.observation, i.effectCut.value.observation,
                              i.custody.value.observation)
  }

  /** Outcomes that report on the command itself. */
  predicate ReportsCommand(o: Outcome) {
    o.Verified? || o.NonzeroExit? || o.Signaled? || o.TimedOut? || o.OutputLimitExceeded? || o.SensitiveOutputRejected?
  }

  /**
   * `classify_complete_sources`. Whatever is decided, every process domain reads back clean, in order, and as the
   * frontier allows; a report on the command needs a dispatched, started command and no control source; an outcome
   * before effect needs proof of no effect and the custody its frontier calls for.
   */
  function Classify(i: Inputs): (o: Outcome)
    requires Complete(i)
    ensures !o.Unknown? ==> AllClean(i) && !OrderContradiction(i) && CleanupFits(i)
    ensures ReportsCommand(o) ==>
      i.spine.frontier.Dispatched? && i.effectCut.value.observation.EffectStarted? && i.control.None?
    ensures o.FailedBeforeEffect? || o.ControlInterruptedBeforeEffect? ==>
      && i.effectCut.value.observation.ProvenNoEffect?
      && PreEffectCustodyMatches(i.spine.frontier, i.custody.value.observation,
           if o.FailedBeforeEffect? then AbandonmentReason.FailedBeforeEffect else CanceledBeforeEffect)
  {
    if PositiveUnknown(i).Some? then Ambiguous(PositiveUnknown(i).value)
    else if OrderContradiction(i) then Ambiguous(SourceEventOrderingContradiction)
    else ClassifyOrdered(i)
  }

  /** The checks an outcome record makes on itself. */
  predicate OutcomeValid(o: Outcome) {
    match o
    case NonzeroExit(code) => code != 0
    case Signaled(signal) => 1 <= signal <= 127
    case ControlInterruptedBeforeEffect(id, _) => BoundedIdentifier(id, MAX_IDENTIFIER_BYTES)
    case Canceled(id) => BoundedIdentifier(id, MAX_IDENTIFIER_BYTES)
    case _ => true
  }
}
