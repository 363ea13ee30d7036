# Verified decision kernels of grok-build-core

This project models the pure decision kernels of `crates/grok-build-core` in Dafny and proves what they promise over
all inputs. None of these kernels does I/O: they read values, update maps, sets, vectors and queues, and decide.

- **Application composition** (`Paths`, `Replay`, `Sources`, `SourceCoverage`, `Topology`, `Aggregate`, `BaseProjection`,
  `Composition`, `CompositionMeaning`, `Conservation`, `BlobAccounting`, `Runs`). A base tree is replayed through an
  ordered list of task change sets; the difference of base and result becomes one canonical, byte-sorted list, which is
  replayed again. `Replay.ReplayState` is the mutable state with its file map and directory set. The central results
  are `Aggregate.AggregateReplays` (the second replay always succeeds and meets the first at every path, although it
  visits paths in another order) and `Composition.Derive` (the whole derivation: when it succeeds, what it returns, and
  which errors cannot occur).
- **Workspace manifest** (`Manifest`, `Bytes`). A one-pass order and prefix check, and a digest preimage with a decoder
  that inverts it in both directions.
- **Task graph, repair reserve and attempts** (`TaskGraph`, `RepairSlots`, `AttemptChain`). The adjacency builder and
  Kahn's worklist with indegrees updated in place; the chain of repair slots; runs of verification attempts.
- **Evidence classification** (`EvidenceSources`, `EvidenceValidity`, `EvidenceClassification`, `EvidenceDerivation`,
  `EvidenceOutcomes`, `EvidenceAcceptance`). Validation of the identity spine, its frontier and every source, and which
  evidence passes it; the outcome matrix; the exact meaning of `Verified`, of every other decided outcome and of every
  reason for an unknown one.
- **Completion** (`CompletionEvidence`, `CompletionMeaning`, `Integrations`, `Completion`). Launch, session and cleanup
  accounting, the integration chain, the application timeline and the assessment.
- **Policy and grant encoding** (`Framing`, `PolicyOrder`, `PolicyEncoding`, `GrantEncoding`, `PolicyMeaning`,
  `Sorting`) and **candidate selection** (`CandidateSelection`).

`Outcomes`, `Identifiers` and `Finite` hold what several modules share.

A decision is modelled twice over: by the checks in the order the code makes them, and by what the result means, said
on the fields with bounds and bytes written out and without those checks. Lemmas named `...Exactly` show that the two
agree on all inputs.

Conventions. A digest function is a parameter `hash`: no assumption is made about it, and results that need it to
separate two inputs say so by naming the collision (`Composition.Collides`). Integers are unbounded except where the
source bounds them, checks them, or encodes them in a fixed width; those widths are written out. The per-record
`validate` of receipts in `CompletionEvidence` is a Boolean field `valid`. State left behind by a failed replay is
discarded by its callers, so methods on it promise a final state only on success.

Three places where the code says more or less than its surroundings suggest:

- The errors that guard the composition against its own inconsistency are grouped under `Defensive`;
  `Composition.Derive` shows that none is ever returned.
- The repair reserve protects required tasks. An optional ordinary task may depend on a slot:
  `RepairSlots.OptionalWorkMayFollowSlot` exhibits an accepted graph in which one does, and
  `RepairSlots.OrdinaryFreeExactly` gives the exact condition, for every graph: ordinary work stays clear of the slots
  if and only if no ordinary task names a slot among its own dependencies.
- The snapshot mismatch check of the composition fires only on a collision of two different manifests under the digest
  (`Composition.SnapshotAgreement`).

## Model

| member | source | states |
|---|---|---|
| Paths.ProbeFindsDescendant | crates/grok-build-core/src/application_composition.rs:2832-2847 | Probing only the first key at or after `path/` finds a file below `path` exactly when one exists anywhere in the map |
| Paths.PresentFileCollision | crates/grok-build-core/src/application_composition.rs:2832-2852 | Reports a file that is an ancestor or descendant of the path, and none exactly when no file in the map is related to it |
| Paths.AncestorPortable | crates/grok-build-core/src/application_composition.rs:2878-2916 | Every proper ancestor of a portable path is itself portable, so directories added during replay never need a check of their own |
| Paths.PortableExactly | crates/grok-build-core/src/application_composition.rs:2878-2916 | A path is portable exactly when it has 1 to 4096 bytes, does not start with a separator, holds no backslash or NUL, and no name between separators is empty, a dot, two dots or, in any case, .git |
| Bytes.LtExactly | crates/grok-build-core/src/application_composition.rs:2214-2219 | One string sorts before another exactly when they share some prefix and then the first ends and the other goes on, or the first has the smaller byte |
| Manifest.ManifestPathValidIffPortable | crates/grok-build-core/src/live_state.rs:1285-1317 | The manifest's path rule and the composition's portable-path rule accept exactly the same paths |
| Manifest.ForwardScanSuffices | crates/grok-build-core/src/live_state.rs:1257-1281 | Comparing each path only with the previous one and with the paths before it keeps the whole prefix strictly sorted and free of ancestor pairs in either direction |
| Manifest.ValidateManifestEntries | crates/grok-build-core/src/live_state.rs:1248-1283 | Accepts exactly the lists of at most 65536 entries with portable paths, 63-bit lengths and modes up to 511, in which each path comes before every later one by the first byte that differs and no path is a directory of another; a rejection names a fault the list really has |
| Manifest.DecodeAfterEncode | crates/grok-build-core/src/live_state.rs:1319-1349 | Decoding the digest preimage returns the entries: the encoding is uniquely readable |
| Manifest.EncodeAfterDecode | crates/grok-build-core/src/live_state.rs:1319-1349 | Every byte string that decodes is the encoding of what it decodes to: no second spelling exists |
| Manifest.EncodeInjective | crates/grok-build-core/src/live_state.rs:1319-1349 | Two entry lists share a digest preimage exactly when they are equal |
| Manifest.ManifestDigest | crates/grok-build-core/src/live_state.rs:1319-1349 | The incremental hasher feeds the hash exactly the encoding, and succeeds exactly on the manifests above; the bytes hashed are the domain with its NUL, the count in eight bytes and, entry by entry in list order, path length, path, file length, digest and mode, numbers most significant byte first |
| Manifest.EncodeLayout | crates/grok-build-core/src/live_state.rs:1319-1349 | The digest preimage byte by byte: where each field stands and which number its bytes make |
| Replay.ReplayState.RequireCreateAbsent | crates/grok-build-core/src/application_composition.rs:2405-2432 | A create is allowed exactly when the path is neither a file nor a directory and no file is above or below it; a refusal names the real obstacle |
| Replay.ReplayState.EnsureParentDirectories | crates/grok-build-core/src/application_composition.rs:2434-2458 | Adds exactly the ancestors of the path, and fails exactly on a file among them or on the directory limit |
| Replay.ReplayState.Apply | crates/grok-build-core/src/application_composition.rs:2111-2202 | The in-place update of files and directories is the step relation `Effect`, accepted in exactly the same states, and a conflict names a real obstacle of the state before; `CreateExactly`, `ModifyExactly` and `DeleteExactly` say on the fields what that relation is |
| Replay.CreateExactly | crates/grok-build-core/src/application_composition.rs:2119-2139 | A create is accepted exactly when nothing stands at the path, no file above or below it, and its parents keep the directories within 65536; the file gets the material's length, mode and origin, and exactly its parent directories are added |
| Replay.ModifyExactly | crates/grok-build-core/src/application_composition.rs:2140-2174 | A modify is accepted exactly when the file is there with its base digest; it replaces digest, length and origin, keeps the mode, and touches nothing else |
| Replay.DeleteExactly | crates/grok-build-core/src/application_composition.rs:2175-2202 | A delete is accepted exactly when the file is there with its base digest, and removes it alone |
| Sources.ReplaySource | crates/grok-build-core/src/application_composition.rs:2090-2109 | Replaying one source in place succeeds exactly when running its steps does, with the same final tree; a conflict is one of its steps refused in the state it met; `Topology.SourceReplayMeans` says what that tree is |
| Topology.SourceReplayMeans | crates/grok-build-core/src/application_composition.rs:2090-2202 | Replaying a valid source leaves at the path of each operation what it says: a new file with its material's length and mode, a modified file with the mode it had before the source, no file after a delete; all other files are as before, and exactly the parents of created files are new directories |
| Sources.SourceExactly | crates/grok-build-core/src/application_composition.rs:1867-2088 | A source is valid exactly when snapshot and operations agree, it has at most 4096 operations on distinct portable paths, no modify keeps its digest, materials restate the writing operations one by one in order, and distinct contents stay within 64 MiB |
| Replay.RejectedRunStops | crates/grok-build-core/src/application_composition.rs:2090-2202 | Every conflict that a replay reports explains a step the run really stops at |
| Sources.ValidateSourceOperations | crates/grok-build-core/src/application_composition.rs:1937-1963 | Accepts exactly portable, pairwise distinct paths and no Modify that keeps its digest |
| Sources.ValidateSourceResultMaterial | crates/grok-build-core/src/application_composition.rs:1969-2088 | Accepts exactly when materials pair one-to-one, in order, with the Create and Modify operations by index, path, digest and mode shape and the distinct blobs stay within their limits |
| Runs.IterateAppend | crates/grok-build-core/src/application_composition.rs:1690-1710 | Running one source list after another is running their concatenation |
| Topology.EffectKeepsTopology | crates/grok-build-core/src/application_composition.rs:2111-2202 | One accepted step keeps files and directories disjoint, every ancestor a directory, all paths portable and all metadata in range, and never loses a directory |
| Topology.RunKeepsTopology | crates/grok-build-core/src/application_composition.rs:2090-2202 | The same over every run |
| Topology.DescendantProbeRedundant | crates/grok-build-core/src/application_composition.rs:2405-2432 | In a reachable state a path that is not a directory has no file below it, so only the ancestor half of the collision test can fire |
| Topology.LastWriterWins | crates/grok-build-core/src/application_composition.rs:2111-2202 | After any run a path holds what the last step that named it left there, or what it held at the start; and its mode is the one of the last creation of the path if some step creates it, otherwise the mode it had in the starting tree |
| Topology.Provenance | crates/grok-build-core/src/application_composition.rs:2160-2202 | A file without origin equals its base entry and no source names it; a file with an origin has the digest, length and artifact of a result material at the same path in the last source that wrote it; the mode of every file is that of the material of its last creation among the sources, or the base's if no source creates it |
| Aggregate.DerivePath | crates/grok-build-core/src/application_composition.rs:2212-2305 | One path yields no operation when its endpoints agree, otherwise the one Create, Modify or Delete that the endpoints call for, and fails exactly on a mode or length change without a digest change |
| Aggregate.DeriveAggregate | crates/grok-build-core/src/application_composition.rs:2204-2309 | Succeeds exactly when no file on both sides changes mode, or length under one digest; then the operations come in the order of the first byte that differs, each says what the two entries at its path are, no changed path is missing, and one material per Create or Modify, in the same order, restates the result's file and who holds it; a failure names a file that really changed its mode, or its length under one digest |
| Aggregate.DiffExactly | crates/grok-build-core/src/application_composition.rs:2204-2309 | A list is the canonical difference exactly when its paths are in order by the first differing byte, every Create, Modify and Delete fits presence and digests of its path on both sides, and every path left out is unchanged |
| Aggregate.CanonicalDiffUnique | crates/grok-build-core/src/application_composition.rs:2204-2309 | There is only one canonical difference between two file maps |
| Aggregate.PendingCreateIsFree | crates/grok-build-core/src/application_composition.rs:2311-2403 | Midway through the aggregate, in byte order, the next create always finds its path free and no file above or below it, although the sequential run visited paths in another order |
| Aggregate.MidwayStep | crates/grok-build-core/src/application_composition.rs:2311-2403 | Every aggregate operation is accepted in the state it meets, settles its own path at the final endpoint and leaves all other paths alone |
| Aggregate.AggregateReplays | crates/grok-build-core/src/application_composition.rs:1727-1744 | Replaying the derived aggregate over the base always succeeds, ends with the final digest, length and mode at every path, and its directories are the base directories plus the ancestors of net-created files, a subset of the sequential ones |
| Aggregate.ReplayAggregate | crates/grok-build-core/src/application_composition.rs:2311-2403 | The aggregate replay with its material index computes the run of the aggregate steps |
| Aggregate.SameFileEndpoints | crates/grok-build-core/src/application_composition.rs:3001-3024 | True exactly when two maps agree in presence, digest, length and mode at every path |
| Aggregate.CreatedAncestorsAreNet | crates/grok-build-core/src/application_composition.rs:2311-2403 | The directories the aggregate adds are exactly the ancestors of files present in the result and absent from the base |
| BaseProjection.ValidateBaseProjection | crates/grok-build-core/src/application_composition.rs:2504-2587 | Accepts exactly the projections that are sorted, portable, disjoint, ancestor-closed, within limits and whose snapshot is the digest of their manifest |
| CompositionMeaning.BaseExactly | crates/grok-build-core/src/application_composition.rs:2504-2587 | A base is valid exactly when files and directories together are at most 65536, portable, in byte order, disjoint, with every directory above them listed, and its snapshot is the digest of the listed files |
| BaseProjection.BaseTopological | crates/grok-build-core/src/application_composition.rs:2460-2483 | An accepted base starts the replay in a topological tree whose files have no origin |
| BaseProjection.TopologicalManifest | crates/grok-build-core/src/application_composition.rs:2485-2502 | A reachable state's manifest can be rejected only for its entry count |
| BaseProjection.ReplayStateSnapshot | crates/grok-build-core/src/application_composition.rs:2485-2502 | The snapshot is the hash of the encoded manifest of the files, and fails exactly when that manifest is invalid |
| BaseProjection.SameManifestIffSameEndpoints | crates/grok-build-core/src/application_composition.rs:2485-2502 | Two file maps have one manifest exactly when they agree at every path |
| Composition.ReplaySources | crates/grok-build-core/src/application_composition.rs:1666-1725 | Accepts exactly the source lists in which each source is valid, is the admitted one, shares no task, attempt, proof or receipt with an earlier one, has its expected input snapshot, replays, and ends in its declared result snapshot |
| SourceCoverage.ValidateSourceIdentitySet | crates/grok-build-core/src/application_composition.rs:2799-2817 | Accepts exactly the nonempty lists of distinct identities within the source limit |
| SourceCoverage.CheckCoverage | crates/grok-build-core/src/application_composition.rs:1672-1692 | Accepts a source exactly when it is the admitted one and none of its four members was seen before, and records its members |
| SourceCoverage.CoverageExactly | crates/grok-build-core/src/application_composition.rs:1665-1692 | The one-by-one checks accept exactly the admitted list in its order, with no two sources sharing a task, attempt, proof or receipt |
| Composition.FinalOriginsKnown | crates/grok-build-core/src/application_composition.rs:2232-2285 | Every differing file of the final state has an origin, so the two origin errors of the derivation cannot occur |
| Composition.EmptyIffSameManifest | crates/grok-build-core/src/application_composition.rs:1729-1736 | The aggregate is empty exactly when base and final manifests are equal |
| Composition.AggregableExactly | crates/grok-build-core/src/application_composition.rs:1727-1728 | Since the diff is unique, it alone decides whether base and final tree can be aggregated within the limits |
| Composition.SnapshotAgreement | crates/grok-build-core/src/application_composition.rs:1729-1736 | An empty aggregate and equal snapshots go together exactly when the two manifests do not collide under the digest |
| Composition.ValidatePlan | crates/grok-build-core/src/application_composition.rs:800-865 | Accepts exactly the plans with strictly ordered operations, matching materials, ordered portable ancestor-closed directories and a valid change set, apart from the digests of the derivation record |
| Composition.DerivedPlanIntegrity | crates/grok-build-core/src/application_composition.rs:1745-1798 | A derived plan within its bounds always passes its own structural integrity check |
| Composition.ValidateAggregateBounds | crates/grok-build-core/src/application_composition.rs:2722-2753 | Accepts exactly when the operation count and the distinct-blob total are within their limits and blob lengths agree |
| Composition.ValidateChangeSet | crates/grok-build-core/src/contracts/execution.rs:270-300 | Accepts exactly change sets with well-formed operations on paths that differ by component, and a snapshot that changes when operations exist |
| Paths.PortableComponentsDetermine | crates/grok-build-core/src/contracts/execution.rs:290-300 | Portable paths are compared by bytes and by components alike, so the two duplicate tests agree on every derived plan |
| Composition.Derive | crates/grok-build-core/src/application_composition.rs:1631-1799 | Over all inputs: succeeds exactly when the admitted sources link base to result, replay, and have a representable aggregate within its limits; then the plan is the unique aggregate of base and final state, replays to the final state and passes its own check; no internal consistency error is ever returned, and a snapshot mismatch only on a digest collision |
| CompositionMeaning.ComposableExactly | crates/grok-build-core/src/application_composition.rs:1631-1799 | The condition of `Derive` on the fields of its inputs: each source starts from the result snapshot of the one before, from base to result; 1 to 4096 admitted sources, numbered in order, share no member; each replay leads from one tree to the next and leaves the snapshot claimed; the difference is compatible, within its limits, and not confused by the digest |
| CompositionMeaning.PlanExactly | crates/grok-build-core/src/application_composition.rs:1727-1799 | What a plan says on its fields: operations and materials as listed above, a replay onto the final digests, lengths and modes, and directories in byte order that are the base's and those above new files |
| Conservation.OperationsConserved | crates/grok-build-core/src/application_composition.rs:2204-2309 | The aggregate has at most as many operations as all sources together |
| Conservation.MaterialHeld | crates/grok-build-core/src/application_composition.rs:2232-2285 | Every aggregate material names a source that holds its blob, and no later source names that path |
| Conservation.BytesConserved | crates/grok-build-core/src/application_composition.rs:2956-2989 | The aggregate's distinct-blob bytes never exceed the sum of the distinct-blob bytes of the sources |
| Conservation.ReopenSources | crates/grok-build-core/src/application_composition.rs:3173-3215 | The cumulative readback loop with its early stops accepts exactly the valid sources, in order, whose distinct bytes and operations together stay within the limits, and its checked additions never overflow |
| Conservation.ReadbackLimitSuffices | crates/grok-build-core/src/application_composition.rs:3182-3257 | Sources that the cumulative readback accepts can never make the aggregate byte limit fire: only the operation count or disagreeing lengths can |
| Conservation.BlobMapBuildsIffAgree | crates/grok-build-core/src/application_composition.rs:2956-2978 | The aggregate blob map builds exactly when equal digests always carry equal lengths |
| BlobAccounting.BlobMapBuilds | crates/grok-build-core/src/application_composition.rs:2956-2978 | A blob map builds exactly when every length is within the file limit and equal digests carry equal lengths |
| BlobAccounting.CheckedBlobTotal | crates/grok-build-core/src/application_composition.rs:2980-2989 | The checked addition over the ordered map yields the true total and fails exactly when that total does not fit 64 bits |
| BlobAccounting.DistinctBlobBytes | crates/grok-build-core/src/application_composition.rs:3249-3257 | Computes the total over distinct blobs of a list |
| BlobAccounting.AccountedExactly | crates/grok-build-core/src/application_composition.rs:2956-2989 | Blobs are within a limit exactly when each has at most 16 MiB, each digest has one length, and those lengths add up to at most the limit |
| TaskGraph.BuiltPush | crates/grok-build-core/src/final_verification_contracts.rs:1454-1470 | Entering one dependency adds it to exactly one adjacency list and keeps every degree equal to its count of incoming edges |
| TaskGraph.EdgesAreDependencies | crates/grok-build-core/src/final_verification_contracts.rs:1457-1470 | The adjacency lists hold exactly the dependency relation, whatever order it was entered in |
| TaskGraph.ValidateTaskReferences | crates/grok-build-core/src/final_verification_contracts.rs:1439-1474 | Accepts exactly known criteria and known, non-reflexive dependencies of the task, entered in place; otherwise names the fault |
| TaskGraph.DequeueKeepsOrder | crates/grok-build-core/src/final_verification_contracts.rs:1481-1490 | A node taken from the queue has all its predecessors dequeued and was not dequeued before |
| TaskGraph.FinishedTargetsPositive | crates/grok-build-core/src/final_verification_contracts.rs:1484-1489 | Following an edge never underflows a degree and never meets a dequeued node |
| TaskGraph.FollowEdges | crates/grok-build-core/src/final_verification_contracts.rs:1484-1489 | After the inner loop every degree counts exactly the edges from nodes still to be dequeued, and exactly the waiting nodes of degree zero are queued |
| TaskGraph.CompleteOrderAcyclic | crates/grok-build-core/src/final_verification_contracts.rs:1492-1501 | Visiting every node leaves no node that reaches itself |
| TaskGraph.LeftoverCycle | crates/grok-build-core/src/final_verification_contracts.rs:1492-1501 | Stopping early means there is a cycle |
| TaskGraph.ValidateAcyclicGraph | crates/grok-build-core/src/final_verification_contracts.rs:1476-1502 | Terminates, dequeues each node at most once, and accepts exactly the acyclic graphs |
| TaskGraph.ValidateGraphRelationships | crates/grok-build-core/src/final_verification_contracts.rs:1393-1437 | Accepts exactly the task lists with distinct identities, checks among the criteria, dependencies that are other tasks of the list, a task for every criterion, and no list of tasks each named by the next as a dependency that ends where it began; a rejection names something that is really wrong |
| TaskGraph.RelatesExactly | crates/grok-build-core/src/final_verification_contracts.rs:1393-1502 | The node graph without a cycle, and its reference and coverage checks, are exactly those conditions on the tasks themselves |
| RepairSlots.ValidateRepairSlots | crates/grok-build-core/src/final_verification_contracts.rs:684-758 | Accepts exactly the reserves of cap minus one ordered slots that name every required ordinary task and only the slot before them; the ordinal always fits a byte |
| RepairSlots.ValidateForSprint | crates/grok-build-core/src/final_verification_contracts.rs:593-658 | Accepts exactly, apart from identity and digest comparisons: a cap of 1 to 3, 1 to the given number of well-formed related tasks, every criterion checked by an ordinary task, and slots with ordinals 1 to cap minus one in list order, each naming every required ordinary task and, of the slots, only the one before |
| RepairSlots.AcceptedExactly | crates/grok-build-core/src/final_verification_contracts.rs:593-758 | The acceptance condition on the fields of the tasks, without positions, sets or counts |
| RepairSlots.SlotsFormOneChain | crates/grok-build-core/src/final_verification_contracts.rs:690-755 | In an accepted graph one slot follows another exactly when its ordinal is larger, and there are cap minus one slots |
| RepairSlots.SlotFollowsRequired | crates/grok-build-core/src/final_verification_contracts.rs:722-733 | Every slot depends on every required task |
| RepairSlots.RequiredNeverWaitsForSlots | crates/grok-build-core/src/final_verification_contracts.rs:684-758 | No required task depends on a repair slot, directly or through other tasks |
| RepairSlots.HeldBackExactly | crates/grok-build-core/src/final_verification_contracts.rs:722-755 | In any graph an ordinary task waits for a slot exactly when it, or an ordinary task it waits for, names a slot among its dependencies |
| RepairSlots.OrdinaryFreeExactly | crates/grok-build-core/src/final_verification_contracts.rs:722-755 | No ordinary task of a graph waits for a slot, directly or through others, exactly when no ordinary task names a slot among its own dependencies |
| RepairSlots.OptionalWorkMayFollowSlot | crates/grok-build-core/src/final_verification_contracts.rs:722-755 | The protection covers required work only: an accepted graph, with a required task before its slot, may hold an optional ordinary task back behind that slot |
| AttemptChain.ChainBounded | crates/grok-build-core/src/final_verification_contracts.rs:1176-1235 | Along every run of accepted successors ordinals count from one, never pass the cap of at most three, and sprint, cap, check and policy never change |
| AttemptChain.LinkEvidence | crates/grok-build-core/src/final_verification_contracts.rs:1195-1234 | A repair link changes snapshot and both set digests; any other link keeps all three and names the attempt before |
| AttemptChain.EvidenceStable | crates/grok-build-core/src/final_verification_contracts.rs:1195-1234 | Between two attempts without a repair in between the verified evidence is the same |
| AttemptChain.SnapshotsBounded | crates/grok-build-core/src/final_verification_contracts.rs:1195-1234 | A run verifies at most one more snapshot than it has repair links |
| AttemptChain.RepairsWithinReserve | crates/grok-build-core/src/final_verification_contracts.rs:690-703 | A graph accepted under the run's cap has a slot for every repair link the run can contain |
| AttemptChain.SuccessorExists | crates/grok-build-core/src/final_verification_contracts.rs:1053-1075 | A valid attempt can be succeeded exactly while its ordinal is below the cap |
| EvidenceDerivation.ValidSpineSound | crates/grok-build-core/src/current_final_verification_evidence.rs:679-769 | A valid spine has pairwise distinct reservations, none equal to its authority or launch event identity; its stages follow one another after the authority event and carry the identities reserved for them |
| EvidenceValidity.InputsExactly | crates/grok-build-core/src/current_final_verification_evidence.rs:3363-3409 | The whole validation chain accepts exactly the evidence whose fields stand: well-formed, pairwise different reservations, stages in order, every source on the one spine with its reserved identities after the last stage, observations in shape, backend and containment of one platform, control, shutdown and observers within their bounds |
| EvidenceAcceptance.BothPlatformsVerified | crates/grok-build-core/src/current_final_verification_evidence.rs:4138-4151 | On macOS with a dedicated identity under Seatbelt, and on Linux with a cgroup under Bubblewrap, complete valid evidence exists and is derived as Verified |
| EvidenceDerivation.ValidSound | crates/grok-build-core/src/current_final_verification_evidence.rs:3363-3409 | In validated inputs every source event carries its reserved identity and follows the reached frontier, the two observations precede the runner cleanup, and a control source uses only its reserved identities |
| EvidenceDerivation.IdentitiesNeverRepeat | crates/grok-build-core/src/current_final_verification_evidence.rs:3936-3996 | The identity half of the joint duplicate check is false whenever the inputs are sound, which `ValidSound` shows of all validated ones |
| EvidenceDerivation.SourceIdentitiesNeverRepeat | crates/grok-build-core/src/current_final_verification_evidence.rs:3893-3933 | The identity half of the lifecycle duplicate check is false for the same inputs |
| EvidenceDerivation.ControlIdentitiesNeverClash | crates/grok-build-core/src/current_final_verification_evidence.rs:3997-4014 | No control identity ever equals a lifecycle event identity |
| EvidenceDerivation.DuplicateChecksAreSequenceChecks | crates/grok-build-core/src/current_final_verification_evidence.rs:3893-4015 | For validated inputs no identity repeats in either duplicate check, and the two checks together say exactly that an event sequence is used twice |
| EvidenceDerivation.ControlsAlwaysCanonical | crates/grok-build-core/src/current_final_verification_evidence.rs:1036-1063 | The error for noncanonical controls is never returned, for any input |
| EvidenceDerivation.ObserverAlwaysIndependent | crates/grok-build-core/src/current_final_verification_evidence.rs:4102-4125 | The extra observer comparison never fails once the observer matches its reservation |
| EvidenceDerivation.OrderExactly | crates/grok-build-core/src/current_final_verification_evidence.rs:3489-3528 | For a started, dispatched attempt without control, the order checks accept exactly the strict timelines |
| EvidenceDerivation.VerifiedExactly | crates/grok-build-core/src/current_final_verification_evidence.rs:3455-3617 | The outcome is Verified exactly for a dispatched, started, exit-zero, cleanly published and fully reaped run without control, on one strict timeline with every sequence used once |
| EvidenceDerivation.DecidedExactly | crates/grok-build-core/src/current_final_verification_evidence.rs:3455-3617 | For validated inputs, each decided outcome is derived exactly for a settled attempt with the terminal, effect, custody and control observations that the outcome stands for |
| EvidenceOutcomes.OutcomeExactly | crates/grok-build-core/src/current_final_verification_evidence.rs:3455-3617 | A decided outcome, with settled said on the fields: everything read, no core dump, events in order with all recorded sequences different, process domains as the frontier allows |
| EvidenceOutcomes.UnknownExactly | crates/grok-build-core/src/current_final_verification_evidence.rs:3455-3762 | For each unknown reason, exactly the observations that give it: the first unreadable source or survivor in order, an order or cleanup that does not fit, or the contradiction of a settled attempt |
| EvidenceClassification.Classify | crates/grok-build-core/src/current_final_verification_evidence.rs:3455-3617 | Any outcome other than Unknown means every process domain reads back clean, in order, and as the frontier allows; a report on the command needs a dispatched, started command without control; an outcome before effect needs proof of no effect and the custody its frontier calls for |
| EvidenceDerivation.IdentityContradictionIsUnmatched | crates/grok-build-core/src/current_final_verification_evidence.rs:3744-3762 | For validated inputs, a control identity contradiction means exactly a settled attempt whose canceled terminal is covered by an unmatched reconciliation: authenticated controls never contradict |
| EvidenceDerivation.OutcomeAlwaysValid | crates/grok-build-core/src/current_final_verification_evidence.rs:3215-3260 | The outcome record never rejects the outcome it is given |
| EvidenceDerivation.Derive | crates/grok-build-core/src/current_final_verification_evidence.rs:3324-3361 | Succeeds exactly on inputs whose fields stand, lists exactly the absent sources, and otherwise derives the outcome with the meaning above |
| EvidenceClassification.MissingSources | crates/grok-build-core/src/current_final_verification_evidence.rs:3411-3449 | Lists exactly the absent sources, and nothing exactly when classification may start |
| EvidenceClassification.MissingInOrder | crates/grok-build-core/src/current_final_verification_evidence.rs:3411-3449 | The absent sources come out in schema order, so the same absences always give the same list |
| Integrations.TaskIntegrationsAreComplete | crates/grok-build-core/src/completion.rs:290-369 | Accepts exactly when the receipts sorted by ordinal are numbered from zero, linked from base to final snapshot, distinct, backed, and cover every required task; and exactly when the same holds of the list as given, receipt by receipt |
| Integrations.IntegratedExactly | crates/grok-build-core/src/completion.rs:290-369 | Without sorting: ordinals 0 to n-1 once each, each receipt starts where the one numbered before ended, from base to final, and every receipt is valid, of a task of the graph, of its worker's own session and launch, with every verification it names valid, passed, of that task, of that result and in time |
| Integrations.OrderIrrelevant | crates/grok-build-core/src/completion.rs:290-369 | The answer is the same for every permutation of the receipt list |
| Integrations.OrdinalsExact | crates/grok-build-core/src/completion.rs:304-352 | Acceptance means the listed ordinals are exactly 0 to n-1, each once |
| Integrations.SnapshotsUnbroken | crates/grok-build-core/src/completion.rs:304-369 | Acceptance means consecutive receipts link without a gap from base to final, and no receipt or task identity is used twice |
| Integrations.RequiredCovered | crates/grok-build-core/src/completion.rs:295-303 | Acceptance means every required task has a receipt |
| Completion.SessionPoliciesAreValid | crates/grok-build-core/src/completion.rs:371-432 | Accepts exactly valid, unique launches and sessions in which every session repeats its launch and one final session carried out the verification |
| Completion.CleanupSetIsComplete | crates/grok-build-core/src/completion.rs:435-486 | Accepts exactly valid, unique cleanups, as many as launches, in which every launch has its fitting cleanup |
| Completion.CleanupsPair | crates/grok-build-core/src/completion.rs:435-486 | Launches and cleanups are in one-to-one correspondence by launch identity: no orphan cleanup |
| Completion.OneToOne | crates/grok-build-core/src/completion.rs:371-486 | Launches, sessions and cleanups are in one-to-one correspondence by launch identity |
| Completion.WorkerLeaseEvidenceIsComplete | crates/grok-build-core/src/completion.rs:488-523 | Accepts exactly when task workers carry distinct valid leases and other launches none, each carried lease is released once and no other is, and every integration, and every cleanup with a lease, names a carried one |
| Completion.AssessCompletion | crates/grok-build-core/src/completion.rs:159-288 | Lists exactly the requirements that the fields of the evidence do not meet; complete exactly when they meet all |
| Completion.RequirementExactly | crates/grok-build-core/src/completion.rs:159-288 | What each requirement means, said on the fields of the evidence without the assessment's own checks: among them a valid and passed verification of the sprint, of no task, of the final snapshot, carried by a valid effect; no conflicts, no unknown effects, a report with something written in it |
| Completion.CompleteMeansVerified | crates/grok-build-core/src/completion.rs:194-210 | A complete sprint has a final verification that is valid, passed, of the sprint, of no task, of the final snapshot, and carried by a valid effect |
| Completion.CompleteMeansBacked | crates/grok-build-core/src/completion.rs:330-352 | Every verification that an integration of a complete sprint names was carried by a valid effect and passed, for that task and that result, in time |
| Completion.CompleteMeansApplied | crates/grok-build-core/src/completion.rs:211-231 | A complete assessment is always the applied branch over a complete cleanup set |
| Completion.CompletionTimeline | crates/grok-build-core/src/completion.rs:612-738 | A complete assessment orders final verification, its cleanup, application, rollback validation, validator cleanup and completion |
| Completion.ReapedBeforeApplication | crates/grok-build-core/src/completion.rs:649-682 | In a complete assessment every task worker and verifier was reaped no later than the application, and every launch no later than completion |
| Completion.CompleteMeansReleased | crates/grok-build-core/src/completion.rs:252-257 | In a complete assessment no lease is active, exactly the carried leases are released, and no launch is a live-state verifier |
| Framing.FlattenInjective | crates/grok-build-core/src/trust.rs:804-822 | The framed hash input determines its frames |
| Framing.FlattenLayout | crates/grok-build-core/src/trust.rs:804-822 | The framed hash input is the frames one after the other, each after eight bytes that say its length, most significant first |
| Framing.CanonicalHasher.Frame | crates/grok-build-core/src/trust.rs:813-818 | Appends one length-framed byte string to the hash input |
| Framing.CanonicalHasher.constructor | crates/grok-build-core/src/trust.rs:806-811 | A new encoder starts with the framed domain |
| PolicyEncoding.PortableComponents | crates/grok-build-core/src/trust.rs:896-940 | Accepts exactly paths of the requested kind made of normal components, and returns their names |
| PolicyEncoding.NamesInjective | crates/grok-build-core/src/trust.rs:896-940 | Kind and component names determine a portable path |
| PolicyEncoding.EncodePolicy | crates/grok-build-core/src/trust.rs:746-802 | The in-place encoder succeeds exactly on portable policies and produces the canonical hash input |
| PolicyEncoding.OrderedInjective | crates/grok-build-core/src/trust.rs:746-881 | The frames of an ordered policy determine it, for every list length |
| PolicyEncoding.PreimageExact | crates/grok-build-core/src/trust.rs:746-802 | Two policies share a hash input exactly when they differ in nothing but the order of read scopes, write scopes and environment |
| PolicyOrder.CanonicalForgetsOrder | crates/grok-build-core/src/trust.rs:370-378 | Two policies have one canonical form exactly when they are equal up to list order |
| PolicyOrder.ScopesTotal | crates/grok-build-core/src/contracts/primitives.rs:578-584 | The derived order on scopes, with paths compared by components, is total |
| PolicyOrder.CanonicalInOrder | crates/grok-build-core/src/trust.rs:370-378 | Canonical form is the same policy with its lists in order: the workspace first, then relative paths by the first component that differs, root before the current directory before the parent before names, names by their bytes; environment by name and then value |
| PolicyEncoding.Compile | crates/grok-build-core/src/trust.rs:364-395 | Compiles exactly sound-grant, acceptable, portable requests, to the canonical policy and the hash of its encoding |
| PolicyMeaning.CompiledExactly | crates/grok-build-core/src/trust.rs:364-395 | A request compiles exactly when its root is absolute, its scopes relative, all of plain names, and its ordered form is acceptable; the hash is of that form written field by field, with every label, flag byte and number spelled out |
| PolicyEncoding.CompileForgetsOrder | crates/grok-build-core/src/trust.rs:364-395 | Requests that differ only in list order compile to the same policy and hash, or both fail |
| PolicyEncoding.CompileSeparates | crates/grok-build-core/src/trust.rs:364-395 | Two compiled requests have one policy exactly when they differ only in list order, and one hash exactly then or when their encodings collide |
| GrantEncoding.GrantPreimageInjective | crates/grok-build-core/src/trust.rs:702-744 | Two bound grants share a hash input exactly when the grants and the directory identities they are bound to are equal |
| GrantEncoding.DomainsApart | crates/grok-build-core/src/trust.rs:22-23 | No grant shares its hash input with a policy |
| GrantEncoding.EncodeGrant | crates/grok-build-core/src/trust.rs:702-744 | The encoder succeeds exactly when the grant's root is the directory's and is absolute and portable, and produces the grant's hash input; a root mismatch is reported as such |
| PolicyMeaning.GrantWritten | crates/grok-build-core/src/trust.rs:702-744 | The hash input of a grant, frame by frame: domain, identifier, root, device and inode, five permission flags, network flag and version |
| Sorting.SortForgetsOrder | crates/grok-build-core/src/trust.rs:370-378 | Under a total order two lists sort to the same list exactly when they hold the same elements |
| CandidateSelection.Admit | crates/grok-build-core/src/optimal_finish.rs:115-156 | Admits exactly candidates that pass every hard gate, whatever their cost, with the digests, evidence and cost they came with; a refusal names a gate that failed |
| CandidateSelection.PreferenceOrder | crates/grok-build-core/src/optimal_finish.rs:288-313 | Preference is a strict order that decides between any two different identities |
| CandidateSelection.CompareDecides | crates/grok-build-core/src/optimal_finish.rs:288-313 | Comparing two candidates of one cohort answers Less exactly for the preferred one |
| CandidateSelection.Select | crates/grok-build-core/src/optimal_finish.rs:320-341 | Succeeds exactly on a nonempty list of distinct identities with one cohort and policy; the candidate returned has, against any other, no more public interface items; with as many, no more direct dependencies; then production paths, production lines, runtime cost and maintenance cost, in that order; at equal cost the smaller digest by the first byte that differs; a failure names a real fault |
| CandidateSelection.PreferredExactly | crates/grok-build-core/src/optimal_finish.rs:81-95 | Preference is exactly that comparison of the six named costs in their declared order, then of the digests |
| CandidateSelection.SelectionIgnoresOrder | crates/grok-build-core/src/optimal_finish.rs:320-341 | Every permutation of the input is selectable alike and has the same selected candidate |

## Left out

- SHA-256, JSON encoding and canonical byte limits: a digest is a value of the parameter `hash`, a source digest is not recomputed, and size checks are absent.
- UTF-8 validity of path components and the hexadecimal alphabet of digest text: names and digests are byte strings.
- The literal spelling of `PathBuf` values: in the policy model a path is its component list, which is how the library compares it.
- Publication claims, readbacks, closures and receipts of the composition, apart from the cumulative byte and operation accounting.
- Record versions, identifier shapes and recomputed source digests in the composition: field-by-field comparisons that decide nothing about trees.
- Detail strings and field names of errors: an error keeps its kind and the values that decide it, and is proved to name a real fault where the table says so.
- Composition.Derive: errors are characterised by kind, not by which of several faults is reported first; record versions, source digests and canonical byte limits are absent.
- Composition.ValidatePlan: the derivation record, its digests and the change-set identifier computed from it are not modelled.
- Composition.DerivedPlanIntegrity: covers the structural checks; the record digests of the closing check are recomputed from equal inputs and are not modelled.
- Composition.ValidateChangeSet: the test that the change-set identifier is not blank is absent.
- TaskGraph.ValidateGraphRelationships: a rejection names some real fault; which one comes first is not stated.
- RepairSlots.ValidateForSprint: does not compare sprint, graph and snapshot identities or the reciprocal digests, and leaves out goals and path scopes of tasks.
- AttemptChain.ChainBounded: covers `validate` and `validate_successor_of`; the crossing of an attempt with its sprint and graph inputs is plain equality and is not modelled.
- EvidenceDerivation.Derive: source versions, source digests and the closure's digest join are not modelled; the digests that are only compared are one field of the spine.
- EvidenceDerivation.OutcomeAlwaysValid: covers the checks on the outcome kind; the version, size and digest checks of the record are not modelled.
- EvidenceClassification.Classify: states what several outcomes need; the exact conditions are those of EvidenceOutcomes.OutcomeExactly and UnknownExactly.
- Completion.AssessCompletion: contract validity, criterion backing and the field comparison of the completion receipt are Boolean inputs.
- PolicyEncoding.Compile: the grant's own integrity and the production check on the sorted policy are parameters, so the fixed environment-name lists, `.git` rule and scope coverage are not modelled.
- Filesystem identity capture, the ledger, scheduling, permits, legacy contracts and user interfaces: I/O or thin checks.
