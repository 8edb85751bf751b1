# Verification of the constitutional effect kernel and its surroundings

This project models the parts of the repository whose guarantees span several functions, and proves them for
every input, every run and every reachable state.

- **Effect kernel** (`Records`, `Sealing`, `Admitting`, `KernelRuns`, `KernelProofs`, `KernelTheorems`,
  `KernelSafety`, `KernelLegs`, `KernelOrdinals`, `KernelBudget`, `KernelStore`). `KernelRuns` is a state machine with one event
  between two awaits of the source: seals, admissions, dispatches, late target actions, reconciler passes, policy
  activations and crashes interleave freely. `KernelStore` is the same kernel as a class over append-only tables;
  its methods are proved equal to the functions the machine is built from. The locks are not used by the machine,
  so its results hold without them; `DomainLocks` proves the locks on their own.
- **Reconciliation** (`Reconciling`, `ReconcileRuns`). One pass with whatever others record at its awaits, and any
  number of passes side by side.
- **Intake policy** (`Intake`, `Governed`). Rego predicates over the supersession graph, and the store rule that
  makes governed edges unique.
- **Surface owner** (`Surface`). Deadlines, cancellation and the ledger of unreleased commands against an arbitrary
  control plane.
- **Supervisor** (`Transitions`, `LaneSpec`, `SupervisorLoop`). The decision table, the lane records it updates,
  the exact-candidate invariant and the termination measure.
- **Codecs** (`JsonText`, `Json`, `JsonParse`, `JsonCanon`, `JsonSerialize`, `Escapes`, `Utf8`, `Tar`,
  `TarRoundTrip`, `BundlePayload`, `Bundle`), **origin records** (`Origin`), **allocation identity** (`Allocation`) and **assembly** (`Assembly`, whose recheck is part of the kernel's).

Conventions. A digest is represented by the value it digests (sha256 is taken as injective), a fresh id by an id
not yet in its table, time by a parameter or a clock in whole milliseconds, a port by an arbitrary answer that keeps
its stated contract. The settings are the production ones: no rule and no check is disabled. `hide` statements only
keep definitions away from the verifier.

Where code and documentation disagree, the code is modelled. Eight results say where the code keeps less than its
text suggests, each with the exact condition under which it does keep it:

- `startArgumentDigest` calls two starts of the record vertical the same origin when their payload counts are the
  same number, and two development starts the same when their work item is absent or empty, but the sealed request
  spells `extra[0]` literally: `Origin.SameSealIffSpelledAlike`, `Origin.ForgivenSpellingsConflict`.
- The writer of an origin record goes on with its own object, readers with a normalized one, and the material's
  bytes depend on member order: convergence needs the resolver to produce the reader's order (the live one does).
- A `MAX_EFFECTS_IN_WORK_RUN` argument that is no number lifts the run's own declared bound as well:
  `KernelBudget.NonNumericCapBoundsNothing`.
- A decision may declare several `MAX_DISPATCH_ORDINAL` bounds, and the design refuses an ordinal beyond any of them.
  Each one overwrites the one before: all of them are kept, in every history, exactly when the last is a number and
  the least of them, or no request can meet the decision's other constraints:
  `KernelOrdinals.BoundsAreKeptExactly`. Under the bounds 1 and 9 a second dispatch is admitted:
  `KernelOrdinals.EarlierBoundIsOverwritten`.
- Omitting evidence never clears a barrier only because governed edges are unique
  (`Intake.OmissionClearsWithoutUniqueness`), and they are unique exactly when the registry entry of
  `governed:reclassification` carries `governed_edge`. The configuration check reserves that opt-in for this producer
  and does not require it; without it rows are inserted with no edge key and the index does not bite:
  `Governed.OptInIsExact`.
- `reconcile_max_attempts` bounds the probes of an admission for passes that do not overlap. A pass counts, awaits
  its adapter and only then writes, outside the locks: with `p` passes at an admission together the bound is
  `max + p - 1`, and it is reached: `ReconcileRuns.AttemptsAreBounded`, `ReconcileRuns.BoundIsReached`. In the same
  window a pass can write to an admission that has become conclusive: `ReconcileRuns.WriteMeetsOnlyOvertaken`.
- A payload digest names the files of a bundle only up to NULs in paths. The reader keeps a NUL that a later line end
  hides, and the encoding ends a path with one: two archives with different files can have one payload
  (`BundlePayload.NulPathSharesAPayload`). Against an archive without such paths, another of the same payload has the
  same files exactly when it has none either: `BundlePayload.OnePayloadIsOneContent`, and for a built bundle
  `Bundle.PublishedPayloadIsTheFiles`.
- `buildPolicyBundle` takes any policy id; its manifest can be read back exactly when the id is one the revision
  pattern admits: `Bundle.BuiltManifestIsHonest`.

The ustar reader is proved to keep more than its documentation promises: names may contain a NUL that a later line
end hides, and sizes are kept up to 8^12 - 1 (`TarRoundTrip.TarRoundTrip`).

Remarks. Every configuration the kernel accepts retains `cadp-jcs-1` (`cadp/kernel/policyBundle.ts:484-491`), so the
digest scheme leg of a seal, which is modelled, refuses nothing under them. Under the shipped policy the measure of `LaneSpec.WorkIsBounded` is at most 119
(`LaneSpec.ShippedPolicyBound`). From the decision table alone, drift and mutation leave the merge boundary only by
voiding the reviews (`Transitions.LeavingMergeWaitVoidsReviews`), and hold and resume leave candidate, reviews, heads
and rounds alone (`LaneSpec.HumanCommandsKeepTheReview`).

Assumptions of the target side, all in `KernelRuns.Truthful` and `KernelRuns.Enabled`: a bound receipt means that
the effect landed; a no-effect proof means that this dispatch neither acted nor will act; a target acts at most once
per dispatch; an operation's idempotency kind never changes.

## Model

| member | source | states |
|---|---|---|
| KernelTheorems.RunCapabilityProtocol | cadp/kernel/pep.ts:754-769 | in every reachable store a capability row exists exactly for the self-memberships whose ordinal-1 admission exists, is held by the sealed requester of a WORK_START, and every other membership has such a row held by its own requester and a COMMITTED run |
| KernelTheorems.UnwitnessedNeverMints | cadp/kernel/pep.ts:202-231 | a request sealed without the self-witness never gets a capability or members, whatever is activated later |
| KernelLegs.EnrolledAdmissionsAreMembers | cadp/kernel/pep.ts:660-701 | every admission checked under a policy that enrolls its requester proved, at its seal, membership of exactly the run it names |
| KernelProofs.FirstSealProves | cadp/kernel/ingress.ts:914-937 | a seal that proves membership of another run presented that run's own secret, as its holder, after the run landed |
| KernelTheorems.OrdinalsAreConsecutive | cadp/kernel/pep.ts:556-578 | the ordinals of an effect are exactly 1..n, once each, every admission naming the one before it |
| KernelTheorems.Reachable | cadp/kernel/pep.ts:337-731 | the invariants of rows, memberships, capabilities, ordinals, justification, target and calls hold in every reachable state |
| KernelSafety.NothingAfterCommitted | cadp/kernel/pep.ts:563-565 | after a COMMITTED outcome no admission of that effect is ever added |
| KernelSafety.LandsAtMostOnce | cadp/kernel/pep.ts:893-934 | without a native key at most one dispatch of an effect ever acts on the target, and COMMITTED means that one did |
| KernelSafety.LandingIsLast | cadp/kernel/pep.ts:566-572 | the dispatch that acted is that of the last admission, since every earlier one is proved void |
| KernelSafety.DecisionAuthorizesOneEffect | cadp/kernel/pep.ts:445-469 | in every reachable store a Human or agent decision is never carried by admissions of two different effects, and its scope names the one that carries it |
| KernelSafety.OpenIncidentHolds | cadp/kernel/ingress.ts:1612-1623 | from an incident on, until its break-glass release, no effect whose request names a subject of it is admitted |
| KernelSafety.HeldEffectIsNotAdmitted | cadp/kernel/pep.ts:475-479 | the transaction admits nothing while such an incident is open |
| KernelBudget.BudgetHolds | cadp/kernel/pep.ts:818-849 | with every decision of the run capped, at most `max_effects` distinct effects of the run are ever admitted, in every later state |
| KernelBudget.AdmissionFitsBudget | cadp/kernel/pep.ts:845-846 | a capped admission happens only while the whole sealed run fits the cap and the declared bound |
| KernelBudget.NonNumericCapBoundsNothing | cadp/kernel/pep.ts:824-842 | a cap that is no number refuses only a malformed declared bound; a numeric cap holds exactly while both bounds do |
| KernelLegs.FirstSealIsTheAllocatedRequest | cadp/kernel/ingress.ts:1021-1088 | the binding legs pass exactly for the allocated tuple, the unchanged contract, each projection bound once to its field, and the paired operation |
| KernelLegs.OnlyTheAllocatorSeals | cadp/kernel/ingress.ts:703-715 | under v2 only the allocation's own requester gets a row, a re-seal or a conflict |
| KernelLegs.ResealIsIdempotent | cadp/kernel/ingress.ts:717-735 | repeating a successful seal changes nothing and answers the same row |
| KernelLegs.LaterResealAnswersTheRow | cadp/kernel/ingress.ts:651-735 | in any later state the identical call writes nothing, meets no conflict, and answers the sealed row exactly when the policy active by then lets it through; under a policy of the same version, exactly when the caller still is the requester and the digest scheme is still approved |
| KernelLegs.ConflictHoldsScope | cadp/kernel/ingress.ts:763-770 | a conflicting re-seal changes nothing but one open incident, which holds the effect's scope |
| KernelLegs.AdmittedOnCompleteEvidence | cadp/kernel/pep.ts:627-658 | every admission of a reachable store was committed on an input that carries all envelopes sealed by that moment for each declared kind and bound subject |
| KernelOrdinals.OrdinalWithinBound | cadp/kernel/pep.ts:576-578 | an admitted ordinal respects the last MAX_DISPATCH_ORDINAL |
| KernelOrdinals.BoundsAreKeptExactly | cadp/kernel/pep.ts:525-578 | over all histories, every admission under a decision is within every bound it declares exactly when the last bound is numeric and least, or its other constraints cannot be met |
| KernelOrdinals.EarlierBoundIsOverwritten | cadp/kernel/pep.ts:779-780 | a history in which ordinal 2 is admitted under the bounds 1 and 9 |
| KernelStore.Kernel.constructor | cadp/kernel/store.ts:258-284 | a new store is the genesis state of the machine |
| KernelStore.Kernel.OpenIncidents | cadp/kernel/store.ts:433-449 | exactly the incidents that no break-glass envelope releases |
| KernelStore.Kernel.HeldBy | cadp/kernel/ingress.ts:1612-1623 | an open incident sharing a subject with the request, if there is one |
| KernelStore.Kernel.AssertFirstSealBinding | cadp/kernel/ingress.ts:1021-1088 | the loops over namespaces and projections answer the first failing leg |
| KernelStore.Kernel.FirstSealOf | cadp/kernel/ingress.ts:736-760 | binding, enrollment, origin and membership legs in order |
| KernelStore.Kernel.SealEffectRequest | cadp/kernel/ingress.ts:651-770 | the new store and the answer are those of the adjudicated seal: refused, existing, conflict, or row and proof together |
| KernelStore.Kernel.ReusedElsewhere | cadp/kernel/pep.ts:459-467 | the loop over admissions finds a use by another effect exactly when there is one |
| KernelStore.Kernel.HumanScope | cadp/kernel/pep.ts:445-469 | recheck #5 over the bound evidence answers the first failure |
| KernelStore.Kernel.EnforceConstraints | cadp/kernel/pep.ts:525-534 | the constraint loop refuses at the first violated one, else yields the overwritten bound |
| KernelStore.Kernel.Adjudicate | cadp/kernel/pep.ts:337-701 | the rechecks in order, #18 with its loops, yield the ruling of the machine |
| KernelStore.Kernel.AdmissionTransaction | cadp/kernel/pep.ts:703-731 | admission row and capability are written together, the secret is delivered exactly when a capability row is new, and a refusal or abort writes neither |
| KernelStore.Kernel.WriteOutcome | cadp/kernel/pep.ts:937-995 | exactly one outcome row is added, a receipt exactly for a conclusive result, and an incident on the effect exactly when the opposite one is already recorded |
| KernelStore.Kernel.SealExhausted | cadp/kernel/reconciler.ts:97-111 | one exhaustion envelope for an effect, never a second |
| KernelStore.Kernel.ReconcileRow | cadp/kernel/reconciler.ts:60-92 | the count before the await, what others write during it, then the outcome, its receipt, its incidents and the exhaustion envelope |
| KernelStore.Kernel.ReconcileEffect | cadp/kernel/reconciler.ts:47-95 | one probe for each admission open at the start, skipping exhausted ones, whatever others record at the awaits; answers the last outcome it wrote |
| KernelStore.ContradictionHoldsEffect | cadp/kernel/pep.ts:984-990 | once contradictory outcomes sealed their incident, no admission of the effect is ruled until a release |
| Reconciling.PassIsBounded | cadp/kernel/reconciler.ts:60-92 | one pass takes an admission's probes to the policy's bound at most, beyond what others complete at its awaits |
| Reconciling.PassWritesOpenRows | cadp/kernel/reconciler.ts:47-53 | what a pass itself writes goes to admissions it found open, in the reconciler's name |
| ReconcileRuns.AttemptsAreBounded | cadp/kernel/reconciler.ts:60-92 | with at most p passes at an admission together its probes never exceed max + p - 1, and are none under a bound of none |
| ReconcileRuns.BoundIsReached | cadp/kernel/reconciler.ts:60-66 | for every bound and every p there is such a run that reaches it |
| ReconcileRuns.RowStepIsTwoSteps | cadp/kernel/reconciler.ts:60-92 | one row of a pass is a count, what others do meanwhile, and a write of the interleaving machine |
| ReconcileRuns.PassIsBoundedInHistory | cadp/kernel/reconciler.ts:47-95 | wherever a pass runs inside a history, its outcomes are those of the pass function and the bound for p passes holds of them |
| ReconcileRuns.WriteMeetsOnlyOvertaken | cadp/kernel/reconciler.ts:41-53 | a pass writes to a conclusive admission exactly when somebody else made it so since the pass began, and contradicts exactly when that was the opposite result |
| Governed.GovernedStore.InsertGovernedEvidence | cadp/kernel/ingress.ts:1181-1360 | the answer and the new rows are those of the submission, with or without opt-ins; replay and restatement return the held row, another payload seals one incident and no row, both unique indexes stay kept |
| Governed.StoreIsIndexed | cadp/kernel/store.ts:148-154 | after any submissions ids are unique and no two governed rows share a source or an edge key |
| Governed.NoEvidenceListClears | cadp/kernel/ingress.ts:1276-1283 | over any submissions in which the governed producer wrote under the edge opt-in, no choice of an admission's evidence clears a tip that more evidence would block |
| Governed.OptInIsExact | cadp/kernel/policyBundle.ts:455-468 | the registry entry of the governed producer gives that protection exactly when it carries the edge opt-in |
| Intake.AncestryIsReachability | cadp/deployment/referencePolicy.ts:543-558 | ancestry is exactly reachability along supersession walks |
| Intake.NoPredecessorVanishes | cadp/deployment/referencePolicy.ts:549-556 | every referenced predecessor of an ancestor is an ancestor, presented or not |
| Intake.OmissionNeverClears | cadp/deployment/referencePolicy.ts:684-712 | with unique governed edges, a barrier under more evidence is a barrier under less, when both present the tip |
| Intake.OmissionClearsWithoutUniqueness | cadp/deployment/referencePolicy.ts:668-682 | without uniqueness omitting a rival edge clears a barrier |
| Intake.BarrierIsPathObligation | cadp/deployment/referencePolicy.ts:684-727 | a tip is clear exactly when its history is fully presented and every chain from a contract-class ancestor is discharged on the way |
| Intake.ClearTipAnswersForSubject | cadp/deployment/referencePolicy.ts:635-712 | on every chain from a contract-class ancestor to a clear tip the obligation was handed on without rival to where a landed resolution or a governed clearing ends it, about its own subject unless a governed transfer moved it |
| Surface.Owner.Settle | cadp/product/isolation.ts:231-250 | an answer is handed back only with its command closed, otherwise the command stands in the ledger, all by the deadline |
| Surface.Owner.Stop | cadp/product/isolation.ts:300-303 | only an observed closure of this command counts |
| Surface.Owner.Record | cadp/product/isolation.ts:269-273 | a release clears its own command and no other |
| Surface.Owner.Reported | cadp/product/isolation.ts:282-284 | a claimed end means an empty ledger |
| Surface.Owner.ReserveFor | cadp/product/isolation.ts:287-289 | the cancellation slice is positive and fits the window |
| Surface.Owner.PortAnswer | cadp/product/isolation.ts:340-343 | observations are true at a moment of their window; a completed create settles whether the name exists |
| Surface.Owner.TerminateSurface | cadp/product/isolation.ts:434-442 | ends by the deadline, and TERMINATED means the container is gone |
| Surface.Owner.SettleOrphanedSurface | cadp/product/isolation.ts:457-461 | any claimed end means the container is gone |
| Surface.Owner.ReconcileUnacknowledgedCreation | cadp/product/isolation.ts:477-505 | ends by the deadline, and TERMINATED only after the container was seen and then gone |
| Surface.Owner.LaunchAnswer | cadp/product/isolation.ts:370-402 | a normal exit is seen only with the closure of its process |
| Surface.Owner.EndLauncher | cadp/product/isolation.ts:580-620 | the launcher is accounted for and the container settled inside one deadline |
| Surface.Owner.RunBoundedSurface | cadp/product/isolation.ts:532-632 | over within timeout + 2 * termination; no claimed end with a live command; TERMINATED means gone, NEVER_CREATED means it never exists, status 0 means EXITED in time |
| Surface.RunUnderBudget | cadp/product/timeouts.ts:103-142 | each declared operation is over before the broker, the rpc and the attempt bounds |
| Transitions.OnlyExactGoOpensMergeWait | devharness/transitions.ts:359-411 | the table opens the merge boundary exactly on a typed GO for the unmoved frozen head |
| Transitions.RetriesAreExactAndBounded | devharness/transitions.ts:128-205 | a provider retry is counted exactly for a retryable failure within the policy, with the provider's own delay |
| LaneSpec.MergeReadyIsExact | devharness/supervisor.ts:126-174 | in every history a lane at the merge boundary has a frozen candidate and an unvoided GO naming its base and head; the counters stay within the policy |
| LaneSpec.OpeningMergeWait | devharness/supervisor.ts:404-459 | a step opens the boundary only on a GO with the head and base unmoved before and after the review |
| LaneSpec.MoveKeepsInv | devharness/supervisor.ts:255-494 | every step, crash, throw, restart and human command keeps the lane invariant |
| LaneSpec.DecisionsAreSound | devharness/transitions.ts:207-457 | every decision on a sound lane is one the invariant survives |
| LaneSpec.StepDecreasesMeasure | devharness/supervisor.ts:255-494 | with no outside head change, a step either waits at a boundary or strictly lowers rounds left, phase, retries left |
| LaneSpec.WorkIsBounded | devharness/supervisor.ts:579-614 | however long the supervisor runs, the steps that do more than wait are bounded by the measure |
| SupervisorLoop.Lane.InvalidateReviews | devharness/supervisor.ts:133-141 | the loop voids every review and the reviewed head |
| SupervisorLoop.Lane.Apply | devharness/supervisor.ts:126-155 | the lane becomes the decision's bookkeeping of the old lane |
| SupervisorLoop.Supervisor.Fire | devharness/supervisor.ts:176-178 | decide, then apply |
| SupervisorLoop.Supervisor.RemoteIdentityDrifted | devharness/supervisor.ts:230-249 | foreign pushes first, then an advanced base, which is adopted; otherwise nothing changes |
| SupervisorLoop.Supervisor.RefreshBaseAfterDesignMerge | devharness/supervisor.ts:204-224 | refuses a base that does not contain the landed design |
| SupervisorLoop.Supervisor.ConcludeReview | devharness/supervisor.ts:428-459 | drift before verdict, and a recorded GO only for the reviewed head |
| SupervisorLoop.Supervisor.StepReview | devharness/supervisor.ts:404-459 | one review step is its plan carried out |
| SupervisorLoop.Supervisor.StepMergeWait | devharness/supervisor.ts:461-486 | one step at the merge boundary is its plan carried out |
| SupervisorLoop.Supervisor.StepFreeze | devharness/supervisor.ts:350-402 | one freezing step is its plan carried out |
| SupervisorLoop.Supervisor.Step | devharness/supervisor.ts:255-494 | one step of any lane is its plan carried out, and a yield without a status change is at a boundary |
| SupervisorLoop.Supervisor.Reconcile | devharness/supervisor.ts:500-518 | startup reconciles every lane and keeps all invariants |
| SupervisorLoop.Supervisor.StepOrHold | devharness/supervisor.ts:592-604 | a step that throws leaves a held lane that keeps the invariant |
| SupervisorLoop.Supervisor.Run | devharness/supervisor.ts:579-614 | ends within the step bound, keeps all invariants, and stops early only with every lane at a boundary |
| JsonText.StringRoundTrip | cadp/kernel/canonical.ts:19-21 | every string, lone surrogates included, is read back from what it was written as |
| JsonText.LessIsTotal | cadp/kernel/canonical.ts:43-46 | the key order is total and irreflexive |
| JsonParse.ValueRoundTrip | cadp/kernel/store.ts:393-398 | the parser reads any printed value back, whatever follows it |
| JsonParse.IntRoundTrip | cadp/kernel/canonical.ts:22-26 | so for every safe integer |
| JsonCanon.JcsReadsBack | cadp/kernel/canonical.ts:18-41 | canonical text parses to a value with the same meaning |
| JsonCanon.JcsIsExact | cadp/kernel/canonical.ts:18-41 | equal canonical text exactly for values equal up to member order and undefined members |
| JsonCanon.DigestTextIsExact | cadp/kernel/canonical.ts:61-65 | two records digest alike exactly when they agree outside the digest field |
| JsonCanon.StoredRecordKeepsDigest | cadp/kernel/store.ts:343-362 | a record stored as text and parsed back recomputes its digest |
| JsonSerialize.Serialize | cadp/kernel/canonical.ts:18-41 | the recursion and the parts loop write the canonical text, and refuse only undefined itself |
| JsonSerialize.SortedIsSorted | cadp/kernel/canonical.ts:31-37 | what the sorted loop keeps is the canonical member list |
| Escapes.BuildJcsEscapes | cadp/deployment/referencePolicy.ts:21-28 | the generated table is backslash, quote, then the controls in order |
| Escapes.ChainIsOnePass | cadp/deployment/referencePolicy.ts:30-41 | a chain in which no later target occurs in earlier output is one simultaneous pass |
| Escapes.EscapesAreOrdered | cadp/deployment/referencePolicy.ts:18-19 | the generated chain has that property |
| Escapes.JcsStringIsExact | cadp/deployment/referencePolicy.ts:30-41 | the chain writes the canonical string exactly when no surrogate is alone |
| Escapes.QuoteFirstIsWrong | cadp/deployment/referencePolicy.ts:18-19 | with the quote first the result differs |
| Utf8.Utf8RoundTrip | cadp/kernel/policyBundle.ts:22-57 | a string written as UTF-8 is read back exactly when no surrogate stands alone |
| Utf8.ReadIsPaired | cadp/kernel/policyBundle.ts:57-57 | what is read from any bytes has no lone surrogate |
| Tar.ChecksumIsStored | cadp/kernel/policyBundle.ts:31-34 | the checksum field holds the sum of the header with that field blank |
| Tar.HeaderFields | cadp/kernel/policyBundle.ts:20-36 | what a reader finds in the name, size and type fields |
| TarRoundTrip.TarHeader | cadp/kernel/policyBundle.ts:20-36 | the buffer writes and the checksum loop produce the header |
| TarRoundTrip.BuildTar | cadp/kernel/policyBundle.ts:38-48 | the parts loop produces the archive |
| TarRoundTrip.ParseTar | cadp/kernel/policyBundle.ts:50-67 | the offset loop reads the archive |
| TarRoundTrip.SizeReads | cadp/kernel/policyBundle.ts:58-58 | a size is read back exactly below 8^12, and read as less from there on |
| TarRoundTrip.NameReads | cadp/kernel/policyBundle.ts:20-57 | a name is read back exactly when it is well-formed text of at most 100 bytes that hides its NULs |
| TarRoundTrip.TarRoundTrip | cadp/kernel/policyBundle.ts:38-67 | an archive of any named files reads back exactly when every name does and every size is below 8^12 |
| BundlePayload.PayloadIsUniquelyDecodable | cadp/kernel/policyBundle.ts:76-91 | of the entry lists with the encoding of a list whose paths are well-formed and without NUL and whose lengths fit eight bytes, exactly that list is such a list |
| BundlePayload.OnePayloadIsOneContent | cadp/kernel/policyBundle.ts:50-91 | equal hashed files mean equal payloads; against an archive with no NUL in a path and lengths below 2^64, another with the same payload has the same files exactly when it meets that condition too |
| BundlePayload.NulPathSharesAPayload | cadp/kernel/policyBundle.ts:57-88 | two archives that parse to different files and have one payload, since a path keeps its NULs |
| Bundle.PublishedPayloadIsTheFiles | cadp/kernel/policyBundle.ts:76-156 | an archive with the payload of a built bundle holds its policy and data exactly when none of its paths keeps a NUL |
| Bundle.RevisionRoundTrip | cadp/kernel/policyBundle.ts:97-105 | a printed manifest revision parses to its parts |
| BundlePayload.HashInput | cadp/kernel/policyBundle.ts:141-149 | the hashing loop feeds the payload encoding |
| Bundle.BuildPolicyBundle | cadp/kernel/policyBundle.ts:131-156 | the built archive is the manifest and the two files, for any policy id |
| Bundle.BuiltPayloadIsRead | cadp/kernel/policyBundle.ts:76-156 | a reader of any built bundle hashes what the builder hashed |
| Bundle.BuiltManifestIsHonest | cadp/kernel/policyBundle.ts:97-156 | the manifest names the digest a reader computes from the bundle's own bytes, with its policy and revision, exactly when the policy id fits the revision pattern |
| Bundle.SameDigestSameContent | cadp/kernel/policyBundle.ts:76-91 | two bundles publish one payload digest exactly when policy and data are the same |
| Origin.OriginFile.Link | cadp/live/ops.ts:454-467 | the file is created once and never overwritten |
| Origin.OriginFile.Open | cadp/live/ops.ts:479-501 | whoever wins the race, the file never changes and the caller leaves with its contents or not at all |
| Origin.SameSealIffSpelledAlike | cadp/live/ops.ts:563-674 | two starts one record accepts seal the same content exactly when extra[0] is spelled alike and the image order is the reader's |
| Origin.ForgivenSpellingsConflict | cadp/live/ops.ts:553-588 | absent, "2" and "2.0" are one argument identity and three requests |
| Origin.RecordIsPinned | cadp/live/ops.ts:444-475 | the record never changes once written, whatever the environment does |
| Origin.AllAdoptOneRecord | cadp/live/ops.ts:425-501 | every attempt that reaches the kernel works from one record |
| Origin.UniformRetriesConverge | cadp/live/ops.ts:797-861 | any racing, crashing and retried starts spelled alike never raise a request conflict |
| Allocation.ActivatedContracts | cadp/kernel/policyPublication.ts:53-74 | the nested loops over the history yield the kept descriptors and mappings |
| Allocation.DescriptorIsCarried | cadp/kernel/policyPublication.ts:53-74 | what is kept for a schema is the descriptor of the first activation that carried one, and nothing is kept only when none did |
| Allocation.MappingIsCarried | cadp/kernel/policyPublication.ts:53-74 | so for mappings |
| Allocation.AssertContractImmutability | cadp/kernel/policyBundle.ts:708-742 | accepts exactly the configurations that keep every sealed descriptor and both run-origin entries |
| Allocation.RunOriginContractIsOne | cadp/kernel/policyPublication.ts:53-74 | over any activations, withdrawals and re-additions the run-origin contract has one value |
| Allocation.OneOriginOneIdentity | cadp/kernel/ingress.ts:589-641 | one requester and origin tuple always get one effect id, and no other pair gets it |
| Allocation.StaleCommitWouldFork | cadp/kernel/rootListener.ts:163-167 | without the commit check two proposals valid against one history would fork the contract |
| Assembly.AddRows | cadp/kernel/ingress.ts:1505-1509 | matched rows are verified and enter the union with their stored digest |
| Assembly.AddEntry | cadp/kernel/ingress.ts:1496-1511 | one declared entry adds exactly its matching envelopes |
| Assembly.Assemble | cadp/kernel/ingress.ts:1472-1551 | seals the caller's refs verbatim without entries, else the complete sorted union; refuses exactly unknown refs, unbound entries and rows that do not recompute |
| Assembly.SealedSetIsDetermined | cadp/kernel/ingress.ts:1512-1517 | the sealed refs do not depend on the caller's order or repetitions |
| Assembly.CallerOnlyAdds | cadp/kernel/ingress.ts:1462-1466 | the caller can add evidence and never take any away |
| Assembly.RecheckAssembly | cadp/kernel/pep.ts:627-658 | recheck #18 passes exactly when the input carries the complete set of every declared kind and subject |
| Assembly.AdmissionIsCurrent | cadp/kernel/pep.ts:616-658 | an assembled input passes it over any later store exactly when no envelope sealed in between answers a declared entry |
| DomainLocks.Locks.Attempt | cadp/kernel/pep.ts:86-103 | one pass of the acquire loop, up to the next await or into the section |
| DomainLocks.Locks.ReleaseLock | cadp/kernel/pep.ts:94-99 | release frees the domain and settles its promise |
| DomainLocks.MutualExclusion | cadp/kernel/pep.ts:83-104 | at most one holder per domain, an entry exactly while there is one, and every waiter is runnable or waits on that holder |
| DomainLocks.FreeDomainIsEntered | cadp/kernel/pep.ts:87-91 | when nobody holds a domain every caller of it can run and the next one enters |

## Left out

- Rechecks #1, #3 (drift), #4, #6, #8, #9, #11, #13 to #17, NOT_AFTER, MATERIAL_SIZE_MAX and REQUIRE_NO_PRIOR_UNKNOWN_IN_SCOPE: they read clocks, adapters, bytes or other outcomes and can only refuse; one arbitrary answer stands for all of them.
- Refusal order: the kernel model keeps the order of the rechecks it contains; which of the others refuses first changes only the reason.
- Incidents of refusals other than UNSUPPORTED_CONSTRAINT and REQUEST_DIGEST_CONFLICT: covered by the machine's event that adds any envelope at any time.
- Record shape validation, and approved digest schemes elsewhere than at a seal: they can only refuse, before anything is written.
- Digests, signatures, gzip, SQLite, OPA, Docker, Temporal, git and GitHub: represented by injective values, inverse pairs, append-only tables and arbitrary answers.
- Subject keys are compared as triples; the source joins them with `|`, so two triples containing that character could meet in one key.
- NATIVE_KEY operations: several dispatches may reach the target, whose own key makes them one; that contract is the target's.
- KernelSafety.LandsAtMostOnce: at most once per effect rests on truthful, stable no-effect proofs and on a target that acts once per dispatch, since the reconciler runs outside the locks.
- KernelStore.Kernel.ReconcileEffect: what others do at an await is limited to outcomes and envelopes, since a pass reads no other table after its start.
- `reconcileOpenAdmissions`, `insertWorkStep`, `submitEvidence` registries, `finding_seal_ok` and derived drafts, the strict base64url capability parser: no property beyond their own branches.
- Surface.Owner.RunBoundedSurface: timers fire on time and synchronous code takes no time; real schedulers add their own delay. The two halves of the final Promise.all are run one after the other inside the same deadline.
- Surface texts (stdout, stderr, notes) and argv builders.
- Supervisor receipts, journal, dry-run branches, notes, delays' waiting, finding texts and actor prompts; a throw between two assignments is covered by any mixture of the fields.
- LaneSpec.StepDecreasesMeasure: says nothing about steps in which the branch head moved under the supervisor, restarts, or human commands, which may raise the measure.
- Json numbers are the safe integers; the parser accepts leading zeros, which JSON.parse refuses and `jcs` never writes.
- TarRoundTrip.ParseTar: a size of -512 or less, over which the loop steps back in the archive, is read as moving nowhere; no writer produces a sign.
- Bundle.BuiltManifestIsHonest: data.json and policy.rego are byte strings; their own parsing is not part of it.
- Origin: provider selection is an input; a record file deleted by hand is a new origin; only the parts of the request that a start, its key and its record decide are in `Content`.
- Allocation: tuple shape and value contracts are one arbitrary refusal; projection coverage and the other registries of the configuration are not modelled.
- Assembly: the record around the refs, its timestamp and the content-addressed insert.
- DomainLocks: a caller releases once, as its `finally` does.
- Liveness that needs fair scheduling, HTTP, tokens, CLI parsing, adapters' internals, and the test-only switches.
