# The cache control plane of glmaxx, modelled and proved

The `glm-cache` crate is a CPU control plane made of cooperating state machines. This project models
six of them and proves what their tests can only sample.

- **Sequence page table** (`Page`, `Sequence*`). A four-rank page allocator with reference counts,
  shared sealed prefixes, copy-on-write forks, speculative reservation and a reuse quarantine.
- **Page-table replication** (`Delta*`). The difference of two page tables and the mirror that applies it.
- **I/O scheduler** (`Schedule*`, `Scheduler`). Five queues, three byte counters and a flag.
- **Durability** (`Tier*`, `JournalFile`, `Store*`). The 512-byte journal record, replay, the
  catalogue, and the store over a journal file and a data file.
- **Residency** (`Residency*`). An LRU manager of HBM and DRAM budgets with pins and registration plans.
- **Direct restore** (`CircularSearch`, `DirectBuffers`, `DirectDescriptors`, `Restore*`). Tickets, waiters, tenant
  charges, buffers and descriptors with generations, a completion queue, cancellation in either order,
  and a checksum worker pool joined by bounded channels.

`TopK` adds the deterministic top-k selection.

Each state machine has a value model: a datatype for the state and one total function per operation,
with the source's branches, limits and errors, which returns the state the operation leaves. The
invariants and the theorems are about these functions and about whole runs of them. Beside the model
stands a class with the source's fields, whose methods follow the source's statements and loops and
are proved to do what the functions say. The modules `*Law`, `*Answers`, `ScheduleOrder`,
`SequenceAdmission` and `RestoreRequests` say what the functions answer, independently of how they are
written: exactly when an operation succeeds and what it leaves, with every condition written out.
`Collections` and `Octets` hold results, sums over finite maps and byte strings.

Integers are unbounded in Dafny, so every checked addition, width and limit of the source is written
out. A 32-byte key or digest is the number it denotes, with zero for the all-zero string. SHA-256, CRC32C
and the decoding of an extent are function parameters about which nothing is assumed.

## What was found

- `fail_checksum_pool` fails tickets whose read is still in flight. Such a read is lost: its completion is
  refused in every continuation, its ticket never ends, and the table's own validator rejects the table from
  then on. `RestoreValidator.RunsAreAcceptedExactly` proves that the validator accepts after a run exactly
  when the pool has not failed in it while a read was in flight; `RestoreLostRead.PoolFailureLosesRead` is
  a run in which it does. Accounts, worker protocol, delivery and dead tokens survive even that.
- The descriptor table by itself would issue a completed cancel token a second time while its read is
  pending (`DirectDescriptors.CompletedTokens`, an equivalence). The restore table never does so.
- A sequence with drafts that joins a published page gives a draft slot to holders without drafts; such a
  table has no mirror (`DeltaMirrors.MirrorExists`, an equivalence, and the run `DeltaTheorems.JoiningRun`).
  `DeltaDrafts.MirrorAfterAdmission` says exactly which admissions leave a table with a mirror.
- A sequence removed and admitted again with the other MTP flag between two generations yields a delta that
  the mirror refuses (`DeltaTheorems.ReachableTablesReplicate`, an equivalence, and the run
  `DeltaTheorems.ReadmittingRun`).
- The internal errors of the scheduler's `next` cannot be reached (`ScheduleInvariant.NextKeepsValid`).

## Model

| member | source | states |
|---|---|---|
| SequenceSteps.GrowKeepsConsistent | crates/glm-cache/src/sequence.rs:902-943 | allocating a page for a sequence keeps pools, references, prefix map and shapes consistent, and fails only for lack of a slot |
| SequenceSteps.ShareKeepsConsistent | crates/glm-cache/src/sequence.rs:300-345 | joining a sealed page, with or without a new draft slot, keeps the invariant |
| SequenceSteps.DropKeepsConsistent | crates/glm-cache/src/sequence.rs:945-979 | releasing the last page of a sequence keeps the invariant |
| SequenceTransitions.NewIsValid | crates/glm-cache/src/sequence.rs:190-210 | a new table satisfies the invariant |
| SequenceTransitions.AdmitIsSound | crates/glm-cache/src/sequence.rs:267-371 | admission over a prefix keeps the invariant, leaves the other sequences alone, and fails only with an error its callers expect; which pages it gives is `SequenceAdmission.AdmissionGives` |
| SequenceTransitions.AppendIsSound | crates/glm-cache/src/sequence.rs:373-389 | the same for appending |
| SequenceTransitions.ForkIsSound | crates/glm-cache/src/sequence.rs:393-462 | the same for forking |
| SequenceTransitions.BeginIsSound | crates/glm-cache/src/sequence.rs:464-511 | the same for opening a speculative transaction |
| SequenceTransitions.CommitIsSound | crates/glm-cache/src/sequence.rs:513-534 | the same for committing part of it |
| SequenceTransitions.RollbackIsSound | crates/glm-cache/src/sequence.rs:536-545 | the same for rolling it back |
| SequenceTransitions.RemoveIsSound | crates/glm-cache/src/sequence.rs:547-568 | the same for removing a sequence |
| SequenceAdmission.AdmissionExactly | crates/glm-cache/src/sequence.rs:267-371 | exactly when an admission succeeds: nothing bound, a new id, no key twice, drafts for a sequence with drafts, every published page joinable (its ordinal, namespace, digests, and a draft that is the same, not asked for, or new from a newer generation), and slots on every rank for what is new |
| SequenceAdmission.AdmissionGives | crates/glm-cache/src/sequence.rs:64-81 | page j of an admitted sequence is live, full and sealed, at ordinal j, published with the namespace, key, digests and draft of attachment j; it is the page under that key, changed at most by a missing draft, or a new one; no other page or sequence changes |
| SequenceAnswers.AllocatesLowest | crates/glm-cache/src/sequence.rs:902-943 | a page is allocated exactly when its rank has the free slots it needs; it takes the lowest of each kind and nothing else changes |
| SequenceAnswers.AppendsExactly | crates/glm-cache/src/sequence.rs:652-725 | exactly when tokens can be appended, slots counted per rank |
| SequenceAnswers.AppendGives | crates/glm-cache/src/sequence.rs:652-725 | the committed tokens grow by those appended, each page holds its share and is sealed once full, and nothing sealed before changes |
| SequenceAnswers.BeginsExactly | crates/glm-cache/src/sequence.rs:464-511 | exactly when one to seven tokens can be reserved |
| SequenceAnswers.BeginGives | crates/glm-cache/src/sequence.rs:464-511 | the committed tokens stay, the reserved ones fill open and new pages, nothing sealed changes |
| SequenceAnswers.CommitsExactly | crates/glm-cache/src/sequence.rs:513-534 | exactly when reserved tokens can be committed; the first k are, the rest goes back with the pages that held nothing else |
| SequenceAnswers.RollbacksExactly | crates/glm-cache/src/sequence.rs:536-545 | exactly when a transaction can be rolled back; only its committed tokens and their pages are left |
| SequenceAnswers.RemovesExactly | crates/glm-cache/src/sequence.rs:547-568 | exactly when a sequence can be removed; its pages stay live while another sequence holds them and are quarantined otherwise |
| SequenceAnswers.ForksExactly | crates/glm-cache/src/sequence.rs:393-462 | exactly when a sequence can be forked |
| SequenceAnswers.ForkGives | crates/glm-cache/src/sequence.rs:393-462 | a fork lists the very sealed pages of its source, each with one more holder, and a private unpublished copy of the open page with the same fill; no other page or sequence changes |
| SequenceRuns.OperationIsSound | crates/glm-cache/src/sequence.rs:176-210 | every operation, successful or failing, keeps each rank's ids split into free, quarantined and live, reference counts equal to holders, prefix keys one-to-one, and every sequence full pages plus at most one partial tail |
| SequenceRuns.RunKeepsValid | crates/glm-cache/src/sequence.rs:176-210 | the same over every run |
| SequenceRuns.InternalErrorsAreUnreachable | crates/glm-cache/src/sequence.rs:902-979 | no run from a new table ever returns an invariant, page-state or transition error |
| SequenceRuns.OthersNeverDisturb | crates/glm-cache/src/sequence.rs:267-371 | copy-on-write: runs that do not name a sequence leave its pages, their states and fills as they were; a draft slot may only appear |
| SequenceRuns.BoundTableIsFrozen | crates/glm-cache/src/sequence.rs:981-987 | while a generation is bound only its own acknowledgement succeeds |
| SequenceRuns.ReuseNeedsAcknowledgement | crates/glm-cache/src/sequence.rs:236-263 | between an id leaving the live set and being live again lie a bind and then the acknowledgement of that bind's generation |
| SequenceIdentity.LiveKeepsIdentity | crates/glm-cache/src/sequence.rs:64-81 | over every run a page that stays live keeps the ordinal, namespace, key and digests it is published under; only a missing draft may be added, by a newer generation |
| SequenceIdentity.AdmittedPrefixStays | crates/glm-cache/src/sequence.rs:267-371 | over every run in which it is not removed, an admitted sequence keeps its prefix pages, full and sealed, published with the content of its attachments |
| SequenceSpeculation.AppendSplits | crates/glm-cache/src/sequence.rs:652-725 | appending a + b tokens succeeds exactly when appending a and then b does, with equal tables |
| SequenceSpeculation.CommitIsAppend | crates/glm-cache/src/sequence.rs:820-900 | reserving n and committing k tokens is appending k, except that an unused page lands in quarantine |
| SequenceSpeculation.RollbackRestores | crates/glm-cache/src/sequence.rs:775-818 | rolling back restores the table up to the same exception |
| SequenceChunks.FillNew | crates/glm-cache/src/sequence.rs:690-725 | taking a whole page at once equals taking its tokens one at a time |
| SequenceTable.SequencePageTable.AllocatePage | crates/glm-cache/src/sequence.rs:902-943 | the method allocates what the model allocates |
| SequenceTable.SequencePageTable.AppendCommitted | crates/glm-cache/src/sequence.rs:373-389 | the page-at-a-time loop with its snapshot does what the token-at-a-time model says |
| SequenceTable.SequencePageTable.ForkSequence | crates/glm-cache/src/sequence.rs:393-462 | the method forks as the model does, or restores its snapshot |
| SequenceTable.SequencePageTable.BeginTentative | crates/glm-cache/src/sequence.rs:464-511 | the method reserves as the model does, or restores its snapshot |
| SequenceTable.SequencePageTable.CommitTentative | crates/glm-cache/src/sequence.rs:513-534 | the method commits as the model does |
| SequenceTable.SequencePageTable.RollbackTentative | crates/glm-cache/src/sequence.rs:536-545 | the method rolls back as the model does |
| SequenceTable.SequencePageTable.RemoveSequence | crates/glm-cache/src/sequence.rs:547-568 | the method removes as the model does |
| SequenceTable.SequencePageTable.AdmitWithPrefix | crates/glm-cache/src/sequence.rs:267-371 | the method admits as the model does, or restores its snapshot; the model's answer is fixed by `SequenceAdmission.AdmissionExactly` and `AdmissionGives` |
| SequenceTable.SequencePageTable.BindReuseQuarantine | crates/glm-cache/src/sequence.rs:236-247 | the method binds as the model does |
| SequenceTable.SequencePageTable.AcknowledgeReuseQuarantine | crates/glm-cache/src/sequence.rs:249-263 | the method releases the quarantine as the model does |
| DeltaReplication.ReplicationIsCorrect | crates/glm-cache/src/delta.rs:100-148 | for two tables whose mirrors exist and differ and that reserve at most seven tokens a sequence, the delta exists, and applying it succeeds exactly when no surviving sequence changed its MTP flag, and then yields the second mirror |
| DeltaReplication.DeltaExists | crates/glm-cache/src/delta.rs:205-252 | the difference of two such tables always passes the shape check |
| DeltaMirrors.MirrorExists | crates/glm-cache/src/delta.rs:283-298 | a table satisfying the invariant has a mirror exactly when the generation is positive, it has at most 64 sequences and no target-only sequence lists a page with a draft slot |
| DeltaDrafts.AdmissionKeepsDraftsExactly | crates/glm-cache/src/sequence.rs:267-371 | an admission leaves no draft slot on a page of a sequence without drafts exactly when there was none and every page it joins has holders with drafts only, or, for an admission without drafts, no slot |
| DeltaDrafts.MirrorAfterAdmission | crates/glm-cache/src/delta.rs:283-298 | exactly when the table after an admission has a mirror, in terms of the table before and the attachments |
| DeltaTheorems.ReachableTablesReplicate | crates/glm-cache/src/delta.rs:309-356 | replication for all tables satisfying the invariant: the delta exists, and the first mirror becomes the second exactly when no sequence in both changed its MTP flag |
| DeltaTheorems.MirrorFollowsChain | crates/glm-cache/src/delta.rs:309-356 | a mirror of the first of any chain of tables that is sent the deltas one after the other ends as the mirror of the last |
| DeltaLaw.ShapesExactly | crates/glm-cache/src/delta.rs:205-252 | the shape check accepts exactly the deltas whose fields meet the written limits and orders |
| DeltaLaw.SequencesExactly | crates/glm-cache/src/delta.rs:423-481 | a sequence validates exactly when its pages are in order, on their ranks, full up to the last, in the states its tokens call for, with drafts exactly if it has drafts |
| DeltaLaw.MirrorsExactly | crates/glm-cache/src/delta.rs:358-397 | a mirror validates exactly when it has a generation, at most 64 sound sequences, only existing slots, and no two sequences that contradict each other |
| DeltaLaw.UpdatesExactly | crates/glm-cache/src/delta.rs:327-353 | an update is applied exactly when it continues the known sequence, and then gives its unchanged pages followed by the changed ones |
| DeltaLaw.AppliesExactly | crates/glm-cache/src/delta.rs:309-356 | for any delta: accepted exactly when well shaped, of its own digest, made for the mirror's generation, removing known and continuing known sequences, and leaving a mirror that validates; the generation is then one higher |
| DeltaLaw.GenerationCounts | crates/glm-cache/src/delta.rs:309-356 | over any run of deltas the generation counts those accepted |
| DeltaLaw.AcceptedOnce | crates/glm-cache/src/delta.rs:309-313 | over any run of deltas, one accepted once is refused ever after |
| DeltaTheorems.JoiningRun | crates/glm-cache/src/sequence.rs:267-371 | two admissions after which a table with a mirror has none |
| DeltaTheorems.ReadmittingRun | crates/glm-cache/src/delta.rs:327-353 | a removal and readmission whose delta exists but is refused by the mirror |
| DeltaMirror.ValidateSequence | crates/glm-cache/src/delta.rs:423-481 | the loop over the pages of a sequence returns what the model returns |
| DeltaMirror.Difference | crates/glm-cache/src/delta.rs:100-148 | the method computes the delta of the model |
| DeltaMirror.Validate | crates/glm-cache/src/delta.rs:358-397 | the accumulating loops return the model's verdict, with its first error |
| DeltaMirror.CheckedExactly | crates/glm-cache/src/delta.rs:358-397 | the ordered validation accepts exactly the mirrors whose sequences are sound, whose pages are in range and in which no two pages contradict each other |
| DeltaMirror.PageTableMirror.ApplyDelta | crates/glm-cache/src/delta.rs:309-356 | the method applies the delta as the model does, or returns its error and changes nothing; the model's answer to any delta is fixed by `DeltaLaw.AppliesExactly` |
| ScheduleInvariant.InsertKeepsValid | crates/glm-cache/src/direct_schedule.rs:300-358 | an arrival keeps queues ordered and the id set, order keys, count and read bytes equal to their contents |
| ScheduleInvariant.NextKeepsValid | crates/glm-cache/src/direct_schedule.rs:179-277 | so does every decision, which fails exactly when the resources reported exceed the configured totals |
| ScheduleFairness.ResumeCounterIsExact | crates/glm-cache/src/direct_schedule.rs:394-426 | while an admission read waits, its counter takes the full size of every resume read; the clamp never fires |
| ScheduleFairness.ServiceCounterIsExact | crates/glm-cache/src/direct_schedule.rs:394-426 | while an admitted publication waits, its counter takes the full size of every read |
| ScheduleFairness.AdmissionReadsAreNotStarved | crates/glm-cache/src/direct_schedule.rs:428-442 | under any arrivals, resume bytes served while an admission read waits never exceed the limit |
| ScheduleFairness.PublicationsAreNotStarved | crates/glm-cache/src/direct_schedule.rs:195-205 | read bytes served while an admitted publication waits never exceed theirs |
| ScheduleFairness.CandidatesAreNotStarved | crates/glm-cache/src/direct_schedule.rs:206-232 | with resources above the reserves, read bytes served while candidates wait stay within the admission limit |
| ScheduleFairness.AdmissionKeepsReserves | crates/glm-cache/src/direct_schedule.rs:454-469 | admission takes one buffer, one descriptor and two queue entries and stays above the read reserves |
| ScheduleFairness.NextWorks | crates/glm-cache/src/direct_schedule.rs:179-277 | with ample resources the scheduler decides nothing exactly when all queues are empty, and every decision is one unit of work |
| ScheduleFairness.DrainTerminates | crates/glm-cache/src/direct_schedule.rs:179-277 | a drain without arrivals empties all queues after as many calls as there are units of work |
| ScheduleOrder.ArrivalsExactly | crates/glm-cache/src/direct_schedule.rs:300-358 | exactly when a command is accepted |
| ScheduleOrder.ArrivalJoins | crates/glm-cache/src/direct_schedule.rs:300-358 | an accepted command joins the queue of its class and no other queue changes |
| ScheduleOrder.FirstComesFirst | crates/glm-cache/src/direct_schedule.rs:300-358 | the first of a queue comes before all others in it, by epoch, owner, page, operation and number |
| ScheduleOrder.DecidesExactly | crates/glm-cache/src/direct_schedule.rs:179-277 | exactly which decision is made: an admitted publication or an admission when due, then a resume read unless admission reads wait and the resume limit is reached or would be passed, then cleaning |
| ScheduleOrder.DecisionTakes | crates/glm-cache/src/direct_schedule.rs:360-392 | only the queue served or admitted from changes, by losing its first command |
| ScheduleOrder.AdmissionReadsWaitTheirTurn | crates/glm-cache/src/direct_schedule.rs:428-442 | over every run an admission read overtakes a waiting resume read only after resume reads were served up to one read below their limit |
| ScheduleOrder.PublicationsWaitTheirTurn | crates/glm-cache/src/direct_schedule.rs:195-205 | the same bound from below for a publication written while reads wait |
| ScheduleOrder.CandidatesWaitTheirTurn | crates/glm-cache/src/direct_schedule.rs:206-232 | the same bound from below for an admission above the high-water mark |
| Scheduler.DirectIoScheduler.Insert | crates/glm-cache/src/direct_schedule.rs:300-358 | the method inserts as the model does and keeps the invariant |
| Scheduler.DirectIoScheduler.PopService | crates/glm-cache/src/direct_schedule.rs:360-392 | the method pops and books as the model does |
| Scheduler.DirectIoScheduler.Next | crates/glm-cache/src/direct_schedule.rs:179-277 | the method decides as the model does; the model's decision is fixed by `ScheduleOrder.DecidesExactly` |
| TopK.DeterministicTopK | crates/glm-cache/src/attention.rs:31-59 | the loop, sort and cut select what the model selects, with the model's errors |
| TopK.DistributedSelectionIsExact | crates/glm-cache/src/attention.rs:31-59 | for any division of the candidates among owners, selecting from the owners' selections is the global selection, order and ties included |
| TopK.SelectsTheBest | crates/glm-cache/src/attention.rs:31-59 | selection succeeds exactly for a positive k and finite candidates of different positions, and gives the k best, best first, a higher score before a lower and the lower position among equals; nothing left out beats anything selected |
| TierLog.ValidateRecord | crates/glm-cache/src/tier.rs:71-115 | the loop over the pieces with its sets and ranges accepts what the model accepts |
| TierLog.RecoverEvents | crates/glm-cache/src/tier.rs:323-396 | the two loops of recovery compute the model's catalogue or its error, which `TierLaw.ReplayExactly` and `RecoveredWasWrittenAhead` fix |
| TierLog.TierJournal.Begin | crates/glm-cache/src/tier.rs:223-235 | the method begins a transaction as the model does |
| TierLog.TierJournal.PieceDurable | crates/glm-cache/src/tier.rs:237-270 | the method marks a piece as the model does |
| TierLog.TierJournal.Publish | crates/glm-cache/src/tier.rs:272-295 | the method publishes as the model does |
| TierRecovery.RecoveryIsPublication | crates/glm-cache/src/tier.rs:323-396 | recovery in the order of transaction numbers equals publishing in file order |
| TierRecovery.PrefixesReplay | crates/glm-cache/src/tier.rs:323-396 | every prefix of an accepted journal is accepted |
| TierRecovery.VisibleGrows | crates/glm-cache/src/tier.rs:117-147 | along growing prefixes no key vanishes, loses its draft or changes its target hashes |
| TierLaw.RecordsExactly | crates/glm-cache/src/tier.rs:71-115 | validation accepts exactly the well-formed records, every condition written out |
| TierLaw.RelationsExactly | crates/glm-cache/src/tier.rs:117-147 | two records relate exactly when they name the same page, and the second upgrades the first exactly when it brings the first draft |
| TierLaw.MergesExactly | crates/glm-cache/src/tier.rs:375-396 | what publishing a record does to the catalogue, in all cases |
| TierLaw.ReplayExactly | crates/glm-cache/src/tier.rs:323-370 | replay accepts exactly the journals in which every event is legal where it stands |
| TierLaw.RecoveredWasWrittenAhead | crates/glm-cache/src/tier.rs:323-396 | the write-ahead law over events: every record recovery shows was begun, had each piece made durable with its digest, and was published after that |
| TierLaw.CutsAreWrittenAhead | crates/glm-cache/src/store.rs:441-462 | the write-ahead law for what a journal file shows when cut at any byte |
| TierLaw.JournalWritesExactly | crates/glm-cache/src/tier.rs:223-295 | the journal begins, marks and publishes exactly when the event is legal next |
| TierLaw.JournalsReplay | crates/glm-cache/src/tier.rs:223-295 | whatever is asked of a journal, its events replay |
| TierCodec.RoundTrips | crates/glm-cache/src/store.rs:391-439 | decoding an encoded journal record gives the event back |
| StoreAnswers.DecodedIsGenuine | crates/glm-cache/src/store.rs:464-530 | a record decodes only with the right length, checksum, magic number, version and kind, and a record it begins is well-formed |
| StoreAnswers.CorruptionIsRefused | crates/glm-cache/src/store.rs:441-462 | a journal is read only if every complete record in it is genuine and transactions count up from one |
| JournalFile.CrashConsistency | crates/glm-cache/src/store.rs:441-462 | a journal that opens still opens when cut at any byte, shows the catalogue as of the last complete Publish, and that catalogue only grows in longer cuts |
| JournalFile.CutShows | crates/glm-cache/src/store.rs:441-462 | what a cut shows is what the complete records before it publish |
| StoreExtents.AcceptedExactly | crates/glm-cache/src/store.rs:307-329 | the test on neighbours of the sorted extents accepts exactly the catalogues whose pieces lie apart and within the file |
| StoreModel.WrittenRecord | crates/glm-cache/src/store.rs:142-210 | a record decided on lies beyond the offset, in order and aligned, carries the digests of the request's bytes, and merges into the catalogue |
| StoreModel.SortPermutes | crates/glm-cache/src/store.rs:150-158 | sorting the pieces of a request keeps them |
| StoreAnswers.SortsInOrder | crates/glm-cache/src/store.rs:150-158 | the pieces are sorted by kind |
| StoreAnswers.DecisionMeans | crates/glm-cache/src/store.rs:142-210 | only complete requests are decided; a page is kept when the bytes offered are its own and bring no first draft, and written over only to add the first draft to the same bytes in a newer generation |
| StoreSteps.DurableStep | crates/glm-cache/src/store.rs:246-261 | marking the next piece durable succeeds and shows nothing new |
| StoreSteps.PublishStep | crates/glm-cache/src/store.rs:262-270 | publishing after all marks succeeds and merges exactly this record |
| StoreSteps.AppendHolds | crates/glm-cache/src/store.rs:354-359 | appending an encoded event to the file appends the event to what it decodes to |
| StoreRecovery.MemoryIsReplay | crates/glm-cache/src/store.rs:188-271 | in every store that agrees with its files the in-memory catalogue is the replay of the journal file |
| StoreRecovery.ReopensExactly | crates/glm-cache/src/store.rs:66-113 | reopening over a journal cut anywhere and any data file is decided by the presence, extents and size of the data alone, and shows what was published before the cut |
| StoreRecovery.OpenAgrees | crates/glm-cache/src/store.rs:66-113 | every store that opens agrees with its files: journal, catalogue, transaction number and extents |
| StoreRecovery.EmptyIsConsistent | crates/glm-cache/src/store.rs:66-113 | two empty files open to a consistent store |
| StoreRecovery.CrashReopens | crates/glm-cache/src/store.rs:66-113 | after a crash that cuts the journal anywhere and leaves any bytes after the synced data a consistent store opens consistent; it refuses only data without a complete record or at the end of the address range |
| StorePublication.WroteAgrees | crates/glm-cache/src/store.rs:212-271 | the write-ahead sequence, whole or interrupted at any failpoint, keeps files, journal and catalogue in agreement and shows exactly this record or nothing |
| StorePublication.PublishAgrees | crates/glm-cache/src/store.rs:142-210 | every call of publish keeps the agreement and touches no byte or event already there |
| StorePublication.PublishConsistent | crates/glm-cache/src/store.rs:142-210 | and keeps every record ever published whole and apart |
| StoreRuns.MapIsReplayForever | crates/glm-cache/src/store.rs:66-271 | whatever files were opened, after any run of publications, interruptions, crashes and reopenings the catalogue in memory is the replay of the journal and reopening shows it |
| StoreRuns.EmptyRunsAreConsistent | crates/glm-cache/src/store.rs:66-271 | a store that starts empty stays consistent in every such run |
| StoreRuns.PublishedReadsForever | crates/glm-cache/src/store.rs:331-352 | a published page reads back as exactly the bytes of its request after any such run |
| StoreReading.EveryPageReads | crates/glm-cache/src/store.rs:331-352 | in a consistent store every catalogued page reads back with its digests |
| StoreReading.ReadsWhatWasPublished | crates/glm-cache/src/store.rs:331-352 | a record whose pieces are in the data file reads back as exactly those bytes |
| TierStore.DecodeBytes | crates/glm-cache/src/store.rs:441-462 | the loop with its running transaction number decodes what the model decodes |
| TierStore.OpenStore | crates/glm-cache/src/store.rs:66-113 | the method opens what the model opens, and the opened store agrees with its files |
| TierStore.PlacePieces | crates/glm-cache/src/store.rs:159-179 | the loop lays the pieces out as the model does |
| TierStore.FileTierStore.WritePieces | crates/glm-cache/src/store.rs:236-244 | the pieces are in the data file where the record says, and nothing before is touched |
| TierStore.FileTierStore.PublishPrevalidated | crates/glm-cache/src/store.rs:212-271 | the statements and loops of the write-ahead sequence leave the model's store at every failpoint, in agreement with its files |
| TierStore.FileTierStore.PublishPage | crates/glm-cache/src/store.rs:142-210 | for every opened store the method decides as the model does, leaves the model's store and keeps the agreement |
| TierStore.FileTierStore.Restore | crates/glm-cache/src/store.rs:331-352 | the method reads a page back or reports what is wrong with it |
| ResidencyRuns.AdmissionRule | crates/glm-cache/src/residency.rs:639-711 | short of overflow, admission fails exactly when the incoming and the pinned bytes exceed HBM, and otherwise evicts the shortest least-recently-used prefix of unpinned pages |
| ResidencyRuns.AdmissionStaysInRange | crates/glm-cache/src/residency.rs:639-711 | there is no overflow when the budgets leave room for one more page |
| ResidencyAnswers.AdmissionPlaces | crates/glm-cache/src/residency.rs:639-725 | the victims of an admission, oldest first, go to DRAM while they fit there and to NVMe otherwise |
| ResidencyAnswers.VictimsAreOldest | crates/glm-cache/src/residency.rs:639-711 | a page leaves HBM only if unpinned and not the one admitted, and no page that could have left instead was used longer ago |
| ResidencyRuns.EvictionSums | crates/glm-cache/src/residency.rs:713-725 | eviction keeps both counters equal to the sums over resident entries and DRAM within budget |
| ResidencyRuns.PlanSums | crates/glm-cache/src/residency.rs:293-338 | the totals of a registration plan are the sums after committing it |
| ResidencyRuns.OperationKeepsValid | crates/glm-cache/src/residency.rs:239-247 | every operation keeps counters exact and within budget, pinned pages in HBM, and resident contents those of their records |
| ResidencyRuns.RunKeepsValid | crates/glm-cache/src/residency.rs:239-247 | the same over every run |
| ResidencyRuns.StalePlansAreRejected | crates/glm-cache/src/residency.rs:340-377 | a plan made earlier is accepted exactly when nothing has changed since, and then does what registering now would do |
| ResidencyAnswers.RegistersExactly | crates/glm-cache/src/residency.rs:383-416 | exactly when a record is registered, what becomes of its entry, and that no other changes |
| ResidencyAnswers.BeginsExactly | crates/glm-cache/src/residency.rs:418-451 | exactly when a restore begins |
| ResidencyAnswers.AbortsExactly | crates/glm-cache/src/residency.rs:453-503 | exactly when a restore is given up, by key and by identity |
| ResidencyAnswers.CompletesExactly | crates/glm-cache/src/residency.rs:505-534 | short of an overflow of the counters, exactly when a restore completes: for the request, page and record that began it, when it fits beside the pinned pages; the page is then in HBM as its latest use |
| ResidencyAnswers.PromotesExactly | crates/glm-cache/src/residency.rs:536-555 | short of the same overflow, exactly when a page is promoted from DRAM; it keeps its contents |
| ResidencyAnswers.PinsExactly | crates/glm-cache/src/residency.rs:557-611 | exactly when a page is pinned and unpinned, and by how much |
| Residents.Evict | crates/glm-cache/src/residency.rs:669-693 | the loop over the candidates evicts as the model does |
| Residents.ResidencyManager.PlanNvmeRegistrations | crates/glm-cache/src/residency.rs:293-338 | the loop plans as the model does |
| Residents.ResidencyManager.CommitNvmeRegistrations | crates/glm-cache/src/residency.rs:350-377 | the method commits as the model does |
| Residents.ResidencyManager.RegisterNvme | crates/glm-cache/src/residency.rs:288-291 | registering one record is planning and committing it |
| Residents.ResidencyManager.BeginRestore | crates/glm-cache/src/residency.rs:418-451 | the method begins as the model does and returns the request for the entry |
| Residents.ResidencyManager.AbortRestore | crates/glm-cache/src/residency.rs:453-466 | the method aborts as the model does |
| Residents.ResidencyManager.AbortRestoreIdentity | crates/glm-cache/src/residency.rs:487-503 | the method aborts exactly the named restore |
| Residents.ResidencyManager.PlanHbmAdmission | crates/glm-cache/src/residency.rs:639-711 | the method plans as the model does |
| Residents.ResidencyManager.ApplyHbmAdmission | crates/glm-cache/src/residency.rs:713-725 | the loop moves exactly the victims |
| Residents.ResidencyManager.CompleteRestore | crates/glm-cache/src/residency.rs:505-534 | the method completes as the model does and keeps the invariant |
| Residents.ResidencyManager.PromoteDram | crates/glm-cache/src/residency.rs:536-555 | the method promotes as the model does and keeps the invariant |
| Residents.ResidencyManager.PinHbm | crates/glm-cache/src/residency.rs:557-577 | the method pins as the model does |
| Residents.ResidencyManager.UnpinCount | crates/glm-cache/src/residency.rs:598-611 | the method unpins as the model does |
| DirectBuffers.ReserveOutcome | crates/glm-cache/src/direct_state.rs:119-159 | reserving succeeds exactly when a free slot has a generation left, takes such a slot under its next generation, and otherwise only retires exhausted slots |
| DirectBuffers.ReservesInRotation | crates/glm-cache/src/direct_state.rs:119-159 | the slot reserved is the first available one from where the last search ended, and the next search starts behind it |
| CircularSearch.SearchOutcome | crates/glm-cache/src/direct_state.rs:119-159 | the circular search of both tables finds a slot exactly when one can be taken, takes one, and otherwise only retires exhausted slots |
| CircularSearch.FindsNearest | crates/glm-cache/src/direct_state.rs:119-159 | the search takes the nearest slot that can be taken from where it starts |
| DirectBuffers.SpentForever | crates/glm-cache/src/direct_state.rs:220-270 | in every run a freed, retired or quarantined buffer id exposes no bytes and moves nowhere again |
| DirectBuffers.ReservedIsNotSpent | crates/glm-cache/src/direct_state.rs:119-159 | an id handed out was never spent before |
| DirectBuffers.StagesAreNotSkipped | crates/glm-cache/src/direct_state.rs:220-242 | in every run a buffer reserved in it has passed every earlier stage of its use under its present generation: what is ready on the host was queued, read and hashed |
| DirectBuffers.DirectBufferPool.ReserveSlot | crates/glm-cache/src/direct_state.rs:119-159 | the circular search reserves as the model does |
| DirectBuffers.DirectBufferPool.MoveTo | crates/glm-cache/src/direct_state.rs:220-242 | the method moves a slot as the model does |
| DirectBuffers.DirectBufferPool.WriteBytes | crates/glm-cache/src/direct_state.rs:184-201 | the method writes into an active slot only |
| DirectBuffers.DirectBufferPool.ReleaseAbandonedRead | crates/glm-cache/src/direct_state.rs:252-270 | the method frees and clears an abandoned read |
| DirectDescriptors.PackRoundTrips | crates/glm-cache/src/direct_state.rs:372-409 | slot, generation and role are recovered from a packed token for every permitted slot |
| DirectDescriptors.UnpackRoundTrips | crates/glm-cache/src/direct_state.rs:380-409 | packing the parts of any token gives the token |
| DirectDescriptors.PackBits | crates/glm-cache/src/direct_state.rs:372-378 | the shifts and masks of the 64-bit word do the same |
| DirectDescriptors.AllocateOutcome | crates/glm-cache/src/direct_state.rs:462-498 | allocation succeeds exactly when a vacant slot has a generation left, and binds that slot |
| DirectDescriptors.AllocatesInRotation | crates/glm-cache/src/direct_state.rs:462-498 | the same rotation for descriptors |
| DirectDescriptors.FinishedForever | crates/glm-cache/src/direct_state.rs:520-555 | in every run a finished token never resolves, completes or is cancelled again |
| DirectDescriptors.CompletedTokens | crates/glm-cache/src/direct_state.rs:500-518 | a completed original is finished; a completed cancel can return exactly when its original is still pending |
| DirectDescriptors.DirectDescriptorTable.AllocateSlot | crates/glm-cache/src/direct_state.rs:462-498 | the circular search allocates as the model does |
| DirectDescriptors.DirectDescriptorTable.Cancel | crates/glm-cache/src/direct_state.rs:500-518 | the method issues the cancel token as the model does |
| DirectDescriptors.DirectDescriptorTable.CompleteToken | crates/glm-cache/src/direct_state.rs:536-555 | the method completes as the model does |
| RestoreQueue.RoomForOriginal | crates/glm-cache/src/direct_restore.rs:350-388 | with a vacant descriptor the completion queue takes one more original |
| RestoreQueue.RoomForCancel | crates/glm-cache/src/direct_restore.rs:350-388 | with a read that is not being cancelled it takes one more cancel |
| RestoreAdmissions.PlanKeeps | crates/glm-cache/src/direct_restore.rs:506-599 | planning, joined or created, keeps the invariant; a refusal changes nothing; which ticket is joined is `RestoreRequests.PlansExactly` |
| RestoreRequests.PlansExactly | crates/glm-cache/src/direct_restore.rs:506-599 | a request joins exactly the first live ticket with its record, epoch and catalogue entry, and gets a new ticket exactly when there is none and there is room |
| RestoreRequests.PlanTakes | crates/glm-cache/src/direct_restore.rs:506-599 | a planned request waits at its ticket and nowhere else, and a new ticket is for what was asked |
| RestoreRequests.RunsAreFaithful | crates/glm-cache/src/direct_restore.rs:1425-1443 | over every run each request waits at a ticket with the record, epoch and catalogue entry it was planned with |
| RestoreAdmissions.ReserveKeeps | crates/glm-cache/src/direct_restore.rs:601-614 | reserving keeps the invariant and succeeds exactly for a planned ticket when a buffer has a generation left |
| RestoreSubmissions.SubmitKeeps | crates/glm-cache/src/direct_restore.rs:616-671 | submitting keeps the invariant, succeeds exactly when allowed and a descriptor is left, and never waits for the completion queue |
| RestoreSubmissions.CopyKeeps | crates/glm-cache/src/direct_restore.rs:673-700 | bytes arrive only in the buffer of a submitted read |
| RestoreCancellations.CancelKeeps | crates/glm-cache/src/direct_restore.rs:702-782 | cancelling a known request always succeeds with the answer its ticket's state calls for; a supported asynchronous cancel is always submitted |
| RestoreCompletions.CompleteOriginalKeeps | crates/glm-cache/src/direct_restore.rs:784-838 | a read completion succeeds exactly when the read is pending and its ticket has not failed, and keeps the invariant, before or after its cancel |
| RestoreCompletions.CompleteCancelKeeps | crates/glm-cache/src/direct_restore.rs:840-877 | a cancel completion succeeds exactly when the cancel is pending, and keeps the invariant |
| RestoreCompletions.CompleteHashKeeps | crates/glm-cache/src/direct_restore.rs:1099-1128 | a checksum result keeps the invariant, whatever it says |
| RestoreCompletions.DeliveryKeeps | crates/glm-cache/src/direct_restore.rs:1130-1147 | delivery succeeds exactly for a verified ticket, frees it and returns its waiters |
| RestoreAnswers.ReadsExactly | crates/glm-cache/src/direct_restore.rs:784-838 | an exact read leads to its checksum with waiters and bytes unchanged; a failed one, or a cancelled one still wanted, to failure with the buffer in quarantine; an abandoned one frees the buffer; a pending cancel keeps the ticket |
| RestoreAnswers.CancelsEnd | crates/glm-cache/src/direct_restore.rs:840-877 | a cancel completion leaves a ticket whose read is out, and ends it otherwise |
| RestoreAnswers.CopiesExactly | crates/glm-cache/src/direct_restore.rs:673-700 | exactly when bytes are copied; they land at their offset and no other byte of any buffer changes |
| RestoreAnswers.CancelsWaiter | crates/glm-cache/src/direct_restore.rs:702-782 | what cancelling does to the ticket and its buffer in every state, for the last waiter and for others |
| RestoreAnswers.ResultsEnd | crates/glm-cache/src/direct_restore.rs:1099-1128 | a checksum result counts exactly for the job and buffer its ticket waits for, and what then becomes of ticket and buffer |
| RestoreAnswers.DeliversExactly | crates/glm-cache/src/direct_restore.rs:1130-1147 | delivery returns exactly the waiters of a verified ticket, in order, and clears its buffer |
| RestoreAnswers.TakesFirst | crates/glm-cache/src/direct_restore.rs:1041-1066 | the caller is given the first queued ticket, and nothing exactly when none is queued |
| RestoreAnswers.DispatchesFirst | crates/glm-cache/src/direct_restore.rs:893-951 | exactly when a job is dispatched; it is the first queued ticket's and goes to the end of the queue |
| RestoreSteps.Fails | crates/glm-cache/src/direct_restore.rs:1497-1513 | failing a ticket quarantines its buffer, ends its job, releases its waiters, and keeps it only for pending completions |
| RestorePrimitives.Removes | crates/glm-cache/src/direct_restore.rs:1566-1595 | removing a ticket with nothing pending takes exactly its share off every account |
| RestorePool.PoolFailureLoses | crates/glm-cache/src/direct_restore.rs:1515-1531 | failing the pool loses exactly the reads in flight |
| RestoreLoss.LostForever | crates/glm-cache/src/direct_restore.rs:790-797 | a lost read stays lost in every run: its completion is always refused and its ticket never removed |
| RestoreLoss.StepLoses | crates/glm-cache/src/direct_restore.rs:506-1147 | a step that fails the pool loses exactly the reads in flight; no other step loses a read or gets one back |
| RestoreLoss.RunLoses | crates/glm-cache/src/direct_restore.rs:506-1147 | a run has lost a read exactly when the pool has failed in it while a read was in flight |
| RestoreLostRead.PoolFailureLosesRead | crates/glm-cache/src/direct_restore.rs:953-1011 | a concrete run of twelve steps whose table the validator accepts; the next poll fails the pool, and the validator rejects the table then and in every continuation |
| RestoreWorkers.SendNeverBlocks | crates/glm-cache/src/direct_restore.rs:221-292 | a worker can always send its completion, also after the pool has failed |
| RestoreWorkers.CommandNeverWaits | crates/glm-cache/src/direct_restore.rs:893-951 | with a queued ticket the command queue has room |
| RestoreProgress.SomeStepMoves | crates/glm-cache/src/direct_restore.rs:221-292 | while a running job has no answer, a worker or a poll can move a job |
| RestoreProgress.JobsAreAnswered | crates/glm-cache/src/direct_restore.rs:221-292 | no schedule moves jobs for longer than the work there is, and when nothing moves the pool has failed or every running job has been answered |
| RestoreIntegrity.QuietKeeps | crates/glm-cache/src/direct_restore.rs:673-700 | operations on other tickets disturb neither running jobs nor verified bytes |
| RestoreChecksums.ResultStep | crates/glm-cache/src/direct_restore.rs:1099-1128 | completing a job with a result that was handed out keeps the protocol and makes a ticket verified only over bytes that decode |
| RestoreThreads.Dispatched | crates/glm-cache/src/direct_restore.rs:893-951 | a dispatched job is in exactly one place |
| RestoreThreads.Polled | crates/glm-cache/src/direct_restore.rs:953-1011 | a polled completion belongs to a running ticket and its result is true of the current bytes |
| RestoreThreads.PoolFailureStep | crates/glm-cache/src/direct_restore.rs:1515-1531 | the failure of the pool leaves a consistent system, also with reads in flight |
| RestoreRuns.StepKeepsConsistent | crates/glm-cache/src/direct_restore.rs:506-1147 | every step of a caller or a worker keeps the accounts, the worker protocol, the promises about bytes and the dead tokens |
| RestoreTheorems.RunsAreConsistent | crates/glm-cache/src/direct_restore.rs:506-1147 | the same in every run from a new table, pool failures included |
| RestoreTheorems.NothingWaits | crates/glm-cache/src/direct_restore.rs:616-671 | neither the completion queue nor a worker channel is ever waited for |
| RestoreTheorems.DeliveredIsVerified | crates/glm-cache/src/direct_restore.rs:1130-1147 | delivered requests belong to a ticket whose buffer holds, at delivery, bytes that decode as its record |
| RestoreRequests.DeliveredAsAsked | crates/glm-cache/src/direct_restore.rs:1130-1147 | after any run every request a delivery returns asked for the very extent and catalogue entry whose bytes are in the buffer and decode |
| RestoreTheorems.VerdictsAreExact | crates/glm-cache/src/direct_restore.rs:1099-1128 | a result handed out for a running job verifies the ticket exactly when the bytes in its buffer decode as its record, and is an integrity failure exactly when they do not |
| RestoreTheorems.CompletedTokensAreDead | crates/glm-cache/src/direct_state.rs:520-555 | a token completed in the run never resolves or completes again |
| RestoreTheorems.Conservation | crates/glm-cache/src/direct_restore.rs:1248-1423 | bytes, requests, tenant charges, descriptors, completion entries, active buffers and checksum jobs are the sums over live tickets |
| RestoreTheorems.EmptyIsZero | crates/glm-cache/src/direct_restore.rs:1248-1423 | when no ticket remains all of them are zero |
| RestoreValidator.AcceptedExactly | crates/glm-cache/src/direct_restore.rs:1248-1423 | a consistent table passes all checks of the table's own validator exactly when no read is lost |
| RestoreValidator.PoolFailureAcceptedExactly | crates/glm-cache/src/direct_restore.rs:1515-1531 | after the pool has failed the validator accepts the table exactly when no read was in flight |
| RestoreValidator.RunsAreAcceptedExactly | crates/glm-cache/src/direct_restore.rs:1248-1423 | after any run from a new table the validator accepts exactly when the pool has not failed in it while a read was in flight |
| RestoreTable.DirectRestoreTable.PlanRequest | crates/glm-cache/src/direct_restore.rs:506-599 | the method plans as the model does and keeps the invariant; the model's answer is fixed by `RestoreRequests.PlansExactly` |
| RestoreTable.DirectRestoreTable.ReserveBufferFor | crates/glm-cache/src/direct_restore.rs:601-614 | the method reserves as the model does |
| RestoreTable.DirectRestoreTable.SubmitReadOf | crates/glm-cache/src/direct_restore.rs:616-671 | the method submits as the model does |
| RestoreTable.DirectRestoreTable.CopyInto | crates/glm-cache/src/direct_restore.rs:673-700 | the method copies as the model does |
| RestoreTable.DirectRestoreTable.Cancel | crates/glm-cache/src/direct_restore.rs:702-782 | the method cancels as the model does |
| RestoreTable.DirectRestoreTable.CompleteRead | crates/glm-cache/src/direct_restore.rs:784-838 | the method completes a read as the model does |
| RestoreTable.DirectRestoreTable.CompleteCancelOf | crates/glm-cache/src/direct_restore.rs:840-877 | the method completes a cancel as the model does |
| RestoreTable.DirectRestoreTable.StartChecksumWorkers | crates/glm-cache/src/direct_restore.rs:879-891 | the method starts the pool as the model does |
| RestoreTable.DirectRestoreTable.DispatchNextChecksum | crates/glm-cache/src/direct_restore.rs:893-951 | the method dispatches as the model does |
| RestoreTable.DirectRestoreTable.PollChecksumResult | crates/glm-cache/src/direct_restore.rs:953-1011 | the method polls as the model does |
| RestoreTable.DirectRestoreTable.ShutdownChecksumWorkers | crates/glm-cache/src/direct_restore.rs:1013-1023 | the method shuts the pool down as the model does |
| RestoreTable.DirectRestoreTable.TakeHashJob | crates/glm-cache/src/direct_restore.rs:1041-1066 | the method hands out a job as the model does |
| RestoreTable.DirectRestoreTable.RunHash | crates/glm-cache/src/direct_restore.rs:1068-1097 | the method decides a job over the buffer's bytes |
| RestoreTable.DirectRestoreTable.CompleteChecksum | crates/glm-cache/src/direct_restore.rs:1099-1128 | the method completes a job as the model does |
| RestoreTable.DirectRestoreTable.FinishCpuDelivery | crates/glm-cache/src/direct_restore.rs:1130-1147 | the method delivers as the model does |
| RestoreTable.DirectRestoreTable.FailTicketNow | crates/glm-cache/src/direct_restore.rs:1497-1513 | the method fails a ticket as the model does |
| RestoreTable.DirectRestoreTable.FailChecksumPool | crates/glm-cache/src/direct_restore.rs:1515-1531 | the loop fails every ticket with a job |
| RestoreTable.DirectRestoreTable.RemoveTicketNow | crates/glm-cache/src/direct_restore.rs:1566-1595 | the method removes a ticket as the model does |

## Left out

- SHA-256, CRC32C and the decoding of a direct extent: function parameters; their internals and the padding checks are short and fixed.
- Real files, file locks, fsync and I/O errors: the files are byte sequences; a crash cuts the journal at any byte and keeps the synced data, with any bytes after it; the failpoints are the ones the source injects.
- Operating-system threads, panics outside a checksum and poisoned locks: workers are interleaved steps over bounded queues; the errors that only a poisoned lock can cause are not modelled.
- A checksum task whose buffer address differs from the expected one: the address is that of the slot, so the branch is not modelled.
- `prefix.rs`: its main property rests on collision-free hashing and adds little to the page table's prefix map.
- Floating point (`LseState`, `kv.rs`, `score_indexer_key`): rounding is the point there; for top-k the scores are ordered by an abstract total order.
- `budget.rs`, `mtp.rs`, the draft sidecar payload codec and the short readers and statistics: single-branch checks and arithmetic.
- `RestoreService` and its handles in `residency.rs`: a worker thread and a quota counter.
- `catalog_binding` of the restore table and the rank-local digest of a delta: pure lookups without a law beyond their bodies.
- Writes and fsyncs through the direct buffers: the pool's and the descriptor table's own transitions are modelled, no user of them is.
