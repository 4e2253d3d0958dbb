# Glutony, modelled and proved in Dafny

Glutony ingests files and documents through pipelines of plugin steps and indexes the result. This
project models the parts of it whose behaviour depends on all inputs, all interleavings or whole
runs, and proves what they keep.

* **Pipelines** (`PipelineGraph`, `PipelineOrder`, `PipelineSpec`, `KahnSort`, `Pipeline`,
  `PipelineChain`, `PipelineWording`). A definition's implicit dependencies are filled in, its structure is checked
  and its steps are ordered with counts, child lists and a FIFO queue. The verdict on a definition
  is stated without the algorithm, and the algorithm is proved to give it: the first structural
  error, or the exact list of stuck steps, or the one order that lists every step after its
  dependencies in FIFO release order. That order is unique, never goes back to a shorter dependency
  chain, and agrees with "unrelated steps keep their position" on exactly the definitions described
  by `ListedAsReleased`.
* **Lab events outbox** (`Outbox`, `OutboxProtocol`, `OutboxLease`, `OutboxBackoff`, `LabSender`). Each SQL statement
  is a method on the table, proved against a function on its rows. The same functions are the steps
  of a protocol with any number of senders, a clock, a lossy network that delays and repeats
  messages, failing statements and crashes. Safety is proved over every run; one delivery attempt of
  the sender is shown to be such a run.
* **Archives** (`Archive`, `ArchiveWalker`, `ArchiveProperties`, `ArchiveLimits`,
  `ArchiveNames`, `ArchiveOutcomes`). What an archive holds is a list of
  actions that depends on its bytes and on the skipping limits alone; the walker, with its counters,
  sink and early exits, is proved to perform exactly those actions until a limit on the whole walk or
  the sink stops it. Decoders are arbitrary functions, so an archive may contain itself.
* **Blob store** (`PluginData`, `Documents`, `BlobStore`, `BlobRoundTrip`, `BlobTermination`,
  `BlobLaws`). Oversized outputs
  are spilled and read back, recursively, and uploads are staged. Reading back gives what was there
  exactly for the spilled forms of it, so plugins cannot tell whether anything was spilled.
* **Caches** (`CreditCache`, `CreditProtocol`, `AiTargetCache`, `AiTargetProtocol`, `PipelineCache`).
  Each cache is a class whose methods are proved against a function; a call of that function is shown
  to be a run of a protocol in which the steps of any number of calls interleave, and the promises
  are proved over all runs of it, or shown to fail and told apart exactly from those kept.
* **Costs** (`Cost`, `Charges`). Saturating 64-bit and 128-bit arithmetic is proved to equal one exact
  computation, capped once, and usage to add up the same in any order and grouping.

Times are real numbers of seconds. Library functions the code calls (archive decoders, JSON, type
guessing, remote fetches) are parameters: every theorem holds for all of them, and what little is
assumed of them is a named predicate (`Lossless`, `TarSlices`).

## Where the code and its wording differ

The model follows the code in each case.

* The comment on `validate` says steps with no mutual dependency are ordered by their position. That
  fails for `[a, p(q), z, q(a)]`, ordered a, z, q, p (`StepOrderFails`); `StepOrderExactly` gives the
  definitions for which it holds.
* The comment on `prepare_definition` says a definition is changed on success. A refused one keeps
  its normalized steps too (`Prepare`).
* The outbox is said never to deliver a row from two replicas. Senders that stay within their lease
  are not enough: an id that is dropped as stale while it is held, then posted again, can be held
  twice (`RepostBreaksTheLease`). A post can lead there if and only if its row is gone while a sender
  holds the id (`PostSafeExactly`); without such a post no row has two holders (`NoTwoHolders`).
* The AI target cache is said never to serve the rejected key. One call at a time it does not
  (`ServedTarget`), nor does a call alone on its account (`AloneIsSafe`). With other calls in between
  it happens (`RejectedKeyComesBack`): exactly when another call stores an answer with that key after
  the cache was read (`RejectedKeyServed`). Whether it can still happen is told, as the call begins,
  by the calls in flight (`RejectedKeyExactly`), as long as none begins later (`OneMoreCallServes`).
* A step whose id is another step's followed by a dash and a branch number overwrites that branch's
  spilled output, which then reads back wrong (`ClashLosesAnOutput`); `JobOutputsExactly` says what
  each reference of a job reads back as.
* The credit cache says a hung Lab costs one timeout, not one per check. One after the other that
  holds, within a budget (`FailingLookups`); checks that begin together all ask
  (`TogetherTheyAllAsk`), and the budget is then once per check in flight (`InterleavedBudget`).
* The total limit of an archive walk is documented as the most bytes decompression may produce. Reads
  that are too long or break off are not counted, so any number of bytes can be produced under it
  (`TotalLimitFails`, `OversizedZipIsOne`); it is such a bound exactly for the archives in which
  nothing is read after such a read (`TotalLimitExactly`).
* A pipeline list cached by a load that read the table before a write and stores it after the
  write's invalidation is served to later reads (`StaleAfterInvalidation`, `InvalidationExactly`).

## Model

| member | source | states |
|---|---|---|
| Pipeline.PipelineDefinition.Normalize | crates/plugin-sdk/src/types.rs:940-961 | both branches give each later step without dependencies the step before it, and an empty name the uid |
| Pipeline.PipelineDefinition.Validate | crates/plugin-sdk/src/types.rs:966-1048 | answers the verdict: the first structural error, the stuck steps, or the order |
| Pipeline.PipelineDefinition.Prepare | crates/control-plane/src/pipelines.rs:208-220 | reserved uids change nothing; otherwise steps are normalized, and accepted exactly when well formed and acyclic |
| Pipeline.CheckIds | crates/plugin-sdk/src/types.rs:978-983 | reports the first step that repeats an id, or that ids are unique |
| Pipeline.CheckSteps | crates/plugin-sdk/src/types.rs:984-1004 | reports the first problem of the first step that has one: unknown dependency, fan-out arity, fan-out path |
| PipelineSpec.ValidUidExactly | crates/plugin-sdk/src/types.rs:967-975 | a uid is a non-empty run of ASCII letters, digits, dots, dashes and underscores |
| PipelineSpec.StepProblemExactly | crates/plugin-sdk/src/types.rs:984-1004 | when a step is right on its own, and which error it gets otherwise, in order |
| PipelineSpec.ErrorPrecedence | crates/plugin-sdk/src/types.rs:966-1048 | of several errors which is reported: uid, no steps, first repeated id, first wrong step, cycle |
| KahnSort.IndexIds | crates/plugin-sdk/src/types.rs:1006-1011 | maps exactly the step ids, each to the step that has it |
| KahnSort.BuildGraph | crates/plugin-sdk/src/types.rs:1012-1020 | counts dependency entries with repetitions and lists each child once per entry |
| KahnSort.CountDown | crates/plugin-sdk/src/types.rs:1027-1033 | takes each child's occurrences off its count and collects those that reach zero |
| KahnSort.SortUnstable | crates/plugin-sdk/src/types.rs:1034-1034 | ascending, same elements |
| KahnSort.TurnKeepsState | crates/plugin-sdk/src/types.rs:1025-1036 | a turn of the queue loop keeps counts, membership, dependencies-first and FIFO release order |
| KahnSort.Drain | crates/plugin-sdk/src/types.rs:1021-1036 | ends with exactly the steps whose dependencies all came before, in that order |
| KahnSort.LeftOutIsStuck | crates/plugin-sdk/src/types.rs:1037-1044 | a step keeps a positive count exactly when it is on a cycle or depends on one |
| KahnSort.Sort | crates/plugin-sdk/src/types.rs:1005-1048 | the stuck steps when there is a cycle, else the FIFO order of all steps |
| Pipeline.SuccessExactly | crates/plugin-sdk/src/types.rs:966-1048 | accepted if and only if well formed and acyclic |
| Pipeline.AcceptedOrder | crates/plugin-sdk/src/types.rs:963-1048 | every step id once, each after everything it depends on |
| Pipeline.VerdictUnique | crates/plugin-sdk/src/types.rs:963-1048 | one definition, one answer |
| Pipeline.CycleReport | crates/plugin-sdk/src/types.rs:1037-1046 | names exactly the steps on a cycle or depending on one, in step order, a real cycle among them |
| PipelineGraph.ClosedSetIsStuck | crates/plugin-sdk/src/types.rs:1037-1046 | steps that all wait for each other lie on or lead to a cycle |
| PipelineGraph.ListedIsNotStuck | crates/plugin-sdk/src/types.rs:1025-1036 | a step listed after its dependencies neither lies on a cycle nor leads to one |
| PipelineOrder.KahnOrderUnique | crates/plugin-sdk/src/types.rs:963-965 | the graph alone fixes the order |
| PipelineOrder.OrderIsByLongestChain | crates/plugin-sdk/src/types.rs:1021-1036 | the order is non-decreasing in longest dependency chain |
| PipelineOrder.StepOrderExactly | crates/plugin-sdk/src/types.rs:963-965 | unrelated steps keep their position exactly on the definitions listed as released |
| PipelineWording.StepOrderFails | crates/plugin-sdk/src/types.rs:963-965 | a four-step definition whose unrelated steps swap places |
| Pipeline.NormalizedTwice | crates/plugin-sdk/src/types.rs:940-957 | normalizing again changes nothing |
| PipelineChain.WaitsForThePrevious | crates/plugin-sdk/src/types.rs:945-956 | a later step that named nothing waits for the step listed just before it and for no other |
| PipelineChain.OnlyMissingFilled | crates/plugin-sdk/src/types.rs:940-957 | nothing else of any step changes |
| PipelineChain.NothingNamedIsAChain | crates/plugin-sdk/src/types.rs:927-957 | where nothing is named, the longest dependency chain of step number i has i links |
| PipelineChain.ListingIsTheOnlyOrder | crates/plugin-sdk/src/types.rs:927-957 | there only the listed order puts dependencies first |
| Pipeline.NormalizedHasOneRoot | crates/plugin-sdk/src/types.rs:927-961 | an accepted normalized definition starts with its first step, its only root, on which all others depend |
| Pipeline.FirstStepWithDepsIsRefused | crates/plugin-sdk/src/types.rs:927-961 | a first step with dependencies is never accepted: all steps are reported stuck |
| Outbox.LabEventRepo.InsertMany | crates/control-plane/src/lab_events.rs:74-105 | all or nothing on a bad id; else new ids get the first body posted, due now, known ids stay |
| Outbox.FirstBodiesExactly | crates/control-plane/src/lab_events.rs:86-95 | under each id the first event of the batch counts |
| Outbox.Oldest | crates/control-plane/src/lab_events.rs:116-121 | as many as the limit allows, none left out being older |
| Outbox.SelectDue | crates/control-plane/src/lab_events.rs:116-121 | the oldest due rows no other transaction holds |
| Outbox.LabEventRepo.ClaimDue | crates/control-plane/src/lab_events.rs:109-128 | leases exactly the rows it returns, and changes nothing else |
| Outbox.LabEventRepo.MarkDelivered | crates/control-plane/src/lab_events.rs:156-164 | the listed rows leave the undelivered ones and are counted; a first stamp is set, never changed, and no other field is |
| Outbox.LabEventRepo.Reschedule | crates/control-plane/src/lab_events.rs:169-180 | undelivered rows of the list count one failure more and wait 0.8 to 1.2 times its backoff, under 360 seconds; other rows and fields stay |
| Outbox.LabEventRepo.PurgeDelivered | crates/control-plane/src/lab_events.rs:183-192 | only rows delivered before the limit go, all of them, counted; every other row stays as it was |
| Outbox.LabEventRepo.DropStale | crates/control-plane/src/lab_events.rs:196-205 | deletes old undelivered rows only, and returns them |
| LabSender.LabSender.DeliverOnce | crates/control-plane/src/lab_sender.rs:152-258 | for each way the exchange can go, what is reported and what every row becomes |
| LabSender.AttemptExactly | crates/control-plane/src/lab_sender.rs:205-258 | a row is stamped if and only if it was undelivered and claimed, listed in a 200 answer, and the stamp went through; it counts a failure if and only if it was claimed, not listed, and the backoff went through |
| LabSender.ReasonExactly | crates/control-plane/src/lab_sender.rs:194-236 | what in the exchange gives each failure reason: 401, other statuses, a missing acknowledgement, no connection, a timeout |
| LabSender.LabSender.Fail | crates/control-plane/src/lab_sender.rs:260-270 | backs the whole batch off, or changes nothing when the statement fails |
| LabSender.LabSender.Settle | crates/control-plane/src/lab_sender.rs:237-257 | marks what was acknowledged of the batch and backs the rest off |
| LabSender.LabSender.Maintain | crates/control-plane/src/lab_sender.rs:275-293 | purges past 7 days and drops past 24 hours, each at its own clock reading and whether or not the other fails |
| LabSender.FakeLab.DoPost | scripts/fake_lab.py:105-134 | which of the checks answers, in order; a batch is rejected whole, or each event stored once by id and every id acknowledged |
| LabSender.AttemptIsARun | crates/control-plane/src/lab_sender.rs:152-258 | an attempt changes the outbox as a run of the protocol does |
| OutboxProtocol.DeliveredIsStored | crates/control-plane/src/lab_sender.rs:237-244 | in every run a row marked delivered is stored at the Lab |
| OutboxProtocol.NothingInvented | scripts/fake_lab.py:127-134 | every body in the outbox, on the wire or at the Lab was posted under its id |
| OutboxProtocol.DeliveredForGood | crates/control-plane/src/lab_events.rs:156-192 | a delivered row keeps its stamp until purged more than 7 days later |
| OutboxProtocol.NoEventLost | crates/control-plane/src/lab_events.rs:194-205 | an undelivered row stays until a sender marks that very row on an acknowledgement, the Lab having stored it, or it is dropped past 24 hours |
| OutboxProtocol.ForeignRowsUntouched | crates/control-plane/src/lab_sender.rs:237-258 | from one claim to the next no step of a sender touches a row outside its batch, whatever the Lab lists |
| OutboxProtocol.ForeignIdsIgnored | crates/control-plane/src/lab_sender.rs:237-239 | acknowledgements that agree on the batch have the same effect |
| OutboxLease.NoTwoHolders | crates/control-plane/src/lab_events.rs:5-6 | within leases, and with no post of a held id whose row is gone, no two senders hold the same undelivered row |
| OutboxLease.PostSafeExactly | crates/control-plane/src/lab_events.rs:74-105 | every disciplined continuation of a post keeps one holder per row if and only if its row is there or nobody holds the id |
| OutboxLease.RepostBreaksTheLease | crates/control-plane/src/lab_events.rs:194-205 | a run within leases in which a dropped and re-posted row has two holders |
| Outbox.RescheduledSoon | crates/control-plane/src/lab_events.rs:166-174 | a backoff ends between 0.8 times its base and 360 seconds from now |
| Outbox.BackoffDoubles | crates/control-plane/src/lab_events.rs:166-174 | the backoff is 2 seconds at first, doubles up to the eighth failure and is 300 from the ninth |
| OutboxLease.AlwaysDueWithin360 | crates/control-plane/src/lab_events.rs:109-180 | no undelivered row ever waits more than 360 seconds |
| OutboxBackoff.AgeAtFailure | crates/control-plane/src/lab_events.rs:166-180 | in every run, at its n-th counted failure a row whose failures each followed a claim of its own is at least as old as its first n - 1 backoffs |
| OutboxBackoff.OverrunsBreakTheAge | crates/control-plane/src/lab_events.rs:109-128 | without that, a run in which nine overrunning senders count nine failures of a row younger than its first eight backoffs |
| OutboxBackoff.InLeaseFailuresClaimed | crates/control-plane/src/lab_events.rs:109-180 | within leases, with no post of a held id whose row is gone, each failure follows its own claim |
| OutboxBackoff.AtMost367Failures | crates/control-plane/src/lab_events.rs:166-180 | such a row, no older than 24 hours, has at most 367 counted failures |
| ArchiveWalker.Walk | crates/archive/src/lib.rs:195-209 | hands over and counts exactly what performing the archive's actions gives, and fails as that does; what these are for each entry the next rows say |
| ArchiveOutcomes.PlainZipWalk | crates/archive/src/lib.rs:235-296 | a zip of plain files within the limits is handed over file by file in order, under its names with its bytes, and nothing else |
| ArchiveOutcomes.PlainTarWalk | crates/archive/src/lib.rs:298-352 | the same of a tar |
| ArchiveOutcomes.ZipLayer | crates/archive/src/lib.rs:235-296 | a zip gives what its entries give, up to the first broken one; each is dropped, skipped for one of its reasons, handed over or opened exactly as its fields say |
| ArchiveOutcomes.TarLayer | crates/archive/src/lib.rs:298-352 | the same of a tar, which an entry whose content breaks off ends too |
| ArchiveOutcomes.GzipLayer | crates/archive/src/lib.rs:354-379 | a stream too long or broken off gives nothing; a tar inside gives what it gives, anything else what that one file gives |
| ArchiveOutcomes.FileGivesIts | crates/archive/src/lib.rs:382-412 | a file is reported as empty, handed over when its bytes and name are no archive's, opened below the depth limit, and reported as too deep at it |
| ArchiveOutcomes.WalkHandsOverAll | crates/archive/src/lib.rs:195-209 | under limits large enough, with a sink that goes on, the walk hands over all of that |
| ArchiveNames.NestedFormatExactly | crates/archive/src/lib.rs:466-482 | which first bytes, and for a zip which names, make a file an archive |
| ArchiveNames.NoiseExactly | crates/archive/src/lib.rs:497-503 | which paths are noise, by their components and last name |
| ArchiveNames.GunzippedExactly | crates/archive/src/lib.rs:484-495 | `stem.tgz` holds `stem.tar`, `stem.gz` holds `stem`, other names stay |
| ArchiveProperties.StoppedBySink | crates/archive/src/lib.rs:382-421 | the walk ends as stopped exactly when the sink was not content with the last event |
| ArchiveProperties.ContentBefore | crates/archive/src/lib.rs:382-421 | it was content with every event before |
| ArchiveWalker.Walker.Archive | crates/archive/src/lib.rs:220-233 | performs the layer's actions for its format |
| ArchiveWalker.Walker.Zip | crates/archive/src/lib.rs:235-296 | performs the entries' actions in turn; a broken directory ends the layer |
| ArchiveWalker.Walker.Tar | crates/archive/src/lib.rs:298-352 | performs the entries' actions in turn; a broken or unreadable entry ends the layer |
| ArchiveWalker.Walker.Gzip | crates/archive/src/lib.rs:354-379 | reads the stream, then goes on as the tar inside it or as the one file |
| ArchiveWalker.Walker.File | crates/archive/src/lib.rs:382-412 | skips, opens or hands over a file, never with a local error |
| ArchiveWalker.Walker.Skip | crates/archive/src/lib.rs:414-421 | counts and reports one skip, or is stopped by the sink |
| ArchiveWalker.Walker.ReadCounted | crates/archive/src/lib.rs:429-451 | the two caps together amount to one read against the total, then one size check |
| ArchiveWalker.StopsAreFatal | crates/archive/src/lib.rs:182-187 | no error that stops the walk is a local one |
| ArchiveWalker.PlanFailureIsLocal | crates/archive/src/lib.rs:235-379 | a layer's own error is about its format, or the tar inside its gzip |
| ArchiveProperties.TotalsAlways | crates/archive/src/lib.rs:146-155 | files and skips counted are those handed over; file count and bytes stay within limits |
| ArchiveProperties.WalkTotals | crates/archive/src/lib.rs:235-452 | the same at every moment of a walk, every file having 1 to the largest allowed number of bytes |
| ArchiveProperties.WalkBytes | crates/archive/src/lib.rs:18-28 | file bytes never exceed the bytes of accepted reads, nor the total limit, plus the length of an outer tar |
| ArchiveProperties.ArchiveCovered | crates/archive/src/lib.rs:27-28 | however formats nest, each file's bytes are paid for by counted reads or its tar's slice |
| ArchiveProperties.ArchiveFine | crates/archive/src/lib.rs:218-219 | every event of a layer is under its prefix, every file within size, every layer within depth |
| ArchiveProperties.WalkDepth | crates/archive/src/lib.rs:386-402 | no layer opens deeper than the limit, though the outer one always opens |
| ArchiveProperties.LocalErrorIsOutermost | crates/archive/src/lib.rs:182-187 | a local error is the outermost layer's own, after all its events were handed over |
| ArchiveProperties.NestedFailureKeepsFiles | crates/archive/src/lib.rs:402-405 | wherever the walk stops, the events a failing nested archive gave stay handed over; past it there are all of them and one skip report |
| ArchiveProperties.LimitsOnlyTruncate | crates/archive/src/lib.rs:18-28 | total limits and the sink only decide where a walk ends, never what it finds; counted bytes are the accepted reads up to there |
| ArchiveProperties.WalksAgree | crates/archive/src/lib.rs:18-28 | walks under different totals or sinks agree as far as both go |
| ArchiveLimits.TotalLimitExactly | crates/archive/src/lib.rs:104-107 | every total limit bounds what is produced by reads that do not stop the walk, if and only if nothing is read after a non-empty read that was not accepted |
| ArchiveLimits.QuietStaysWithin | crates/archive/src/lib.rs:429-451 | for such archives it does so under any sink and other limits |
| ArchiveLimits.TotalLimitFails | crates/archive/src/lib.rs:429-451 | a zip of n oversized entries of 2 bytes produces 2n bytes under a total limit of 2, uncounted and unstopped |
| PluginData.IntoDocuments | crates/plugin-sdk/src/types.rs:440-456 | the documents, fan-out results flattened in order, or the refusal of bytes and references |
| PluginData.InputIntoDocuments | crates/plugin-sdk/src/types.rs:354-370 | the same for inputs |
| Documents.RefusedExactly | crates/plugin-sdk/src/types.rs:440-456 | flattening is refused if and only if there are bytes or a reference at some depth |
| Documents.LeafInPlace | crates/plugin-sdk/src/types.rs:443-449 | each list of documents in the tree comes whole and in order, after those of the parts before it |
| Documents.EachDocHasALeaf | crates/plugin-sdk/src/types.rs:443-449 | each document of the result comes from such a list |
| Documents.InputDocsExactly | crates/plugin-sdk/src/types.rs:354-370 | the same for inputs, refused or not |
| PluginData.DocsOfConcat | crates/plugin-sdk/src/types.rs:443-449 | the documents of a fan-out are those of its parts in order |
| PluginData.FromKeepsDocuments | crates/plugin-sdk/src/types.rs:384-394 | handing an output on as an input keeps its documents |
| BlobStore.BlobStore.SpillOutput | crates/blob/src/lib.rs:790-815 | at most the threshold: unchanged; above it: stored under its key and replaced by a reference |
| BlobLaws.SizeOfDocuments | crates/plugin-sdk/src/types.rs:481-487 | a document weighs its texts and 256 |
| BlobLaws.SizeOfFanOut | crates/plugin-sdk/src/types.rs:470-479 | a fan-out weighs its parts |
| BlobStore.BlobStore.HydrateOutput | crates/blob/src/lib.rs:820-840 | what the output stands for, or the first missing or unreadable object, wherever reading it back ends |
| BlobStore.BlobStore.ResolveOutput | crates/blob/src/lib.rs:766-782 | hydrated, then every reference left fetched |
| BlobStore.BlobStore.ResolveInput | crates/blob/src/lib.rs:741-763 | inputs resolved part by part, in order |
| BlobStore.BlobStore.FetchRef | crates/blob/src/lib.rs:718-732 | staged content with its type and name, hinted, guessed or defaulted |
| BlobLaws.StagedExactly | crates/blob/src/lib.rs:718-732 | the name is the carried one, else the key's last name; the type the carried one, else the guessed, else any bytes |
| BlobLaws.FetchedInPlace | crates/blob/src/lib.rs:766-782 | a fan-out is fetched with each part in its place, or fails as its first failing part |
| BlobStore.BlobStore.StageUpload | crates/blob/src/lib.rs:845-871 | small uploads inline, others stored and referred to with their type and name |
| BlobLaws.UploadKeyExactly | crates/blob/src/lib.rs:845-871 | uploads go to the job's input folder under the last name of their filename, or upload.bin |
| BlobStore.HydrateIdempotent | crates/blob/src/lib.rs:817-840 | hydrating twice is hydrating once |
| BlobStore.HydrateClears | crates/blob/src/lib.rs:817-840 | no spilled reference is left at any depth |
| BlobStore.HydrateLater | crates/blob/src/lib.rs:817-840 | more stored objects change no successful hydration |
| BlobStore.ResolvedInputNoRef | crates/blob/src/lib.rs:736-763 | a resolved input holds no reference at any depth |
| BlobRoundTrip.HydrateUndoesSpilling | crates/blob/src/lib.rs:817-840 | hydration gives an output exactly for the spilled forms of it |
| BlobRoundTrip.SpillingIsInvisible | crates/blob/src/lib.rs:766-782 | an output resolves to the same, or fails the same, whatever parts of it were spilled |
| BlobRoundTrip.SameInput | crates/blob/src/lib.rs:736-763 | a plugin is given the same input, plain or fanned out, with the same documents, whatever was spilled |
| BlobTermination.SpillKeepsRanked | crates/blob/src/lib.rs:784-815 | spilling a readable output at a fresh key keeps the store ranked |
| BlobRoundTrip.SpillThenHydrate | crates/blob/src/lib.rs:784-840 | hydrating what was spilled at a new key gives or fails as hydrating what it was, unless that missed this very key, and so does whatever else does not miss it |
| BlobRoundTrip.SpillReadsBackExactly | crates/blob/src/lib.rs:784-840 | a spill at a new key can be read back if and only if the output did not miss that key |
| BlobRoundTrip.SpillKeysEqual | crates/blob/src/lib.rs:802-806 | two outputs of a job share a key exactly when they are the same or one id is the other's with a branch number |
| BlobRoundTrip.JobsKeepApart | crates/blob/src/lib.rs:580-582 | keys of different jobs differ |
| BlobRoundTrip.JobOutputsExactly | crates/blob/src/lib.rs:784-840 | after any spills of a job a reference reads back as what the last output spilled to its key stands for; without references inside, as its own exactly when the two are the same |
| BlobRoundTrip.JobOutputsReadBack | crates/blob/src/lib.rs:784-840 | without clashing names, at new keys, each reads back or fails as its output did when spilled, outputs that refer to earlier ones included, unless it missed a key of the job |
| BlobRoundTrip.ClashLosesAnOutput | crates/blob/src/lib.rs:802-806 | step chunk-1 overwrites branch 1 of step chunk, which reads back as the wrong output |
| BlobRoundTrip.SecondSpillKeepsFirst | crates/blob/src/lib.rs:802-809 | of two spills the first survives exactly when names do not clash or the outputs, without references inside, are equal |
| BlobRoundTrip.UploadRoundTrip | crates/blob/src/lib.rs:842-871 | a staged upload, not of the spill type, reads back with bytes, type and its own or the default name |
| BlobRoundTrip.UploadIsItselfExactly | crates/blob/src/lib.rs:741-763 | a staged upload reads back as the same blob exactly when it had a filename; one of the spill type only if its bytes are an output that stands for it |
| BlobTermination.RankedExactly | crates/blob/src/lib.rs:820-840 | a store can be ranked, references falling in rank, exactly when no chain of references returns to its start |
| BlobTermination.RankedEnds | crates/blob/src/lib.rs:820-840 | in a ranked store reading anything back ends, within the rank of what it refers to |
| BlobTermination.EndsExactly | crates/blob/src/lib.rs:820-840 | reading one output back ends, whatever else is stored, exactly when what is read on the way, up to the first failure, never comes back to a key; then within a hop for each stored key |
| BlobLaws.FailureExactly | crates/blob/src/lib.rs:820-840 | reading back fails exactly when some trail leads to a key with nothing or no output at it, and the failure is that key's |
| CreditCache.AccountCreditCache.FindLookup | crates/lab/src/credits.rs:145-199 | when the Lab is asked, what is cached, and what is returned, in every case |
| CreditCache.AccountCreditCache.Check | crates/lab/src/credits.rs:120-135 | the decision in every case; unknown kinds of account ask nothing |
| CreditCache.LookedUpExactly | crates/lab/src/credits.rs:145-199 | by ages: under 30 s served, else asked unless it failed under 10 s ago, else an entry under 300 s |
| CreditCache.DecisionExactly | crates/lab/src/credits.rs:124-134 | allowed exactly with an active account and a positive balance, unavailable exactly when nothing is known |
| CreditCache.LabAccountExactly | crates/lab/src/lib.rs:191-200 | 8, 4, 4, 4 and 12 small hexadecimal digits with dashes between |
| CreditCache.AsksAreSpaced | crates/lab/src/credits.rs:152-168 | while the Lab is down, requests are at least the backoff apart |
| CreditCache.FailureBudget | crates/lab/src/credits.rs:21-22 | while the Lab is down, a window of w seconds sees at most w / 10, rounded down, plus one requests |
| CreditCache.FailingLookups | crates/lab/src/credits.rs:145-199 | the cache keeps to that budget over any run of failing lookups, and its entries stay |
| CreditProtocol.LookupIsARun | crates/lab/src/credits.rs:145-199 | a lookup with no other in between finds and leaves what its interleavable steps do |
| CreditProtocol.InterleavedBudget | crates/lab/src/credits.rs:9-11 | while the Lab is down, in every interleaving, a window of w seconds sees at most the checks in flight at once times w / 10, rounded down, plus one requests |
| CreditProtocol.TogetherTheyAllAsk | crates/lab/src/credits.rs:145-168 | any number of checks in flight may all ask at one instant |
| CreditProtocol.AllowedIsBacked | crates/lab/src/credits.rs:120-199 | in every interleaving work is allowed only on the Lab's answer for that account, at most 300 seconds older than the check |
| AiTargetCache.AiTargetCache.Get | crates/lab/src/ai.rs:162-221 | when the Lab is asked, what is served and what stays cached, in every case |
| AiTargetCache.ServeExactly | crates/lab/src/ai.rs:75-81 | by age, key and answer: when the Lab is asked, what is served and what is left |
| AiTargetCache.CachedIsLastWord | crates/lab/src/ai.rs:190-207 | what is cached is the last target the Lab gave for the account, every later request having failed |
| AiTargetCache.ServedTarget | crates/lab/src/ai.rs:152-221 | a served target is this call's answer, or the Lab's last word under 300 seconds old after this call's own failure where it asked, never the rejected key |
| AiTargetProtocol.CallIsARun | crates/lab/src/ai.rs:162-221 | a call with no other in between serves and leaves what its interleavable steps do |
| AiTargetProtocol.RejectedKeyComesBack | crates/lab/src/ai.rs:208-212 | a run in which a call drops the rejected key, and serves it when its own request fails |
| AiTargetProtocol.RejectedKeyServed | crates/lab/src/ai.rs:178-212 | in every run, a call whose request failed serves the rejected key if and only if another call stored it since the cache was read, untouched and under 300 seconds older |
| AiTargetProtocol.RejectedKeyExactly | crates/lab/src/ai.rs:162-221 | as a call begins, some continuation in which no other begins has it serve the rejected key if and only if a recent call in flight can still store it |
| AiTargetProtocol.AboutToServeExactly | crates/lab/src/ai.rs:208-212 | the state that lemma speaks of is the one whose next step serves the rejected key |
| AiTargetProtocol.AloneIsSafe | crates/lab/src/ai.rs:152-161 | with no other call about the account in flight or beginning, the rejected key is never served from the cache |
| AiTargetProtocol.OneMoreCallServes | crates/lab/src/ai.rs:162-221 | one more call about the account is enough for it to be served |
| PipelineCache.PipelineCache.GetOrLoad | crates/control-plane/src/resolver.rs:50-62 | the cached list while fresh, else the table's, which is then cached; a failed query changes nothing |
| PipelineCache.ReturnedWasTable | crates/control-plane/src/resolver.rs:49-62 | a returned list was the whole table at an instant within the time to live plus one load before the read |
| PipelineCache.ReadIsARun | crates/control-plane/src/resolver.rs:50-62 | a read with no other call in between returns and leaves what its interleavable steps do |
| PipelineCache.InvalidationExactly | crates/control-plane/src/resolver.rs:70-72 | after an invalidation later reads see the table exactly when no load in flight holds an older list |
| PipelineCache.StaleAfterInvalidation | crates/control-plane/src/resolver.rs:50-72 | a run from the empty cache in which a read begun after a write and its invalidation returns the old list |
| PipelineCache.FirstReadSeesWrite | crates/control-plane/src/pipelines.rs:433-441 | with no load in flight, reads after a write and its invalidation see the write |
| Cost.UsageUnits.Apply | crates/plugin-sdk/src/cost.rs:148-186 | changes the units as `Applied` says, despite every saturation in between |
| Charges.ChargeIsRealPrice | crates/plugin-sdk/src/cost.rs:164-185 | below the cap a priced call adds its real price, written out in its fields, rounded up by less than 2 micro-dollars |
| Charges.AudioAloneIsRoundedUp | crates/plugin-sdk/src/cost.rs:173-174 | seconds alone add the least whole number that covers them |
| Charges.UnpricedExactly | crates/plugin-sdk/src/cost.rs:149-163 | when a call is counted as unpriced instead, and that nothing else changes |
| Charges.OwnEntryFirst | crates/plugin-sdk/src/cost.rs:120-127 | the model's own entry comes first |
| Charges.ThenBareThenDefault | crates/plugin-sdk/src/cost.rs:120-127 | then that of the model without its provider, then the default |
| Cost.UsageUnits.Merge | crates/plugin-sdk/src/types.rs:672-688 | adds every counter, saturating |
| Charges.AudioAdds | crates/plugin-sdk/src/types.rs:680-680 | finite seconds add up, anything else stays no usable number |
| Cost.SaturationIsOneCap | crates/plugin-sdk/src/cost.rs:164-185 | all the saturations together are one cap on the exact cost |
| Cost.PricedOneByOne | crates/plugin-sdk/src/cost.rs:166-172 | the tokens of n calls priced one by one cost at least what their sum costs and at most n - 1 micro-dollars more |
| Cost.ChargedIsCappedSum | crates/plugin-sdk/src/cost.rs:182-185 | charging any number of calls to one counter ends at the exact sum of their costs, capped once |
| Cost.MergeIsCappedTotal | crates/plugin-sdk/src/types.rs:672-688 | however branches are merged, each counter ends at the exact total, capped once |
| Cost.MergeAnyWay | crates/plugin-sdk/src/types.rs:672-688 | order and grouping of merges do not change the counters |

## Left out

- HTTP, authentication, the database driver, the object store's own failures, logging and metrics: each statement is one atomic step and each remote call an arbitrary answer.
- The bytes of zip, tar, gzip, JSON and signatures: decoders are parameters. JSON is assumed lossless and tar entries to be disjoint slices where a theorem names that.
- Outbox.LabEventRepo.InsertMany: the conversion of rows written before version 2, which follows an insert of such rows, is not modelled; its statement is in a migration, and it resets leases.
- LabSender.LabSender.DeliverOnce: the conversion and reload of a claimed batch with such rows is left out for the same reason.
- The sender's outer loop (drain, gauges, hourly timer) and the outbox statistics: they call what is modelled.
- Outbox.LabEventRepo.Reschedule: the failure count is unbounded, where the column holds 32 bits; rows are dropped long before that matters.
- BlobStore.BlobStore.HydrateOutput: asks that reading back ends, because the original does not return otherwise; `EndsExactly` says when it does. `ResolveOutput` and `ResolveInput` ask the same of what they read.
- BlobStore.BlobStore.FetchRef: URL and foreign-store references are fetched by a parameter; only staged references are modelled.
- Object paths: the object store's own normalisation of keys is not modelled; keys are compared as text.
- Archive limits at the top of the 64-bit range, where adding one saturates: limits are unbounded numbers.
- Text lengths are in characters, where the original counts UTF-8 bytes; only `ApproxSize` depends on it.
- Cost.UsageUnits.Apply: audio seconds are real numbers, infinities or no number; the rounding of their products and sums is not modelled.
- PipelineCache.PipelineCache.GetOrLoad: `set` and `is_fresh` beside it are left out; only tests call them.
- Routing, tenant scoping, configuration checks against plugin schemas, index templates, context injection: they neither hold nor change any of the state modelled here.
