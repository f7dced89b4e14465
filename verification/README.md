# Capture, storage and serving protocols of spicy-regs

A Dafny model of the parts of spicy-regs that move federal rulemaking data safely: capturing a comments table across
interrupted runs, storing objects under conditions, resolving citations in batches, comparing XML readings, measuring
joins, and the small protocols around them. Each part is proved to keep what it is for.

- **Checkpointed capture** (`CaptureProtocol`, `CaptureSafety`, `CaptureRuns`, `CaptureAttempt`, `CapturePaths`,
  `Framing`). A state machine whose actions are single durable writes, with crashes, refusals and part-file damage
  between any two, and beside it the procedure itself over a directory object. Every procedure is a path of the machine.
- **Conditional object store** (`ObjectStore`, `StoreInterleavings`). The class with its fields, and its locked sections
  interleaved by any number of writers.
- **Citations** (`CitationLookup`, `CitationResolution`, `CitationInstall`, `DocumentKeys`, `AcquisitionQueue`). The SQL
  text as relations over rows, the two-pass resolver, the transactional install, the keys, and the planning queue.
- **XML readings** (`XmlEvents`). A callback machine against a recursive walk.
- **Relational checks** (`TableJoins`, `JoinSelection`, `CommentsHealth`, `CoverageMonitor`). Grouped counts against
  nested-loop joins, coverage of an index, and monitoring over days.
- **Small protocols** (`PhaseDiagnostics`, `RefreshRequest`, `RangeServer`).
- `Basics`, `Sorting` and `Decimals` hold shared helpers.

Parquet files are sequences of rows, SQL relations are sequences or multisets of rows, and clocks, fresh identifiers and
the reads of foreign systems are parameters. Hashes are function parameters; where a result needs them collision-free,
the lemma says so as a hypothesis. `dafny verify dfyconfig.toml` checks everything.

Where code and documentation part, or a promise needs a condition, the model keeps the code and proves the condition:

- A crash between making the output directory and writing CHECKPOINT.json leaves a directory no later run can use
  (`CaptureSafety.NoCheckpointIsStuck`).
- An empty plan takes one run, so the number of runs is max(1, ceil(n/k)) (`CaptureRuns.CaptureTakesCeilRuns`).
- A part that arrives while a completion is under way yields an object of more parts than its tag says
  (`StoreInterleavings.LatePartBreaksTag`); in every run the tag is right exactly when none arrives between the check of
  the list and the tag (`StoreInterleavings.TagFitsIff`).
- A completion refused after joining leaves the joined file. The upload can be published after that exactly when another
  completion of it has joined and would be accepted at once (`StoreInterleavings.AssembledCompletesIff`), which
  `StoreInterleavings.StuckUploadReached` shows to fail; `ObjectStore.CompletesIff` says when a completion is accepted.
- The two XML readings differ on empty text, and agree exactly without it (`XmlEvents.ReadingsAgreeIff`,
  `XmlEvents.EmptyTextDiffers`).
- A null index count for a cohort without rows is not noticed (`CommentsHealth.NullCountGoesUnnoticed`); the index lists
  only cohorts with rows exactly when each listed cohort has a non-null count (`CommentsHealth.CoverageIsTwoWayIff`).
- A GAO group's status may depend on row order (`AcquisitionQueue.GaoStatusFollowsTheFirstRow`); it does not exactly when
  the spellings present were inspected alike (`AcquisitionQueue.StatusIgnoresOrderIffInspectedAlike`).
- A composite document key has other accepted spellings (`DocumentKeys.LeadingBlankNamesTheSameDocument`,
  `DocumentKeys.NeedlessEscapeNamesTheSameDocument`); an accepted key is the made one exactly when it is compact
  (`DocumentKeys.OneSpellingIff`).
- Different join declarations can spell one name (`JoinSelection.NamesCanCollide`), which plain names rule out
  (`JoinSelection.NameDeterminesIdentity`).
- Python 3.12 (`pyproject.toml:5`) reads no integer of more than 4300 digits. A range header with one is refused although
  the standard wants its bytes (`RangeServer.LongHeaderRefused`), and a law key with one fails the whole queue
  (`AcquisitionQueue.FailsExactly`). The exact conditions are in `RangeServer.AcceptsWhatTheStandardWants`,
  `RangeServer.ReadingInPieces` and `AcquisitionQueue.BuildQueue`.
- The range unit is case-insensitive in section 14.1 of RFC 9110, and only its lower-case spelling is served
  (`RangeServer.OtherUnitRefused`).

## Model

| member | source | states |
|---|---|---|
| CaptureSafety.ReceiptsCoverPrefix | scripts/capture_comments_current.py:371-445 | over every sequence of first runs, resumes, bounds, crashes between any two writes, refusals and part-file damage: receipts cover a prefix of the frozen tasks, each attests exactly its task's rows, and a published file is the frozen-order concatenation of all tasks |
| CaptureSafety.CapturesAgree | scripts/capture_comments_current.py:446-519 | two executions that froze the same tasks and both reach captured publish the same rows and counts, however often either was interrupted or re-planned |
| CaptureSafety.CapturedIsTerminal | scripts/capture_comments_current.py:287-292 | after captured, no later attempt changes anything but part files that someone damages |
| CaptureSafety.NoCheckpointIsStuck | scripts/capture_comments_current.py:287-295 | a directory left without CHECKPOINT.json by a crash can never be captured by any later run |
| CaptureSafety.RunExtends | scripts/capture_comments_current.py:356-367 | a written checkpoint and every written receipt stay as they are through all later actions |
| CaptureSafety.UndamagedPartsHoldTheirRows | scripts/capture_comments_current.py:416-428 | without outside damage, after any crashes every receipt names a part file holding exactly its task's rows |
| CaptureSafety.PopulationsCountEveryTask | scripts/capture_comments_current.py:499-501 | the published populations count for each agency value exactly the rows of all frozen tasks that carry it |
| CaptureSafety.IntactPartVerifies | scripts/capture_comments_current.py:258-275 | a resume admits every undamaged part: an intact receipt passes the readback |
| CaptureSafety.ReceiptsRecordTheirParts | scripts/capture_comments_current.py:258-275 | after every action sequence, part-file damage included, each receipt records the digest of exactly its task's rows as stored |
| CaptureSafety.VerifiedIffOnDisk | scripts/capture_comments_current.py:258-275 | a receipt passes the resume readback if and only if the part file it names exists and equals the rows of its frozen task |
| CaptureSafety.ReuseMeansPartOnDisk | scripts/capture_comments_current.py:378-387 | in every reachable state, a run that comes to a receipt takes it over exactly if its part is there with its task's rows, and refuses otherwise |
| CaptureSafety.OtherFileRefused | scripts/capture_comments_current.py:271-272 | a collision-free byte digest alone already refuses every file but the one the receipt was made for |
| CaptureSafety.ForeignReceiptRefused | scripts/capture_comments_current.py:265-268 | a receipt of another checkpoint, task or number is refused |
| CaptureSafety.AcceptsPermutations | scripts/capture_comments_current.py:353-367 | a resume is admitted exactly when the new plan is a permutation of the frozen pins |
| CaptureSafety.PlannedWholeIff | scripts/capture_comments_current.py:346-348 | the planner's tasks all count exactly when no path is repeated |
| CaptureProtocol.RunKeepsInv | scripts/capture_comments_current.py:287-519 | every action in every state keeps the whole invariant of the directory and of the running process |
| CaptureProtocol.FieldDigestsAreSound | scripts/capture_comments_current.py:245-255 | the length-framed field digests under a collision-free hash are a readback that tells all tables apart, as the protocol needs |
| CaptureRuns.BoundedRunOutcome | scripts/capture_comments_current.py:378-445 | a run bounded by k that is neither killed nor refused adds k receipts or as many as were missing, and captures exactly when that completes the tasks |
| CaptureRuns.CaptureTakesCeilRuns | scripts/capture_comments_current.py:388-389 | runs bounded by k capture n tasks in exactly max(1, ceil(n/k)) runs |
| CaptureAttempt.OutputDirectory.ReadNewTask | scripts/capture_comments_current.py:390-431 | the statements for one new task leave pending file, part and receipt as the one-task function says |
| CaptureAttempt.OutputDirectory.ReadTasks | scripts/capture_comments_current.py:377-433 | the loop over tasks with its reuse, bound and refusal branches computes TaskLoop |
| CaptureAttempt.OutputDirectory.CopyParts | scripts/capture_comments_current.py:448-465 | the finalizing loop writes the parts in order, or refuses one that no longer matches its receipt |
| CaptureAttempt.OutputDirectory.DoWork | scripts/capture_comments_current.py:368-511 | everything after the checkpoint is bound, as one imperative procedure with its reader that may fail and its end checks, computes the work function |
| CaptureAttempt.OutputDirectory.Capture | scripts/capture_comments_current.py:278-520 | the whole of capture(), start checks included, leaves the directory and answers the status of the attempt function |
| CapturePaths.AttemptPath | scripts/capture_comments_current.py:278-520 | the imperative attempt is a path of the step-by-step protocol, so everything proved of all step sequences holds of it |
| CapturePaths.AttemptIsBoundedRun | scripts/capture_comments_current.py:388-389 | an attempt with a task bound is one bounded run of the protocol |
| CapturePaths.AttemptRefusedIff | scripts/capture_comments_current.py:343-511 | with undamaged parts and a writer that stores what it is given, an admitted attempt is refused if and only if the start checks fail, the plan has repeated paths or on a resume is not a permutation of the frozen pins under the same binding, the end checks fail, or the reader fails on a task within the bound |
| CapturePaths.BindsIffPlanFits | scripts/capture_comments_current.py:343-367 | a run binds its checkpoint exactly when the plan repeats no path and, on a resume, is a permutation of the frozen pins under the same binding |
| CapturePaths.DamagedIsRefused | scripts/capture_comments_current.py:278-520 | an attempt on a directory in which some receipted part is missing or differs from its task's rows is refused whatever its plan, reader and writer, reads nothing and leaves receipts and parts as they were |
| CapturePaths.RefusedIffDamagedOrObstructed | scripts/capture_comments_current.py:278-520 | on every reachable directory, an attempt that gets in is refused if and only if some receipted part is damaged or something obstructs it |
| CapturePaths.AttemptSucceeds | scripts/capture_comments_current.py:278-520 | from any undamaged reachable directory, whatever crashed before, an attempt that nothing of this kind obstructs adds k receipts or all missing ones and publishes the exact concatenation once none is missing |
| CapturePaths.HonestCopyLoop | scripts/capture_comments_current.py:449-465 | the export written from intact parts is the concatenation of the tasks' rows in frozen order |
| Framing.Utf8Injective | scripts/capture_comments_current.py:158 | value.encode('utf-8') never maps two texts to one byte string |
| Framing.Utf8WellFormed | scripts/capture_comments_current.py:158 | every encoded character is one of the byte sequences that the table in section 3 of RFC 3629 allows |
| Framing.LengthRoundTrip | scripts/capture_comments_current.py:159 | the eight big-endian length bytes give the length back below 2^64 |
| Framing.StreamDecodes | scripts/capture_comments_current.py:152-159 | a decoder recovers the exact sequence of nulls and byte strings from what a column's hash was fed |
| Framing.StreamIdentifiesColumn | scripts/capture_comments_current.py:144-159 | two sequences of optional texts give the same byte stream if and only if they are equal |
| Framing.FieldsIdentifyRows | scripts/capture_comments_current.py:162-163 | with a collision-free hash, equal field digests are equal tables: every value, null, order and repeat |
| Framing.Feed | scripts/capture_comments_current.py:154-159 | the inner loop appends exactly the frames of the column's values |
| Framing.FieldDigests.Add | scripts/capture_comments_current.py:151-160 | a batch extends every column's stream; a batch of another width fails after updating the columns both have, and counts no rows |
| Framing.FieldDigests.AddAfter | scripts/capture_comments_current.py:151-160 | adding a batch after rows already seen is the same as having seen both at once |
| Framing.FieldDigests.Result | scripts/capture_comments_current.py:162-163 | the reported digests are those of the rows seen |
| Framing.Slices | scripts/capture_comments_current.py:123-124 | the 1000-row slices are nonempty, bounded and join up to the batch |
| Framing.PartValues | scripts/capture_comments_current.py:245-255 | part_values gives the digests of the rows whatever the division into batches, and fails exactly when the schema or the footer row count differs or a batch has another width |
| ObjectStore.CommitKeepsConsistent | scripts/qualification_store.py:101-111 | a commit whose tag and checksum fit its bytes keeps objects, tags and checksums in step |
| ObjectStore.ValidKeyMeaning | scripts/qualification_store.py:40-44 | the accepted keys are exactly the slash-joined lists of parts that are not empty, a dot or two dots |
| ObjectStore.PutMeaning | scripts/qualification_store.py:79-113 | a put is accepted exactly when options, conditions, digests and length are right and the path is free, and otherwise reports the first thing wrong in the source's order |
| ObjectStore.CompletionIsOwnParts | scripts/qualification_store.py:159-181 | a completed object is its own upload's parts 1..n joined under the multipart tag; a refused one touches no object, tag or checksum |
| ObjectStore.CompletesIff | scripts/qualification_store.py:159-181 | a completion is accepted exactly when its shape is right, its upload was not joined before and the path is free; a refusal leaves the upload joined exactly when it was before or the path was taken |
| ObjectStore.CompletionAcceptedIff | scripts/qualification_store.py:159-181 | the same over the call itself: the upload is of this key, every part is listed with its number and tag, the condition holds and the path is free |
| ObjectStore.DiskStore.HeadObject | scripts/qualification_store.py:48-58 | size, tag and, when enabled, checksum of the stored object; each refusal exactly when the source raises it |
| ObjectStore.DiskStore.GetObject | scripts/qualification_store.py:60-64 | the head together with the stored bytes, or the refusal of the head, and the call log |
| ObjectStore.DiskStore.PutObject | scripts/qualification_store.py:79-113 | an accepted put is exactly its commit with the tag of the streamed bytes; a refused put changes nothing |
| ObjectStore.DiskStore.Receive | scripts/qualification_store.py:87-94 | the streaming loop collects the body up to the first empty read |
| ObjectStore.DiskStore.CreateMultipartUpload | scripts/qualification_store.py:127-134 | a new empty upload for this key, nothing else changed |
| ObjectStore.DiskStore.UploadPart | scripts/qualification_store.py:143-157 | parts are accepted only in order and with the right md5, and only this upload's list grows |
| ObjectStore.DiskStore.CompleteMultipartUpload | scripts/qualification_store.py:159-181 | state and answer are those of the completion function |
| ObjectStore.DiskStore.AbortMultipartUpload | scripts/qualification_store.py:183-186 | the upload is dropped and every object stays |
| ObjectStore.DiskStore.Paginate | scripts/qualification_store.py:120-125 | pages of at most 1000 entries join up to the sorted listing of exactly the keys with the prefix |
| ObjectStore.WithoutTrailingSlashesMeaning | scripts/qualification_store.py:121 | the checked prefix is the given one without the slashes at its end |
| ObjectStore.Pages | scripts/qualification_store.py:124-125 | cutting a listing into pages loses, repeats and reorders nothing |
| StoreInterleavings.InterleavingsAreAtomic | scripts/qualification_store.py:79-113 | whatever sections interleave, the objects are those of the committed writes performed one by one as atomic conditional writes |
| StoreInterleavings.ReplayIsLastWrite | scripts/qualification_store.py:103-109 | the store holds for every key exactly what its last committed write put there |
| StoreInterleavings.EveryWriteWasAsked | scripts/qualification_store.py:79-181 | every committed write was asked for by a call with its key, its very conditions, its checksum and body, or its part list |
| StoreInterleavings.OneCreator | scripts/qualification_store.py:66-71 | at most one create-only writer per key ever commits, and it is the first write to that key |
| StoreInterleavings.NoLostUpdate | scripts/qualification_store.py:100-111 | a committed If-Match writer replaced bytes whose tag was the one it named at its commit, and those are the latest committed bytes |
| StoreInterleavings.TagFitsIff | scripts/qualification_store.py:161-173 | in every run, a committed completion that checked its list in step i and computed its tag in step j carries the tag of the parts it joined if and only if no step in between added a part to its upload; md5 need only give 16-byte digests of those parts and tell the two digest lists apart |
| StoreInterleavings.EveryCompletionSpans | scripts/qualification_store.py:159-173 | every committed completion of every run has such a step i, which asked to complete with the list of the parts there then were, and a later step j of the same call |
| StoreInterleavings.QuietTags | scripts/qualification_store.py:79-181 | in every interleaving without such a late part, every stored tag and checksum is that of the stored bytes |
| StoreInterleavings.LatePartBreaksTag | scripts/qualification_store.py:161-173 | a concrete interleaving in which a caller who listed one part gets an object of two under a tag that says one, and which fits the object exactly when md5 collides on two given texts |
| StoreInterleavings.CompletionsPublishOwnParts | scripts/qualification_store.py:143-181 | in every run a committed completion publishes a beginning of the parts added to its own upload, at least those the caller listed and with their tags; without late parts exactly the listed ones |
| StoreInterleavings.AssembledNeverCompletes | scripts/qualification_store.py:159-181 | once an upload is joined and no completion of it could pass its second check at once, no later step of any writer ever publishes it |
| StoreInterleavings.AssembledCompletesIff | scripts/qualification_store.py:159-181 | from any reachable state, a joined upload can still be published by some later steps if and only if some completion of it has joined and would pass its second check now |
| StoreInterleavings.StuckUploadReached | scripts/qualification_store.py:164-178 | a concrete run that reaches such an upload: a put of the same key commits while the completion computes its tag |
| StoreInterleavings.AbortedNeverCompletes | scripts/qualification_store.py:159-186 | an upload that was aborted is never published by any later step, a completion under way included |
| StoreInterleavings.AbortAborts | scripts/qualification_store.py:183-186 | every accepted abort leaves such an upload |
| StoreInterleavings.UninterruptedPut | scripts/qualification_store.py:79-113 | put_object without interference is its two locked sections back to back, with the class's outcome |
| StoreInterleavings.UninterruptedCompletion | scripts/qualification_store.py:159-181 | complete_multipart_upload without interference is its four sections back to back, with the class's outcome |
| StoreInterleavings.UploadSteps | scripts/qualification_store.py:127-186 | opening an upload, adding a part and aborting, over the call's own key and identity |
| StoreInterleavings.FirstChecks | scripts/qualification_store.py:79-84 | a call gets past its first check exactly if it is well formed and its conditions hold then, and has changed nothing yet |
| CitationLookup.CountIsMatchingRows | src/spicy_regs/citation_resolution.py:151-163 | match_count is the number of admitted rows that match by key or by range, each row once |
| CitationLookup.BasisMeaning | src/spicy_regs/citation_resolution.py:169-171 | match_basis says key only, range only or both exactly as all matched rows decide, beyond the candidate bound too |
| CitationLookup.NoBasisWithoutRange | src/spicy_regs/citation_resolution.py:168-171 | a match basis is stated exactly for routes that have a range form |
| CitationLookup.RankedMeaning | src/spicy_regs/citation_resolution.py:160-165 | the ranked rows are the first min(count, max) in identity order: nothing left out precedes them |
| CitationLookup.IdentityLeqMeaning | src/spicy_regs/citation_resolution.py:158-165 | the identity order: column by column, NULL after every text, and texts by code point |
| CitationLookup.CandidatesMeaning | src/spicy_regs/citation_resolution.py:172-174 | candidates are the ranked identities without repeats, in identity order |
| CitationLookup.BatchFindsEach | src/spicy_regs/citation_resolution.py:142-175 | the result of a batch of keys gives each key what it finds alone |
| CitationLookup.Lookup | src/spicy_regs/citation_resolution.py:166-175 | the loop over the result rows builds exactly that map |
| CitationResolution.BatchRefinesAlone | src/spicy_regs/citation_resolution.py:191-270 | if no read fails, an occurrence whose pair is among the first max_target_keys distinct eligible pairs gets exactly its single-occurrence row, and every other eligible one target_key_limit |
| CitationResolution.EqualPairsAgree | src/spicy_regs/citation_resolution.py:256-264 | occurrences with one (route, key) pair agree on everything but their source status |
| CitationResolution.LookupsAreKeyByKey | src/spicy_regs/citation_resolution.py:245 | reads that answer distinct keys with the relational lookup meet the hypothesis of the refinement |
| CitationResolution.LookupAnswers | src/spicy_regs/citation_resolution.py:142-175 | the lookup of one batch, absorbed row by row, is such a read, for any tables |
| CitationResolution.StatusMeaning | src/spicy_regs/citation_resolution.py:256-264 | each status and each of its two reasons if and only if the number of matching target rows and the listed identities say so |
| CitationResolution.RowSourceMeaning | src/spicy_regs/citation_resolution.py:207-215 | the source status by the two digests alone: native without a text field, current if both digests are there and equal, stale if there and different, unread otherwise |
| CitationResolution.RowReasonMeaning | src/spicy_regs/citation_resolution.py:207-232 | when each reason for not looking an occurrence up is given, over its own fields and pins, and that nothing is counted, listed or read for one that fails any of these checks |
| CitationResolution.EligibleMeaning | src/spicy_regs/citation_resolution.py:204-229 | an occurrence is eligible exactly when it comes from held text or a native field, its kind has a route, its key is settled and the route is pinned |
| CitationResolution.FailureMeaning | src/spicy_regs/citation_resolution.py:236-255 | an admitted occurrence is a timeout, a read failure or counted, by what its own route's read and those before it did |
| CitationResolution.FirstPass | src/spicy_regs/citation_resolution.py:193-233 | the admission loop: rows, batches, positions and the number selected are those of the first max_target_keys distinct pairs in input order |
| CitationResolution.SecondPass | src/spicy_regs/citation_resolution.py:234-264 | the read loop settles every admitted row; reads follow admission order and stop after the first timeout |
| CitationResolution.SettleRoute | src/spicy_regs/citation_resolution.py:256-264 | one route's turn changes exactly the rows waiting for it |
| CitationResolution.FateInOrder | src/spicy_regs/citation_resolution.py:236-255 | a route is skipped exactly when some earlier read timed out |
| CitationResolution.TalliesSum | src/spicy_regs/citation_resolution.py:265 | status counts sum to the input length |
| CitationResolution.CountStatuses | src/spicy_regs/citation_resolution.py:265 | the counter holds how often each status occurs |
| CitationResolution.CountReasons | src/spicy_regs/citation_resolution.py:266 | the reason counter holds how often each reason occurs and no reason that does not |
| CitationResolution.Resolve | src/spicy_regs/citation_resolution.py:178-270 | outputs stay in input order and each is its occurrence's row, with the source status and reasons its own fields call for; bounds are enforced; reads stop at the first timeout; the coverage counts statuses, reasons, keys read and selected and batches, and is partial exactly when some output has a reason |
| XmlEvents.MaintainedParsesBack | src/spicy_regs/cfr_native_audit.py:175-186 | a parser reads maintained events back to the tree with adjacent text joined |
| XmlEvents.EventsDetermineTree | src/spicy_regs/cfr_native_audit.py:175-186 | equal event lists are equal trees up to how adjacent text is cut |
| XmlEvents.Handlers.OnStartElement | src/spicy_regs/cfr_native_audit.py:135-142 | the start handler and its bounds do one step of the callback machine |
| XmlEvents.Handlers.OnCharacters | src/spicy_regs/cfr_native_audit.py:149-158 | the text handler ignores text outside elements, bounds it and merges it, as the machine does |
| XmlEvents.IndependentEvents | src/spicy_regs/cfr_native_audit.py:114-172 | the handlers driven over a callback stream yield the machine's events, and fail exactly when the body exceeds the byte bound, the machine fails or the document is incomplete |
| XmlEvents.SplittingKeepsEvents | src/spicy_regs/cfr_native_audit.py:149-158 | cutting one text callback into any number of chunks, anywhere in a stream, does not change the reading |
| XmlEvents.GlueIsInvisible | src/spicy_regs/cfr_native_audit.py:149-158 | two streams that differ only in how text is cut leave the handlers in the same state |
| XmlEvents.EveryCuttingIsAParserStream | src/spicy_regs/cfr_native_audit.py:149-158 | for every tree, the callbacks of the tree with its text cut in any way at all meet the hypothesis of the two agreement theorems |
| XmlEvents.UncutIsACutting | src/spicy_regs/cfr_native_audit.py:114-172 | and so do its callbacks with no text cut |
| XmlEvents.IndependentListsTree | src/spicy_regs/cfr_native_audit.py:114-172 | for any cutting of the text, the handlers accept exactly the documents within the bounds and list the tree without its empty text |
| XmlEvents.ReadingsAgreeIff | src/spicy_regs/cfr_native_audit.py:196-199 | within the bounds the two readings agree if and only if no run of adjacent text items is empty |
| XmlEvents.ReadingsAgree | src/spicy_regs/cfr_native_audit.py:196-199 | in particular they agree for every tree whose text items are all nonempty |
| XmlEvents.EmptyTextDiffers | src/spicy_regs/cfr_native_audit.py:178-182 | a tree with one empty text item, for which the two readings differ |
| XmlEvents.Compare | src/spicy_regs/cfr_native_audit.py:258-268 | the comparison loop reports the differing positions |
| XmlEvents.DifferencesAre | src/spicy_regs/cfr_native_audit.py:263-267 | exactly the positions where the lists differ are reported, with both sides |
| XmlEvents.NoDifferenceIffSameTree | src/spicy_regs/cfr_native_audit.py:257-268 | no difference if and only if the two trees are equal up to how text is cut |
| TableJoins.InnerJoinIsAllPairs | scripts/check_table_joins.py:106-115 | the nested-loop join lists every pair of rows with equal non-null keys, once |
| TableJoins.JoinsListTheRows | scripts/check_table_joins.py:106-115 | inner pairs are the rows with equal cells in every column, none NULL, each once; the left join adds each child row without NULLs that has no such partner, once |
| TableJoins.JoinCounts | scripts/check_table_joins.py:114-127 | inner_join_rows and left_join_nonnull_rows are the row counts of the nested-loop joins |
| TableJoins.UniqueParentNeverAmplifies | scripts/check_table_joins.py:116-126 | with max_parent_multiplicity at most 1, inner rows never exceed child_nonnull_rows, with equality iff missing is 0 |
| TableJoins.NothingMissing | scripts/check_table_joins.py:114-116 | missing is 0 exactly when every non-null child row has a partner |
| TableJoins.MeasuredCounts | scripts/check_table_joins.py:114-127 | input rows, non-null child rows, distinct and duplicate parent keys and both largest multiplicities, counted over the rows themselves |
| TableJoins.StatusMeaning | scripts/check_table_joins.py:141-152 | when each status is reported, over the distinct child keys with and without a parent row, the baseline percentage and the allowance |
| TableJoins.FullyResolvedHolds | scripts/check_table_joins.py:148-149 | a measured join whose child keys all have a parent row is reported OK |
| TableJoins.BaselineHolds | src/spicy_regs/table_joins.py:104-108 | data with just the keys and orphans of the baseline meet the floor |
| TableJoins.FloorNearBaseline | src/spicy_regs/table_joins.py:104-108 | the floor is at most the baseline percentage and less than a ten-thousandth below it |
| TableJoins.AdmittedIsTheMost | src/spicy_regs/table_joins.py:110-113 | admitted_missing is exactly the largest number of orphans that still meets the floor |
| TableJoins.NothingAdmittedUnmeasured | src/spicy_regs/table_joins.py:110-113 | without a baseline there is no floor and nothing is admitted |
| TableJoins.LagIsLeast | src/spicy_regs/table_joins.py:115-126 | lag_allowance is the least whole number of at least LAG_MIN and LAG_SHARE of the keys |
| TableJoins.OneMeansOne | scripts/check_table_joins.py:137-138 | a join declared one is not reported MULTIPLICITY exactly when no two parent rows share a key, and then adds no rows |
| JoinSelection.ReadRegistry | scripts/check_table_joins.py:56-72 | the registry is read by name; the first invalid or repeated entry refuses it |
| JoinSelection.AcceptedIff | scripts/check_table_joins.py:60-72 | a registry is accepted exactly when every entry is a declaration with named columns on both sides and no name is repeated |
| JoinSelection.ChangedJoins | scripts/check_table_joins.py:50-76 | selection in declaration order and the sorted removed names |
| JoinSelection.SelectedAreChanged | scripts/check_table_joins.py:74 | a declaration is selected if and only if the earlier registry does not hold the very same record under its name |
| JoinSelection.NamesCanCollide | scripts/check_table_joins.py:68-71 | a family of pairs of different declarations that spell one name, so their registry is refused |
| JoinSelection.NameDeterminesIdentity | scripts/check_table_joins.py:68-71 | without a dot in table names and without plus or blank in column names, one name means the same tables and columns on both sides |
| JoinSelection.PlainRegistryAcceptedIff | scripts/check_table_joins.py:60-72 | a registry spelled that way is accepted exactly when no two declarations join the same columns of the same tables |
| CommentsHealth.IdentityCheckMeaning | src/spicy_regs/comments_health.py:12-19 | the identity check passes exactly when every row has an ID and an agency and no ID repeats |
| CommentsHealth.CheckCommentsMeaning | src/spicy_regs/comments_health.py:6-43 | no error exactly for clean comments whose every null-aware cohort has the index count; a limit of 0 hides mismatches |
| CommentsHealth.CheckCommentsCounts | src/spicy_regs/comments_health.py:6-43 | no error exactly if the IDs are clean and for every agency, docket and month the comments with these very cells are as many as the index counts for them |
| CommentsHealth.ErrorCounts | src/spicy_regs/comments_health.py:18-54 | the number of errors: one for unclean IDs, one for each cohort whose two counts differ up to the limit, and at most one for lost IDs |
| CommentsHealth.TrimQuotesMeaning | src/spicy_regs/comments_health.py:23 | the trimmed docket is the text without the quotes at its two ends: exactly those, and none left |
| CommentsHealth.CheckRetainedMeaning | src/spicy_regs/comments_health.py:46-54 | no error exactly when every previous ID is still there |
| CommentsHealth.SurfacesAgree | scripts/check_comments_freshness.py:61-74 | the three checks together imply that monolith and partitions hold the same IDs, each once, with equal counts in every cohort |
| CommentsHealth.AgreeingSurfacesPass | scripts/check_comments_freshness.py:61-74 | conversely, clean covered surfaces with the same rows pass all three |
| CommentsHealth.RetainedIffSame | scripts/check_comments_freshness.py:73-74 | given both coverage checks, the retained-ID check passes exactly when the ID sets are equal |
| CommentsHealth.CoveredIffCounted | src/spicy_regs/comments_health.py:33-38 | given coverage, a cohort has rows exactly when some index row counts it with a non-null number |
| CommentsHealth.CoverageIsTwoWayIff | src/spicy_regs/comments_health.py:33-38 | given coverage, every listed cohort has rows if and only if every listed cohort has an index row with a non-null count |
| CommentsHealth.NullCountGoesUnnoticed | src/spicy_regs/comments_health.py:38 | the smallest case in which it fails: one index row with a null count for a cohort without rows is not reported |
| CommentsHealth.CheckSurface | scripts/check_comments_freshness.py:49-74 | one surface's composition of the checks: incomplete inventories, the restriction to one agency, and the agency taken from each partition's path included |
| CommentsHealth.PartitionsKeepAgencies | scripts/check_comments_freshness.py:67-70 | the partitions together hold an agency exactly when its partition is named, present and not empty |
| CommentsHealth.PartitionsAre | scripts/check_comments_freshness.py:64-70 | the partitions are readable exactly when every listed agency has a file, and are then the files' rows end to end, each under its path's agency |
| CommentsHealth.FromPathMeaning | scripts/check_comments_freshness.py:64-68 | a partition row keeps its cells but for the agency, which is its path's |
| CommentsHealth.OfAgencyMeaning | scripts/check_comments_freshness.py:42 | the restriction keeps exactly the rows of the agency asked for, or all |
| CommentsHealth.IndexOfAgencyMeaning | scripts/check_comments_freshness.py:42-44 | and so for the index |
| CommentsHealth.CheckSurfaces | scripts/check_comments_freshness.py:42-86 | the exit status is zero exactly when every selected surface passes against the index, restricted to the agency asked for |
| CommentsHealth.RestrictedCoverage | scripts/check_comments_freshness.py:42-60 | a run restricted to one agency finds the counts covered exactly when every cohort of that agency, in the unrestricted rows and index, has its count |
| PhaseDiagnostics.EveryInterleaving | src/spicy_regs/connection_diagnostics.py:14-49 | over every interleaving of entries and exits by any threads: at most 16 active, untracked frames below tracked ones, active is the top tracked frame, the overflow counter counts open untracked frames, recent is the last 32 completed |
| PhaseDiagnostics.ExitRestores | src/spicy_regs/connection_diagnostics.py:23-49 | an exit restores exactly the record its entry found, whatever happened in between |
| PhaseDiagnostics.EntryRecords | src/spicy_regs/connection_diagnostics.py:14-31 | what an entry records of a tracked thread, a long table name replaced; without room only the counter moves |
| PhaseDiagnostics.ExitRecords | src/spicy_regs/connection_diagnostics.py:38-49 | what an exit appends to recent: its phase and table, a time never below zero and the error, the last 32 kept |
| PhaseDiagnostics.OperationStartIsOutermost | src/spicy_regs/connection_diagnostics.py:27-28 | operation_started is the start of the outermost tracked frame |
| PhaseDiagnostics.Diagnostics.Open | src/spicy_regs/connection_diagnostics.py:14-31 | the entry half of phase updates the globals as one machine step; a long name records nothing |
| PhaseDiagnostics.Diagnostics.Close | src/spicy_regs/connection_diagnostics.py:38-49 | the exit half of phase updates the globals as one machine step |
| RefreshRequest.NoNotificationLost | src/spicy_regs/catalog_refresh_request.py:94-139 | under every interleaving and any deaths: when no request is pending, every notification that took effect was later read and that token acknowledged; a pending request carries the latest publication since the control was last absent |
| RefreshRequest.ControlChangesWhole | src/spicy_regs/catalog_refresh_request.py:94-121 | the control is only ever replaced by one whole new request or removed by an acknowledgement of exactly that request |
| RefreshRequest.RunKeepsInv | src/spicy_regs/catalog_refresh_request.py:35-42 | every step keeps mutual exclusion and the history's agreement with the control |
| RefreshRequest.ControlFile.Notify | src/spicy_regs/catalog_refresh_request.py:75-125 | a notification replaces the request and carries the publication forward, or fails; a failure before the replacement changes nothing and one after it leaves the new request standing |
| RefreshRequest.ControlFile.Pending | src/spicy_regs/catalog_refresh_request.py:66-72 | the pending request with its token, or nothing, or a refusal for another archive |
| RefreshRequest.ControlFile.Acknowledge | src/spicy_regs/catalog_refresh_request.py:128-139 | compare and delete: the request goes only for its own token |
| RefreshRequest.UninterruptedNotify | src/spicy_regs/catalog_refresh_request.py:94-125 | notify without interference is the machine's steps one after another |
| RefreshRequest.UninterruptedPending | src/spicy_regs/catalog_refresh_request.py:66-72 | pending without interference reads the token of the request that is there and changes nothing |
| RefreshRequest.DeathReleases | src/spicy_regs/catalog_refresh_request.py:35-42 | a process that dies holding the lock gives it back and leaves control and history as they were |
| RefreshRequest.UninterruptedAcknowledge | src/spicy_regs/catalog_refresh_request.py:128-139 | acknowledge without interference likewise |
| CitationInstall.AllOrNothing | src/spicy_regs/citation_receipts.py:71-108 | with any number of threads and a failure possible at every step, the committed database is bare or holds the record with row-for-row, in-order copies of every table it names; at most one install commits |
| CitationInstall.FailureRollsBack | src/spicy_regs/citation_receipts.py:102-108 | a failure past the wait leaves what was committed and releases the lock |
| CitationInstall.RetrySucceeds | src/spicy_regs/citation_receipts.py:71-108 | after any history of failures, a request that meets none commits the whole install |
| CitationInstall.LaterRequestReturns | src/spicy_regs/citation_receipts.py:87-89 | a request that finds the inputs installed leaves everything as it was and gives the lock back |
| CitationInstall.RunKeepsInv | src/spicy_regs/citation_receipts.py:24-108 | every step of every thread keeps the invariant, the partly copied tables included |
| CitationInstall.NamesMeaning | src/spicy_regs/citation_receipts.py:46 | every table the record mentions, once |
| CitationInstall.Connection.CopyTable | src/spicy_regs/citation_receipts.py:48-66 | the batch loop copies one table's rows in order |
| CitationInstall.Connection.CopyInputs | src/spicy_regs/citation_receipts.py:44-68 | every named table once, private names only, the record last; done exactly when nothing failed |
| CitationInstall.Connection.EnsureInputs | src/spicy_regs/citation_receipts.py:71-108 | one request, its waits for the lock and its private preparation included: it commits all or nothing, and the lock and transaction are gone either way |
| AcquisitionQueue.LawKeyRoundTrip | src/spicy_regs/acquisition_queue.py:26-30 | a key takes the law route exactly when it spells positive congress and number without leading zeros in at most 4300 digits each, and the arguments spell the key back; longer numbers raise, and every other key is no law |
| AcquisitionQueue.FailsExactly | src/spicy_regs/acquisition_queue.py:26-30 | only a row that names a law with a longer number can raise, and it does exactly when the same row with a readable law key would have joined a group |
| AcquisitionQueue.OrderIndependent | src/spicy_regs/acquisition_queue.py:55-98 | permuting the occurrences changes neither the ranked ids, nor both affected counts, nor any exclusion count |
| AcquisitionQueue.RankingIgnoresOrder | src/spicy_regs/acquisition_queue.py:94-98 | the ranking depends only on which occurrences are present, repeats aside |
| AcquisitionQueue.EveryRowOnce | src/spicy_regs/acquisition_queue.py:55-93 | every occurrence is counted under one exclusion reason, joins one group or makes the build fail |
| AcquisitionQueue.FateMeaning | src/spicy_regs/acquisition_queue.py:56-72 | an exclusion names the first of the four tests, in the source's order, that the row's own fields fail; a row that passes all joins a group unless its law number raises |
| AcquisitionQueue.CountMeaning | src/spicy_regs/acquisition_queue.py:56-71 | each exclusion count is the number of rows whose first failing test is that one |
| AcquisitionQueue.JoiningMeaning | src/spicy_regs/acquisition_queue.py:72-90 | the identity names the row's own target in the provider's spelling, and the request carries the row's own fields and its pin |
| AcquisitionQueue.ItemMeaning | src/spicy_regs/acquisition_queue.py:72-99 | each returned item is about one target: its requests are exactly those of the qualified rows that name it, each once, and its counts are over them |
| AcquisitionQueue.QualifiedRowsAreGrouped | src/spicy_regs/acquisition_queue.py:72-99 | every row that passes the four tests has its target's group, returned unless there are more groups than max_items |
| AcquisitionQueue.GroupIsOneTarget | src/spicy_regs/acquisition_queue.py:72-85 | with a collision-free digest a group is one target identity, and outside GAO products its status and key do not depend on order |
| AcquisitionQueue.StatusIgnoresOrderIff | src/spicy_regs/acquisition_queue.py:75-85 | for any rows, a group has the same status under every permutation if and only if any two of its rows classify alike |
| AcquisitionQueue.StatusIgnoresOrderIffInspectedAlike | src/spicy_regs/acquisition_queue.py:75-85 | with a collision-free digest, that is if and only if the earlier inspections hold the same classification for all spellings of the target present |
| AcquisitionQueue.GaoStatusFollowsTheFirstRow | src/spicy_regs/acquisition_queue.py:75-85 | two spellings of one GAO product for which it fails: the group's status is that of whichever came first |
| AcquisitionQueue.OmissionIsNotAbsence | src/spicy_regs/acquisition_queue.py:76-80 | every returned item carries the head of one of its own rows, and each of the four statuses holds exactly on what the caller recorded: planned only on an absence, retained only with digest and receipt, so an uninspected target is never taken to be absent |
| AcquisitionQueue.HeadMeaning | src/spicy_regs/acquisition_queue.py:25-36 | the provider, its spelling of the identifier and the law arguments that a row's target gets |
| AcquisitionQueue.NothingLeftOutRanksHigher | src/spicy_regs/acquisition_queue.py:98-99 | no group left out by max_items comes before a returned one: by occurrences, then records, then id |
| AcquisitionQueue.ItemsInRankOrder | src/spicy_regs/acquisition_queue.py:98 | returned items come by falling occurrences, then falling records, then ids by code point |
| AcquisitionQueue.BuildQueue | src/spicy_regs/acquisition_queue.py:39-104 | the loops return the top ranked groups with their requests without repeats, the exclusion counts and the partial flag; it fails exactly for max_items outside 1 to 1000 or a row whose law key raises |
| AcquisitionQueue.GroupRows | src/spicy_regs/acquisition_queue.py:55-93 | the grouping loop yields the groups in order of first occurrence and the exclusion tally, or fails exactly when some row does |
| AcquisitionQueue.CountAffected | src/spicy_regs/acquisition_queue.py:94-97 | the affected counts of every group |
| DocumentKeys.ArrayRoundTrip | src/spicy_regs/citation_sources.py:47-52 | json.dumps and json.loads undo each other on every list of strings, quotes, backslashes, control characters and lone surrogates included |
| DocumentKeys.EscapeMeaning | src/spicy_regs/citation_sources.py:47 | which characters json.dumps escapes with ensure_ascii off, and how |
| DocumentKeys.KeyRoundTrip | src/spicy_regs/citation_sources.py:42-57 | key_values(kind, document_key(kind, values)) is values, and document_key accepts exactly the tuples of the declared arity without empty values |
| DocumentKeys.KeysNeverCollide | src/spicy_regs/citation_sources.py:42-47 | no two value tuples of one kind share a key |
| DocumentKeys.AcceptedKeysNameDocuments | src/spicy_regs/citation_sources.py:50-57 | what key_values accepts is a tuple that document_key accepts; single keys are taken literally |
| DocumentKeys.KeyErrorMeaning | src/spicy_regs/citation_sources.py:42-57 | which tuples and keys are refused, and with which error |
| DocumentKeys.EmptyArrayReads | src/spicy_regs/citation_sources.py:52 | nothing but blanks may follow an array |
| DocumentKeys.OneSpellingIff | src/spicy_regs/citation_sources.py:42-57 | an accepted composite key is the key of its own values if and only if it is compact: no blank outside a string, every backslash begins an escape that json.dumps writes, and nothing is escaped that it writes raw |
| DocumentKeys.LeadingBlankNamesTheSameDocument | src/spicy_regs/citation_sources.py:52 | a first family of other spellings: a composite key with a blank in front names the same document though it is a different text |
| DocumentKeys.NeedlessEscapeNamesTheSameDocument | src/spicy_regs/citation_sources.py:52 | a second family: a letter written as an escape names the same document as the letter |
| DocumentKeys.CompositeKeysAreOneLine | src/spicy_regs/citation_sources.py:47 | a composite key holds no raw control character |
| DocumentKeys.ReadStringTakesNoControl | src/spicy_regs/citation_sources.py:52 | the reader accepts no string with a raw control character |
| DocumentKeys.CodeEscapeReads | src/spicy_regs/citation_sources.py:52 | an escape with four hexadecimal digits, in capitals or not, is read as the code point they spell, unless it opens a surrogate pair |
| DocumentKeys.PairReads | src/spicy_regs/citation_sources.py:52 | two escapes that spell a surrogate pair are read as the one character of section 7 of RFC 8259 |
| DocumentKeys.HexTable | src/spicy_regs/citation_sources.py:47-52 | the sixteen hexadecimal digits, small and capital, and what each is worth |
| DocumentKeys.Hex4Meaning | src/spicy_regs/citation_sources.py:47-52 | four digits count by their places |
| CoverageMonitor.BaselineDecaysSlowly | scripts/check_rollup_freshness.py:218-236 | without acceptance no agency ever leaves the baseline and n updates keep at least 0.98^n of its total |
| CoverageMonitor.AlertPersists | scripts/check_rollup_freshness.py:230-236 | from a failing day on, every day without more rows anywhere fails too and the baseline does not move |
| CoverageMonitor.FailureIsMonotone | scripts/check_rollup_freshness.py:220-228 | counts nowhere larger than failing ones fail |
| CoverageMonitor.ReturnedRowsPass | scripts/check_rollup_freshness.py:220-236 | counts that cover the baseline pass and become the new baseline |
| CoverageMonitor.ReportMeaning | scripts/check_rollup_freshness.py:219-228 | the report is empty exactly when no agency vanished or fell too far and the total did not |
| CoverageMonitor.ListedMeaning | scripts/check_rollup_freshness.py:219 | the report's order: falling baseline count, equal counts by code point of the agency, the total last |
| CoverageMonitor.AcceptableMeaning | scripts/check_rollup_freshness.py:218-228 | acceptable counts in the source's own terms: no agency missing, none down by 1000 rows and under half, the total at 98 per cent or more |
| CoverageMonitor.Monitor.FindProblems | scripts/check_rollup_freshness.py:219-228 | the loop lists each lost or fallen agency once, largest first, and the total last |
| CoverageMonitor.Monitor.EvaluateCoverage | scripts/check_rollup_freshness.py:207-238 | the day's report, and the baseline moving only on a clean or accepted day |
| CoverageMonitor.Monitor.ByCount | scripts/check_rollup_freshness.py:220 | the baseline's entries in the order the check takes them |
| CoverageMonitor.Monitor.EvaluateRowChanges | scripts/check_rollup_freshness.py:273-300 | the loop over row counts updates the entries and reports stale tables as the step function says |
| CoverageMonitor.StaleExactlyAfterTheBudget | scripts/check_rollup_freshness.py:283-299 | a table is reported on a day exactly when its count has stood still for more than its budget of days |
| CoverageMonitor.NoDateIsNeverStale | scripts/check_rollup_freshness.py:288-299 | an unchanged count without a readable date counts as changed today and is never reported |
| RangeServer.AcceptsWhatTheStandardWants | scripts/qualify_receipt_index.py:152-170 | for every file and every single range of section 14.1.2 of RFC 9110, its unit in any letter case, the server accepts exactly when the unit is in lower case, each number has at most 4300 digits and some wanted byte exists, and then serves exactly the wanted positions |
| RangeServer.OtherUnitRefused | scripts/qualify_receipt_index.py:156 | the unit in any other letter case, which section 14.1 of RFC 9110 allows, is refused |
| RangeServer.LowerCaseMeaning | scripts/qualify_receipt_index.py:156 | the letter cases meant here, letter by letter |
| RangeServer.LongHeaderRefused | scripts/qualify_receipt_index.py:157-175 | the range from 0 to more than 4300 nines wants every byte of the file, and is refused |
| RangeServer.AcceptedMeansAStandardRange | scripts/qualify_receipt_index.py:156-169 | whatever looser text int() lets through, the choice is one that a standard request makes, with a first position when the file size has at most 4300 digits |
| RangeServer.ChosenIsInside | scripts/qualify_receipt_index.py:167-168 | an accepted range lies inside the file |
| RangeServer.ParsePlainDigits | scripts/qualify_receipt_index.py:160-163 | int() reads a digit string of at most 4300 digits as its decimal value, and refuses the empty one and every longer one |
| RangeServer.ReadsIntText | scripts/qualify_receipt_index.py:160-163 | int() reads blanks, a sign, digit groups joined by single underscores and blanks as the number spelled, up to 4300 digits |
| RangeServer.ReadsOnlyIntText | scripts/qualify_receipt_index.py:160-163 | and it reads no other text |
| RangeServer.SpaceTable | scripts/qualify_receipt_index.py:160-163 | the white space int() ignores, character by character, below U+0100 |
| RangeServer.SpellingDoesNotMatter | scripts/qualify_receipt_index.py:156-169 | a header is answered as the plain digits of its two numbers would be; unread or negative ones are refused |
| RangeServer.AcceptedIsAHeader | scripts/qualify_receipt_index.py:156-169 | only headers of that form are accepted |
| RangeServer.Send | scripts/qualify_receipt_index.py:186-194 | under any sequence of nonempty short reads the loop sends exactly the slice, or fails when the file ends early |
| RangeServer.Server.Transfer | scripts/qualify_receipt_index.py:144-203 | status, Content-Length, Content-Range, body and log entry of one request, a file cut short included |
| RangeServer.TilingReassembles | scripts/qualify_receipt_index.py:156-194 | bodies of accepted ranges that tile a file, put end to end, are the file |
| RangeServer.ReadingInPieces | scripts/qualify_receipt_index.py:156-194 | reading any file in pieces of any size, every request is accepted if and only if the last position named has at most 4300 digits, and then the pieces are the file |

## Left out

- CaptureProtocol.RunKeepsInv: one process owns an output directory at a time, as the source requires; two runs at once are not modelled, nor is outside damage to receipts, checkpoint or published files.
- CaptureAttempt.OutputDirectory.Capture: what the checks of runtime, snapshot, read semantics and metadata compare is outside; whether they pass at the start and at the end, and on which tasks the reader fails, are inputs. Symbolic links, file modes, byte sizes, fsync, progress files and report timings are not modelled.
- CaptureAttempt.OutputDirectory.ReadNewTask: the Parquet writer is a function from rows to stored rows, a file is its rows, so that a part rewritten in other bytes with the same rows is not told apart (the source's byte digest refuses it too), and rows of one task are read as a whole; batch boundaries are covered by the digest lemmas.
- ObjectStore.DiskStore.GetObject: the returned body is the bytes the file had when opened, not an open file; reading and closing it are outside.
- StoreInterleavings.CompletionsPublishOwnParts: upload_part and abort_multipart_upload take no lock in the source and are single steps here, in TagFitsIff and QuietTags too. Two parts of one number that both pass the order check before either is recorded, which then share one file, are not modelled; nor is an abort between the replacement and the drop of an upload, after which the object is published and the caller gets a KeyError.
- ObjectStore.DiskStore.PutObject: temporary files on disk are not modelled; tags are a datatype of the digest bytes rather than quoted hexadecimal text.
- CitationLookup.Lookup: casts to VARCHAR, collation beyond code-point order and DuckDB's execution are outside; the key, range and predicate expressions of a route are function parameters.
- CitationResolution.Resolve: copied input fields, the fields a row copies from its route and pin (table, grain, cardinality, snapshot), the rule version, the bounds echoed in the coverage and occurrence-key hashing are not carried; str() and lower() of raw fields are applied before the model.
- XmlEvents.IndependentEvents: DTD refusals and expat itself are outside; the input is the size of the body and the callback stream expat makes. Custody checks, gzip and pins of the audit are not modelled.
- TableJoins.JoinCounts: SQL values are compared as text; example lists, the rounded percentage and rendered SQL are left out, and percentages are exact fractions rather than floating-point numbers.
- JoinSelection.ChangedJoins: reading the earlier registry from Git, and Join.name and the record of a join, are inputs.
- CommentsHealth.CheckSurface: connections, URLs and HTTP retries are outside; year and month extraction is part of the input row.
- CoverageMonitor.Monitor.EvaluateCoverage: 0.5 and 0.02 are exact fractions; floating-point rounding, printed text and the date-backed checks (evaluate_date_rows) are left out.
- PhaseDiagnostics.Diagnostics.Close: snapshot() only copies the globals and is left out; phases of one thread are properly nested, as a context manager makes them.
- RefreshRequest.ControlFile.Notify: the 64 KiB bound, symbolic links, malformed control files and configuration errors are one failure before the replacement and are not told apart; fsync is not modelled.
- CitationInstall.Connection.EnsureInputs: what the private database prepares is an input; the method polls a given number of times before it gets the lock, and the state machine says who holds it meanwhile. Batches are full except the last.
- AcquisitionQueue.BuildQueue: fields that a request carries unread are one text, and the resolution coverage is passed on as its partial flag.
- DocumentKeys.ArrayRoundTrip: JSON that is not an array of strings is one error, as key_values refuses it either way; recursion depth of the JSON library is not modelled.
- RangeServer.Server.Transfer: a header holds characters below U+0100, where int() knows only ASCII digits; list syntax around a single range (empty list members and blanks beside the comma) is outside the standard requests stated here; sockets, write errors of a client that leaves, timings and the probe marker are left out. The server answers every range of an empty file with 416, a suffix range included, which section 14.1.2 of RFC 9110 calls satisfiable.
- Report generation, catalogue publication and promotion scripts, HTTP transport, configuration and command lines: only easy members would follow.
