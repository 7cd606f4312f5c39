# Verified model of the app builder's state machines and codecs

This project models the parts of the repository that keep state over time or carry a guarantee
over arbitrary input, and proves those guarantees. Each module follows one source file: the
operations are methods (or functions, where the source is pure) proved against small
specification functions, and the lemmas are about those functions, over every input, every run
and every place where a step may fail. For each operation some lemmas say what it keeps over whole
runs, and others fix its answer: when it succeeds, and the exact cause of each refusal.

| area | files |
|---|---|
| debounced write buffer | `PersistenceStore.dfy`, `PersistenceRefinement.dfy`, `PersistenceDisk.dfy` |
| incremental lock-in audit | `LockinAudit.dfy`, `LockinEquivalence.dfy`, `LockinAnswers.dfy` |
| secret redaction | `Redaction.dfy` |
| bounded memory with summaries | `MemoryStore.dfy`, `MemoryProofs.dfy`, `MemoryAnswers.dfy` |
| preview ports and phases | `DevServer.dfy`, `DevServerProofs.dfy`, `DevServerOutcomes.dfy` |
| project registry: lock, owner files, index | `RegistryLock.dfy`, `ProjectRegistry.dfy` |
| snapshots in Git | `SnapshotStore.dfy` |
| sessions, logins, signing keys, rate limits | `Session.dfy`, `LoginFlow.dfy`, `JwksKeyStore.dfy`, `RateLimiter.dfy` |
| contents, bundles, published sites | `TreeCodec.dfy`, `ArtifactBundle.dfy`, `SelfHostedDeploy.dfy`, `PublishProofs.dfy` |
| options and substrings | `Strings.dfy` |

How outside effects appear: a file system, Git, a container runtime, an issuer and a clock are
inputs of the step that meets them. A step says whether each of its outside calls succeeds and
what a failed one leaves behind, and runs are arbitrary sequences of such steps. An `await` is a
step boundary. Times are integers that do not decrease. Signatures and hashes are values that
cannot be forged.

## Where the code does less than its documentation says

Each of these is a lemma, and each is paired with the exact condition under which the promise holds.

- Redaction: a secret that agrees with the placeholder where the two overlap can be completed by
  another replacement (`OverlappingSecretLeaks`); without such an overlap it never survives (`SafeIffNoOverlap`).
- Persistence: when a partial write meets a queued full write and both flushes it forces fail,
  the prune flag is lost and dropped files come back (`PruneIsLost`; condition in `PartialOverlaysIff`).
  A write that throws leaves its temporary copy in the tree, and after a failed partial write readers
  are served that copy until the next full write (`TempIsServed`, `FullWriteRestores`; condition in `WriteKeepsViewIff`).
- Memory: a file that cannot be read counts as no file, so an add or mode change after a failed read
  replaces all history and the mode (`FailedReadForgets`; condition in `StepLosesNothingIff`).
- Audit: a platform-generated mark in the prior result is carried into a re-audit without the mark
  (`FindingsAgreeIff`), and a declared variable of one or two characters is always reported unused
  (`ShortNameIsAlwaysReported`).
- Dev server: the failure path frees the port before the container is gone (`FailurePathReusesEarly`), and
  a stop frees it even when its removal failed (`StopReusesWhileUpIff`); nothing else leaves a container up on a reused port (`ReusedPortIsSafe`).
- Registry: an unreadable index, or an entry that is no admissible owner id, makes lookups throw
  (`BlankOwnerThrows`; condition in `LookupThrowsIff`), an owner id ending in `.lock` is skipped by the scan (`LockNamedOwnerIsHidden`), and two
  processes can both steal a stale lock (`StaleLockAdmitsTwo`).
- Snapshots: five kinds of failure leave Git and the registry apart, a commit that lands and is reported
  as failed among them; `StepAgreesIff` is exact over the faults modelled.
- Login: a state consumed at the instant of its issue can be replayed at its last instant
  (`ReplayOnlyAtTheBoundary`; general condition in `SecondExchangeIff`).
- Rate limits: operations whose names contain a colon can share a counter (`KeysAreSeparateIff`).
- Publishing: a bundle path that starts with two dots, such as `..well-known/a`, is a safe path to the
  decoder, yet the containment check of the deploy refuses it (`ContainedIff`, `PublishableIff`). A flip that
  takes effect and still reports a failure is cleaned up as if it had not (`LostFlipServesNothing`).

## Model

| member | source | states |
|---|---|---|
| Redaction.Selected | src/ops/redaction.js:62-68 | the values kept are exactly the candidates of at least the minimal length, each once |
| Redaction.LongestFirst | src/ops/redaction.js:69-70 | the order tried is a permutation of the values, longest first |
| Redaction.CreateRedactor | src/ops/redaction.js:54-80 | the selection loop and the sort build the redactor of the specification, with non-empty secret names only |
| Redaction.RedactString | src/ops/redaction.js:82-96 | the loop of replacements and the whole-string predicate compute the specified text |
| Redaction.OccurrenceIsOriginal | src/ops/redaction.js:84-88 | replacing every w creates no occurrence of v and leaves none of w, unless v overlaps the placeholder |
| Redaction.StaysAbsent | src/ops/redaction.js:84-88 | a removed value never comes back through later replacements |
| Redaction.KnownSecretIsRemoved | src/ops/redaction.js:84-88 | after all replacements no known, non-overlapping value occurs, whatever other values are known |
| Redaction.NoKnownSecretSurvives | src/ops/redaction.js:54-122 | no string anywhere in a redacted nested value contains a known secret of minimal length that does not overlap the placeholder |
| Redaction.BracketFreeIsSafe | src/ops/redaction.js:28-35 | a bracket-free secret that is no substring of the placeholder's word never overlaps it |
| Redaction.SafeIffNoOverlap | src/ops/redaction.js:82-96 | a secret is removed by every redactor that knows it from every string if and only if it does not overlap the placeholder |
| Redaction.OverlappingSecretLeaks | src/ops/redaction.js:84-88 | for each overlapping secret there is a second secret and a text whose redaction contains the first |
| Redaction.CleanValueIsUnchanged | src/ops/redaction.js:98-122 | without a predicate, a value holding no secret and no secret key comes back identical |
| Redaction.SecondPassIff | src/ops/redaction.js:89-94 | redacting a text again changes it exactly when the predicate fires on the first result |
| Redaction.RedactValueIdempotent | src/ops/redaction.js:98-122 | without a predicate redaction of nested values is idempotent |
| Redaction.WholeSecretBecomesPlaceholder | src/ops/redaction.js:69-70 | because longer values go first, a text that is a secret becomes exactly one placeholder even if it contains another secret |
| Redaction.SecretFieldsAreMasked | src/ops/redaction.js:103-122 | for every redactor and nested input a string under a secret name comes out as the placeholder or empty, and keys, lengths, scalars and empty strings stay |
| Redaction.RedactAllEmptyIff | src/ops/redaction.js:82-88 | a text comes out empty if and only if it was |
| Redaction.FirstOccurrenceIsReplaced | src/ops/redaction.js:84-88 | the first occurrence of a value becomes the placeholder and the search goes on behind it |
| Redaction.PredicateDecides | src/ops/redaction.js:89-96 | a text without a known value of four characters is replaced as a whole if and only if it has four itself and the predicate fires |
| Redaction.PredicateIsNotAsked | src/ops/redaction.js:89-96 | once a known value was replaced the predicate has no say |
| Redaction.LongestFirstIsStable | src/ops/redaction.js:69-70 | values of the same length are tried in their given order |
| Redaction.SelectedGrows | src/ops/redaction.js:62-68 | a further candidate is kept, behind the others, if and only if it has four characters and is new |
| TreeCodec.TextIffWellFormed | src/persistence/tree-codec.js:66-76 | bytes are read back as a string exactly when they are well-formed by the grammar in section 4 of RFC 3629 |
| TreeCodec.ReadIsByteExact | src/persistence/tree-codec.js:66-76 | writing what was read gives the same bytes, for every byte sequence |
| TreeCodec.WellFormedRoundTrip | src/persistence/tree-codec.js:66-76 | decoding well-formed bytes and encoding the text restores them |
| TreeCodec.EncodeIsWellFormed | src/persistence/persistence-store.js:101-130 | whatever string is written, surrogates included, the bytes on disk are well-formed |
| TreeCodec.DecodeEncode | src/persistence/tree-codec.js:66-76 | a written string decodes to itself with lone surrogates replaced |
| TreeCodec.StringRoundTrip | src/persistence/tree-codec.js:38-76 | a written string reads back as a string, and as the same one exactly when it has no lone surrogate |
| TreeCodec.ContentsRoundTripIff | src/persistence/tree-codec.js:38-76 | contents are accepted unless they are neither string nor bytes, and come back as handed over if and only if they are a string without lone surrogates or a buffer that is no well-formed text |
| PersistenceStore.Store.WriteTree | src/persistence/persistence-store.js:101-130 | on disk is what the write loop wrote, pruned if it finished and may prune; no other project changes |
| PersistenceStore.WriteFiles | src/persistence/persistence-store.js:101-119 | writes all entries in order, or a prefix of them and perhaps the temporary copy of the next |
| PersistenceStore.PruneStale | src/persistence/persistence-store.js:133-160 | keeps exactly the files written, Git's own and those that could not be removed |
| PersistenceStore.Store.PersistNow | src/persistence/persistence-store.js:229-259 | a finished write empties the queue; a failed one keeps it without a timer and leaves on disk its prefix and its temporary copy; no other project changes |
| PersistenceStore.Store.ForceOtherKind | src/persistence/persistence-store.js:285-313 | a queued write of the other kind is flushed first, and no other project changes |
| PersistenceStore.Store.Schedule | src/persistence/persistence-store.js:302-359 | flushes a queued write of the other kind first, then queues or coalesces and arms a timer or writes at once |
| PersistenceStore.Store.Enqueue | src/persistence/persistence-store.js:329-352 | replaces the queued write and its timer, keeping armed timers and queued writes in one-to-one agreement |
| PersistenceStore.MergeEntries | src/persistence/persistence-store.js:320-328 | the map built from both entry lists is the first with the second put over it |
| PersistenceStore.Store.Persist | src/persistence/persistence-store.js:267-269 | a full write is scheduled with pruning |
| PersistenceStore.Store.PersistPartial | src/persistence/persistence-store.js:285-294 | a partial write first forces a queued full write out, then is scheduled without pruning |
| PersistenceStore.Store.Fire | src/persistence/persistence-store.js:335-351 | an armed timer writes what its own project has queued and is gone |
| PersistenceStore.Store.FlushAll | src/persistence/persistence-store.js:366-375 | every queued project gets one forced write, each with its own outcome |
| PersistenceStore.Store.DeleteProjectTree | src/persistence/persistence-store.js:429-441 | a deletion drops the queued write and its timer, so no later timer revives the project |
| PersistenceStore.Store.ReadPersistedTree | src/persistence/persistence-store.js:390-418 | reads every visible file of the project through the content codec |
| PersistenceRefinement.WriteKeepsViewIff | src/persistence/persistence-store.js:101-160 | a write that stops after any prefix, or finishes, leaves the abstract tree alone if and only if no stale visible file refused to go and no temporary copy shows |
| PersistenceRefinement.FailedOverlayView | src/persistence/persistence-store.js:101-119 | a failed overlay adds to the abstract tree exactly its temporary copy, unless that is hidden, queued or there already |
| PersistenceRefinement.TempIsServed | src/persistence/persistence-store.js:105-119 | such a copy is still served after the next write succeeds, a file that no caller wrote |
| PersistenceRefinement.FullWriteRestores | src/persistence/persistence-store.js:101-160 | after any run at all, a full write that gets through with every removal shows exactly its own tree |
| PersistenceRefinement.CoalescedOverlays | src/persistence/persistence-store.js:320-328 | coalesced partial writes stand for one overlaid by the other |
| PersistenceRefinement.PartialOverlaysIff | src/persistence/persistence-store.js:285-329 | a partial write overlays the abstract tree if and only if both forced flushes leave no file behind that was to be removed, temporary copies included, and its own write shows none |
| PersistenceRefinement.StepRefinesIff | src/persistence/persistence-store.js:229-359 | each step does to the abstract tree what immediate application does, if and only if its faults are clean: stale files, lost prunes and temporary copies are counted |
| PersistenceRefinement.BenignIsClean | src/persistence/persistence-store.js:309-329 | the plain condition, removals that work, a forced flush that gets through and overlays that fail without a temporary copy, implies the exact one |
| PersistenceRefinement.RunRefines | src/persistence/persistence-store.js:229-359 | over every clean run the buffered store refines the store that applies each call at once |
| PersistenceRefinement.FlushLands | src/persistence/persistence-store.js:229-259 | a write that finishes empties the queue and puts the abstract tree on disk |
| PersistenceRefinement.FlushedRunIsExact | src/persistence/persistence-store.js:366-418 | after any clean run one successful flush makes a reader see exactly the immediate store's tree |
| PersistenceRefinement.PruneIsLost | src/persistence/persistence-store.js:309-329 | when both forced flushes fail, a file dropped by the queued full write is on disk again after the next write |
| PersistenceDisk.GitFilesStay | src/persistence/persistence-store.js:101-160 | no write, whatever its outcome, touches a file below a .git directory, at the root or deeper, that no entry or temporary copy names |
| PersistenceDisk.StaleIsGone | src/persistence/persistence-store.js:133-160 | after a finished full write every other file that is not below a .git directory is gone, unless its removal failed |
| PersistenceDisk.GitSurvivesEveryRun | src/persistence/persistence-store.js:101-359 | over every run without a deletion, whatever fails, Git's own files keep their bytes |
| PersistenceDisk.FinishedWriteIsOnDisk | src/persistence/persistence-store.js:101-130 | a finished write puts each file on disk with the bytes of its last entry, and an overlay leaves all other files alone |
| PersistenceDisk.FailedWriteLeavesPrefix | src/persistence/persistence-store.js:101-130 | a failed write has written the entries before the failure and perhaps left a .tmp- copy beside the next file, and removes nothing |
| PersistenceDisk.ReaderSees | src/persistence/persistence-store.js:390-418 | a reader sees exactly the files with no component .git, each through the codec |
| PersistenceDisk.ImmediateCallLands | src/persistence/persistence-store.js:302-359 | with no window a call that gets through is on disk when it returns and leaves nothing queued |
| PersistenceDisk.ScheduledCallQueues | src/persistence/persistence-store.js:302-359 | with a window a call writes nothing of its own: it is kept, replaces or overlays the queued write of its kind, and one of the other kind is written first |
| PersistenceDisk.QueueOutlivesFailure | src/persistence/persistence-store.js:229-259 | the queue is empty after a write if and only if it finished; a failed one keeps the entries, the kind and the deadline |
| LockinAudit.Auditor.Partition | src/portability/lockin-audit.js:501-543 | the loop splits a tree into in-scope texts and unverifiable surfaces |
| LockinAudit.Auditor.BuildEnvReadIndex | src/portability/lockin-audit.js:453-464 | the index is the set of all names of three or more characters read outside templates |
| LockinAudit.Auditor.ScanUnusedEnv | src/portability/lockin-audit.js:478-498 | reports each declared, unread variable once per declaring line |
| LockinAudit.Auditor.Detect | src/portability/lockin-audit.js:545-563 | per-file findings in order, then unused variables against the whole tree |
| LockinAudit.Auditor.Audit | src/portability/lockin-audit.js:586-738 | the full and the incremental branch, the file limit and the time budget |
| LockinEquivalence.ScanCount | src/portability/lockin-audit.js:545-563 | a finding is reported as often as scanning the one file it names reports it |
| LockinEquivalence.RawCount | src/portability/lockin-audit.js:645-695 | carry-forward, rescan and whole-tree recompute add up to a full scan, finding by finding |
| LockinEquivalence.FindingsAgreeIff | src/portability/lockin-audit.js:645-701 | a re-audit reports the same multiset as a full audit if and only if no mark of the prior result is carried into an unmarked re-audit |
| LockinEquivalence.SurfacesAgree | src/portability/lockin-audit.js:662-690 | a re-audit reports the same unverified surfaces as a full audit |
| LockinEquivalence.ChainEqualsFullAudit | src/portability/lockin-audit.js:645-738 | any chain of covered re-audits ends with the report of one full audit of the final tree |
| LockinEquivalence.NamesIff | src/portability/lockin-audit.js:453-464 | the names read in a text are exactly those that stand in it behind no other name under way and before no name character |
| LockinEquivalence.DeclaredIsUnusedIff | src/portability/lockin-audit.js:453-498 | a declared variable of three or more characters is reported unused if and only if no in-scope, non-template text mentions it |
| LockinEquivalence.ReadVariableIsNotReported | src/portability/lockin-audit.js:453-498 | a variable that any in-scope file mentions as a word of its own is never reported unused |
| LockinEquivalence.ShortNameIsAlwaysReported | src/portability/lockin-audit.js:453-498 | a declared name of one or two characters is reported however often it is read |
| LockinAnswers.AnswerIff | src/portability/lockin-audit.js:586-738 | exactly when the operation answers with a report, the file limit, a timeout or a rejection, in terms of its arguments |
| LockinAnswers.HalfARequestIsFull | src/portability/lockin-audit.js:645-655 | a prior result without changes, or changes without a prior result, asks for a full audit |
| LockinAnswers.ReauditAnswersLikeFull | src/portability/lockin-audit.js:586-738 | the operation on a covered edit answers with the report of a full audit of the same tree, if and only if no mark of a carried finding is dropped |
| LockinAnswers.ChainAnswersIff | src/portability/lockin-audit.js:586-738 | a chain of calls, each given the answer before, ends with a report if and only if every call is within the limit and the budget |
| LockinAnswers.ChainAnswersLikeFull | src/portability/lockin-audit.js:586-738 | that report is the one of a single full audit of the final tree |
| LockinAnswers.ExcludedIff | src/portability/lockin-audit.js:89-222 | a path is out of scope if and only if it goes through one of seven named directories, ends in .lock or names one of seven lock files |
| LockinAnswers.DeclaredIff | src/portability/lockin-audit.js:478-498 | a line declares a name if and only if it starts with an upper-case letter, name characters and an equals sign |
| LockinAnswers.AnswerOnFile | src/portability/lockin-audit.js:501-738 | the answer reports a finding about a file as often as its scan does, an unread declared name once per line, all with the mark asked for, and a surface exactly if a file in scope has no text |
| LockinAnswers.AnswerIsAboutTheTree | src/portability/lockin-audit.js:501-738 | the answer names no file that is not in the tree |
| MemoryStore.ResolveCaps | src/memory/store.js:150-172 | for all overrides and environment values the byte cap is positive and keepRecent stays below the entry cap |
| MemoryProofs.OnlyBytesAreUnsatisfiable | src/memory/store.js:150-468 | with resolved caps the entry cap never blocks a summary, so eviction gives up on the caps only when every tail is too large in bytes |
| MemoryStore.Handle.SummarizeAndEvict | src/memory/store.js:393-468 | the loop over shrinking tails computes the specified eviction |
| MemoryStore.Handle.AddAuto | src/memory/store.js:515-617 | stores the specified document, built on what the read returned, or on any refusal or failed write leaves the file as it was |
| MemoryStore.Handle.AddUser | src/memory/store.js:625-650 | appends the user's entry to what the read returned, or leaves the file as it was |
| MemoryStore.Handle.SetMode | src/memory/store.js:494-508 | stores the new mode with the entries the read returned |
| MemoryStore.Handle.ReadDocument | src/memory/store.js:284-298 | any read that fails yields an empty document in automatic mode |
| MemoryProofs.OldestFirstKeeps | src/memory/store.js:375-385 | sorting permutes the entries and keeps the document's size |
| MemoryProofs.OldestFirstSorts | src/memory/store.js:375-385 | the result is in time order |
| MemoryProofs.EvictMeaning | src/memory/store.js:393-468 | the loop stops at the first tail that fits or has no gist, every longer one having been tried |
| MemoryProofs.EvictionShape | src/memory/store.js:393-468 | a successful eviction is within both caps: one summary of exactly the oldest entries, then the newest verbatim |
| MemoryProofs.EvictionKeepsMost | src/memory/store.js:393-468 | no longer tail, up to keepRecent, would have fitted |
| MemoryProofs.RefusalIsJustified | src/memory/store.js:393-468 | eviction gives up only when no tail up to keepRecent fits |
| MemoryProofs.AutoAddStaysWithinCaps | src/memory/store.js:356-617 | a stored automatic entry never leaves the document over a cap |
| MemoryProofs.SummaryHoldsText | src/memory/store.js:128-143 | the default summary contains every trimmed, non-blank text it summarizes |
| MemoryProofs.TrimKeeps | src/memory/store.js:393-468 | trimming the gist cuts into no trimmed text |
| MemoryProofs.StepLosesNothing | src/memory/store.js:494-650 | one add or mode change that read the file it replaces loses no text stored before |
| MemoryProofs.StepLosesNothingIff | src/memory/store.js:284-650 | a step loses text if and only if it replaces a file it could not read and some text stored before is not in the text it brings |
| MemoryProofs.FailedReadForgets | src/memory/store.js:284-298 | after a failed read all that is left is the operation's own entry, and an off or manual mode is automatic again |
| MemoryProofs.RunLosesNothing | src/memory/store.js:494-650 | over every run with the default summarizer in which each replacement had read the file, each text ever stored is still a substring of some entry |
| MemoryAnswers.OldestFirstIsStable | src/memory/store.js:375-385 | entries of the same time keep their stored order |
| MemoryAnswers.AutoAddStoredIff | src/memory/store.js:515-617 | an automatic add is stored if and only if memory is not off, its kind is valid, and it is within the caps or, in automatic mode, fits alone and some tail works |
| MemoryAnswers.AutoAddStores | src/memory/store.js:515-617 | what is stored: the entry behind the others, or one summary and a tail that fits |
| MemoryAnswers.AutoAddRefusedIff | src/memory/store.js:515-617 | the exact cause of each of the six refusals, each of which leaves the document alone |
| MemoryAnswers.EvictionIff | src/memory/store.js:393-468 | eviction succeeds, lacks a digest or gives up exactly by what the tails up to keepRecent do |
| MemoryAnswers.OffStepIsFrozen | src/memory/store.js:515-525 | an automatic add that reads the mode as off changes nothing |
| MemoryAnswers.OffIsFrozen | src/memory/store.js:515-525 | no run of automatic adds changes the file while memory is off |
| MemoryAnswers.UserAddStoredIff | src/memory/store.js:625-650 | a user's add is appended unless its kind is invalid, whatever the mode and the caps |
| MemoryAnswers.FailedWriteKeeps | src/memory/store.js:494-650 | an operation whose write fails leaves the file as it was |
| MemoryAnswers.CapsResolved | src/memory/store.js:150-172 | a positive override wins, then the environment, then the default, and keepRecent is cut below the entry cap |
| MemoryAnswers.BytesGrow | src/memory/store.js:356-361 | the size of a document is its frame and brackets and, per entry, its bytes and separators |
| DevServer.Manager.ClaimPort | src/project/container-dev-server.js:388-396 | claims the least free port, or none when the range is full |
| DevServer.Manager.ReleasePort | src/project/container-dev-server.js:407-412 | gives the port back once and only if the record holds it |
| DevServer.Manager.StartProject | src/project/container-dev-server.js:432-531 | a live preview is kept, else a port is claimed and a launch begins |
| DevServer.Manager.StopProject | src/project/container-dev-server.js:681-714 | stops the record and begins its teardown, once |
| DevServer.Manager.MarkFailed | src/project/container-dev-server.js:648-656 | fails a record that is not stopped and goes on only then |
| DevServer.Manager.ResumeLaunch | src/project/container-dev-server.js:538-672 | each segment of a launch between two awaits |
| DevServer.Manager.ResumeCheck | src/project/container-dev-server.js:781-797 | each segment of a liveness check between two awaits |
| DevServer.Manager.ResumeTeardown | src/project/container-dev-server.js:703-710 | a stop frees the port only after launch and removal have settled, whether the container is gone or not |
| DevServerProofs.StepKeeps | src/project/container-dev-server.js:388-797 | every step of any project keeps the invariant over pool, records, checks and leaks |
| DevServerProofs.RunKeeps | src/project/container-dev-server.js:388-797 | the invariant holds after every run |
| DevServerProofs.LivePreviewOwnsItsPort | src/project/container-dev-server.js:388-412 | over every interleaving a live preview holds a pool port that no other record holds |
| DevServerProofs.PortsAreConserved | src/project/container-dev-server.js:388-412 | over every interleaving each claim is given back at most once, exactly once if no longer held, and claims minus releases are the ports in the pool |
| DevServerProofs.RunMovesForward | src/project/container-dev-server.js:538-714 | phases only move forward and a freed port is never taken back by the same record |
| DevServerProofs.ReusedPortIsSafe | src/project/container-dev-server.js:658-710 | when a second record has the port, no container of the first can still come up, and one still up was freed on the failure path or survived the removal its stop waited for |
| DevServerProofs.StopReusesWhileUpIff | src/project/container-dev-server.js:703-710 | a stop hands the port on whatever its removal answered, and the old container is then still up if and only if it was up and survived |
| DevServerProofs.NoPortLeaks | src/project/container-dev-server.js:648-714 | a record that is over with nothing left to run has given its port back |
| DevServerProofs.StartTakesLeastFreePort | src/project/container-dev-server.js:388-531 | in any reachable state a start is refused only when the range is full, and otherwise gets the least free port |
| DevServerProofs.FailurePathReusesEarly | src/project/container-dev-server.js:658-672 | on the failure path a port can be handed on while the failed container, unchanged, still waits for removal |
| DevServerOutcomes.LaunchOutcome | src/project/container-dev-server.js:538-620 | a launch makes its preview run if and only if the awaited probe answers, fails it if and only if an answer is fatal or the start did not succeed, and else goes to its next wait, with the port held throughout |
| DevServerOutcomes.StoppedLaunchSettles | src/project/container-dev-server.js:538-620 | a stopped preview stays stopped and its launch settles in two steps at most |
| DevServerOutcomes.FailedLaunchFrees | src/project/container-dev-server.js:648-672 | a failed launch gives its port back when it has its logs and ends when the removal settles |
| DevServerOutcomes.CheckBegins | src/project/container-dev-server.js:781-787 | a check begins if and only if the project's preview runs |
| DevServerOutcomes.CheckOutcome | src/project/container-dev-server.js:781-797 | a running preview fails if and only if its status is fatal |
| DevServerOutcomes.FailedCheckFrees | src/project/container-dev-server.js:648-672 | a check that found its preview dead gives the port back when it has the logs and ends after the removal |
| DevServerOutcomes.StartOutcome | src/project/container-dev-server.js:432-531 | a start begins a new preview if and only if none lives, it can be prepared and a port is free |
| DevServerOutcomes.StopOutcome | src/project/container-dev-server.js:681-714 | a stop ends the project's preview in any phase and keeps the port for the teardown |
| DevServerOutcomes.TeardownOutcome | src/project/container-dev-server.js:681-714 | the teardown awaits the launch, then the removal, and then the port is free |
| DevServerOutcomes.RunningWasProbed | src/project/container-dev-server.js:538-620 | over every run a preview runs only if the run holds an answer of the probe that it was awaiting |
| DevServerOutcomes.FailedHadCause | src/project/container-dev-server.js:538-797 | over every run a preview has failed only if the run holds a fatal answer it got while it lived |
| ProjectRegistry.Registry.IndexPut | src/project/project-registry.js:254-263 | maps the id to the owner and nothing else, or throws on an index that cannot be read |
| ProjectRegistry.Registry.Upserted | src/project/project-registry.js:291-304 | the first record with the id is replaced, or the record appended |
| ProjectRegistry.Registry.Register | src/project/project-registry.js:291-304 | refuses an owner it cannot load; else upserts into the owner file first, then the index, which a crash or an unreadable index leaves old |
| ProjectRegistry.Registry.Unregister | src/project/project-registry.js:316-333 | removes from the hinted or indexed owner's file and then from the index, throwing before or after the removal where the source does |
| ProjectRegistry.Registry.Get | src/project/project-registry.js:342-351 | the index is tried first, then a scan that repairs it; unreadable index, inadmissible entry and unloadable owner throw |
| ProjectRegistry.Registry.ScanAndIndex | src/project/project-registry.js:359-374 | the first owner in directory order that holds the id, written to the index, unless an owner that cannot be loaded comes first |
| ProjectRegistry.IndexIsIrrelevantIff | src/project/project-registry.js:342-374 | for all index contents a lookup throws on the entry or answers as without an index, if and only if all holders of the id agree with a scan |
| ProjectRegistry.LookupThrowsIff | src/project/project-registry.js:342-374 | a lookup throws if and only if the id is blank, the index unreadable, its entry truthy but no loadable owner, or a scan is needed and meets an unloadable owner first |
| ProjectRegistry.LookupAnswersIff | src/project/project-registry.js:222-243 | when every owner directory can be loaded, a lookup answers if and only if the index parses and its entry is absent, falsy or a loadable owner |
| ProjectRegistry.BlankOwnerThrows | src/project/project-registry.js:342-351 | a blank owner in the index, or an unreadable index, makes the lookup throw although an owner file holds the project |
| ProjectRegistry.RepairIsInvisible | src/project/project-registry.js:359-374 | repairing the index changes no later answer about any id |
| ProjectRegistry.LookupIsExact | src/project/project-registry.js:254-374 | after any run with crashes and any index, a lookup that does not throw finds exactly the record last registered and not removed |
| ProjectRegistry.UnregisterRemovesIff | src/project/project-registry.js:316-333 | a record is removed if and only if the hint, or without one the index, names its owner and that owner can be loaded |
| ProjectRegistry.LockNamedOwnerIsHidden | src/project/project-registry.js:404-420 | an owner id ending in .lock is found through the index alone |
| ProjectRegistry.RegisteredIsIndexed | src/project/project-registry.js:254-304 | a record just registered is found through the index alone |
| ProjectRegistry.RepairedIsIndexed | src/project/project-registry.js:342-375 | a lookup whose repair was written leaves an index that gives the same answer alone |
| ProjectRegistry.UnregisteredIsNotIndexed | src/project/project-registry.js:266-336 | after unregister returned the index says nothing of the project and the same of all others |
| ProjectRegistry.AdmissibleIsOneName | src/storage/layout.js:312-340 | an admissible id is a single path component under either separator |
| ProjectRegistry.EmptyEntryIsNoEntry | src/project/project-registry.js:342-375 | an absent, falsy or empty index entry makes the lookup scan as with an empty index |
| RegistryLock.MutualExclusion | src/project/project-registry.js:110-183 | for any number of processes at most one is inside an owner's section, if no holder outlives the stale limit |
| RegistryLock.NoRecordIsLost | src/project/project-registry.js:291-304 | over every timely interleaving a saved record stays until a later save replaces it |
| RegistryLock.FinishedIsSaved | src/project/project-registry.js:291-304 | in every run, timely or not, a process whose register returned did save its record |
| RegistryLock.RegisteredIsFound | src/project/project-registry.js:110-304 | after every timely run the record of each process whose register returned is in the file, unless another process registered the same id |
| RegistryLock.StaleLockAdmitsTwo | src/project/project-registry.js:126-165 | without the timing assumption this schedule puts two processes into the section |
| RegistryLock.FreeLockRegisters | src/project/project-registry.js:110-304 | with the lock free, four steps register the record, or leave the file as it was when the save fails, and free the lock again |
| RegistryLock.FreshLockIsRespected | src/project/project-registry.js:110-172 | a lock no older than 30 seconds is waited for and never touched, for 200 attempts |
| RegistryLock.StaleLockIsStolen | src/project/project-registry.js:110-172 | a process alone with a stale lock removes it in four steps |
| SnapshotStore.Store.MaterializeTree | src/persistence/snapshot-store.js:213-226 | the working tree becomes exactly the given one |
| SnapshotStore.Store.RollbackHead | src/persistence/snapshot-store.js:187-207 | HEAD goes back to the parent or to unborn, if the Git step works |
| SnapshotStore.Store.CommitSnapshot | src/persistence/snapshot-store.js:311-390 | each failure point of a commit, a commit that lands and reports a failure included, and no new record on any of them |
| SnapshotStore.Store.Restore | src/persistence/snapshot-store.js:396-451 | checks the registry, the repository and the object before it touches the working tree |
| SnapshotStore.Store.Resume | src/persistence/snapshot-store.js:470-494 | restores the latest snapshot, else reads the persisted tree |
| SnapshotStore.Store.OnTurnComplete | src/persistence/snapshot-store.js:503-514 | commits on a PASS verdict and only then |
| SnapshotStore.Store.DeleteSnapshots | src/persistence/snapshot-store.js:533-547 | the registry goes first, then the repository |
| SnapshotStore.StepAgreesIff | src/persistence/snapshot-store.js:187-547 | one operation keeps HEAD, commits, registry and parents in agreement if and only if its faults are covered, a landed commit that reports a failure being one that is not |
| SnapshotStore.RunAgrees | src/persistence/snapshot-store.js:187-547 | over every covered run they agree and every registered commit keeps its tree |
| SnapshotStore.RestoreIsExact | src/persistence/snapshot-store.js:396-451 | restoring a registered id gives exactly the tree committed under it, whatever the working tree, and is idempotent |
| SnapshotStore.CommitThenRestore | src/persistence/snapshot-store.js:311-451 | a commit followed by a restore gives back the committed files |
| SnapshotStore.FailedCommitKeepsSnapshots | src/persistence/snapshot-store.js:311-390 | a commit that fails in any way changes no registered snapshot |
| SnapshotStore.CommitOutcome | src/persistence/snapshot-store.js:311-390 | a commit succeeds if and only if every call but the reading of HEAD before it does, registers id, parent and trigger, and leaves the given tree in HEAD and working tree without Git's own files |
| SnapshotStore.CommitKeepsOthers | src/persistence/snapshot-store.js:311-390 | no commit, however it ends, changes another one |
| SnapshotStore.RefusedRecordRollsBack | src/persistence/snapshot-store.js:187-207 | a refused record takes HEAD and the working tree back to the snapshot before |
| SnapshotStore.RestoreOutcome | src/persistence/snapshot-store.js:396-451 | each answer of a restore with its exact condition, and no change before its checks are through |
| SnapshotStore.DeleteOutcome | src/persistence/snapshot-store.js:533-547 | after a deletion that got through the registry nothing can be restored; else nothing has changed |
| Session.SessionManager.Issue | src/auth/session.js:112-129 | opens a family at rotation zero |
| Session.SessionManager.Decode | src/auth/session.js:156-243 | accepts the current rotation in time by two readings of the clock, drops the family on reuse and the session on expiry |
| Session.SessionManager.Rotate | src/auth/session.js:250-277 | moves the family to the next rotation, never past the absolute expiry |
| Session.SessionManager.Revoke | src/auth/session.js:286-307 | drops the session if it exists and belongs to the account given |
| Session.SessionManager.ReapExpired | src/auth/session.js:315-325 | drops exactly the sessions past their absolute expiry and counts them |
| Session.OneTokenVerifies | src/auth/session.js:156-277 | over every run at most one minted token of a session verifies |
| Session.LifetimeIsBounded | src/auth/session.js:90-103 | whatever verifies does so before session start plus the maximal lifetime, however often rotated |
| Session.StaleTokenKillsTheFamily | src/auth/session.js:156-243 | once a rotated-out token is presented no token of its family ever verifies again |
| Session.ReapingIsInvisible | src/auth/session.js:315-325 | reaping at any points of any run changes no answer of verify or rotate |
| Session.AcceptedIff | src/auth/session.js:156-243 | over every run a minted token verifies if and only if its session is there, at its rotation, and it is in time |
| Session.IssuedVerifies | src/auth/session.js:90-129 | a token just issued is for its account and verifies while it is in time |
| Session.RotationReplaces | src/auth/session.js:250-277 | over every run a rotation succeeds if and only if the token verifies, and then the new token verifies in its place and the old one does not |
| Session.RevokedNeverVerifies | src/auth/session.js:286-307 | after a revocation no token of the session verifies, over any further run |
| Session.PresentingEndsIff | src/auth/session.js:156-243 | over every run presenting a token ends its session if and only if it was rotated out or the lifetime is over, and touches no other session |
| Session.OthersCannotRevoke | src/auth/session.js:286-307 | a revocation that names another account changes nothing |
| LoginFlow.Flow.PurgeConsumed | src/auth/login-flow.js:181-187 | the loop with its early break drops the specified entries |
| LoginFlow.Flow.CompleteLogin | src/auth/login-flow.js:259-329 | the checks in order, the single-use table, its cap and the exchange, with the clock read for expiry, purge and consumption |
| LoginFlow.PurgeIsFilter | src/auth/login-flow.js:181-187 | the early break purges exactly what filtering the whole table would |
| LoginFlow.RunKeeps | src/auth/login-flow.js:181-329 | over every run the table stays in time order and within its cap |
| LoginFlow.SecondExchangeIff | src/auth/login-flow.js:181-312 | the exact condition under which an exchanged state, not pushed out, is exchanged again |
| LoginFlow.ReplayOnlyAtTheBoundary | src/auth/login-flow.js:181-312 | when expiry test and purge read the same time, that needs consumption at issue time and replay at the last instant |
| LoginFlow.NeverExchangedAgain | src/auth/login-flow.js:181-312 | a state exchanged later than its issue is never exchanged again over any run, unless the cap pushes it out |
| LoginFlow.ExchangedAtMostOnce | src/auth/login-flow.js:259-329 | in a run of a new flow such a state is exchanged exactly once |
| LoginFlow.RefusedIff | src/auth/login-flow.js:259-290 | the exact condition of each refusal for a bad or expired state and a missing or different cookie, none of which touches the table |
| LoginFlow.AnswerIff | src/auth/login-flow.js:259-312 | over every run a vouched state is refused as used, refused for its code or exchanged exactly by its history and its code |
| LoginFlow.FirstExchangeSucceeds | src/auth/login-flow.js:259-312 | over every run the first complete callback of a state is exchanged and remembered |
| JwksKeyStore.OutageEndsTrust | src/auth/oidc-verifier.js:281-314 | however many fetches have failed, once the keys are older than the TTL plus the ceiling every call is denied |
| JwksKeyStore.KeyStore.RefreshOrStale | src/auth/oidc-verifier.js:300-314 | a fetch, or stale keys when it fails or is within the negative window |
| JwksKeyStore.KeyStore.KeyFor | src/auth/oidc-verifier.js:323-348 | the cached, refreshed and refetched lookups in order, then the import of the key, which must be RSA |
| JwksKeyStore.LookedUp | src/auth/oidc-verifier.js:323-348 | a key returned is the RSA key the current keys select, and they were fetched at most the TTL plus the staleness ceiling before |
| JwksKeyStore.SelectionIgnoresOrder | src/auth/oidc-verifier.js:364-377 | key selection does not depend on the order of the JWKS array (section 4.5 of RFC 7517 for kid) |
| JwksKeyStore.SelectedIff | src/auth/oidc-verifier.js:364-377 | a key is selected if and only if it is the one candidate and listed once |
| JwksKeyStore.FetchesAreSpaced | src/auth/oidc-verifier.js:240-348 | over every sequential run fetch starts are at least the smallest of the three floors apart |
| JwksKeyStore.FreshKeyIsFound | src/auth/oidc-verifier.js:323-348 | a key in a cache younger than its TTL is found at once, without a fetch |
| JwksKeyStore.FetchedKeyIsFound | src/auth/oidc-verifier.js:281-348 | past the TTL the keys are fetched and the key is found in what came |
| JwksKeyStore.StaleKeyIsFound | src/auth/oidc-verifier.js:281-348 | in an outage a key within the staleness ceiling is still found |
| JwksKeyStore.UnknownIdIsFetchedFor | src/auth/oidc-verifier.js:323-348 | an unknown id is fetched for and found, and within the floor denied without a fetch |
| JwksKeyStore.OnlyRsaIsFound | src/auth/oidc-verifier.js:323-348 | a key that is no importable RSA key is never handed out |
| RateLimiter.QuotaManager.CheckRate | src/ops/quota-manager.js:200-240 | one counter changes, by the fixed-window rule; no identity or no limit lets the call pass |
| RateLimiter.KeysAreSeparateIff | src/ops/quota-manager.js:182-184 | distinct account-operation pairs never share a key if and only if the operation names are not confusable |
| RateLimiter.ColonFreeIsSafe | src/ops/quota-manager.js:182-184 | colon-free operation names are not confusable |
| RateLimiter.IntervalIsBounded | src/ops/quota-manager.js:200-240 | any half-open interval of k windows holds at most (k + 1) * max allowed calls |
| RateLimiter.CounterIsPrivate | src/ops/quota-manager.js:180-240 | over any interleaving a counter is the one its own calls alone would give |
| RateLimiter.AccountIsBounded | src/ops/quota-manager.js:180-240 | the bound holds per account and operation over every interleaved run |
| RateLimiter.AllowedIff | src/ops/quota-manager.js:200-240 | over every run of one counter a call is allowed if and only if fewer than max were allowed in its window |
| RateLimiter.AccountAllowedIff | src/ops/quota-manager.js:180-240 | the same per account and operation over every interleaved run |
| ArtifactBundle.Base64RoundTrip | src/project/container-build.js:250-271 | decoding inverts encoding on every byte sequence (section 4 of RFC 4648) |
| ArtifactBundle.Base64Length | src/project/container-build.js:250-271 | four symbols for every three bytes begun, padding included |
| ArtifactBundle.SafeIff | src/project/container-build.js:332-338 | a path is accepted if and only if it has no banned character and resolves part by part below any directory |
| ArtifactBundle.AcceptedStaysInside | src/project/container-build.js:332-338 | an accepted path lies strictly inside its directory and two accepted paths never share a place |
| ArtifactBundle.SortSorts | src/project/container-build.js:250-259 | the sort permutes the files into path order by UTF-16 code units |
| ArtifactBundle.OrderIsIrrelevant | src/project/container-build.js:250-271 | two orderings of files with distinct paths encode identically |
| ArtifactBundle.RepeatedPathKeepsOrder | src/project/container-build.js:250-259 | with a repeated path the stable sort keeps the order given, so distinctness is needed |
| ArtifactBundle.DecodeArtifactBundle | src/project/container-build.js:285-326 | the loop stops at the first entry objected to, and every file it returns has a safe path |
| ArtifactBundle.BundleRoundTrip | src/project/container-build.js:250-326 | decoding an encoded bundle gives the same files and bytes in path order if all paths are safe, and the unsafe-path refusal otherwise |
| ArtifactBundle.CutTail | src/project/container-build.js:221-227 | the cut ends at the next character boundary, so well-formed text stays well-formed and loses at most three more bytes |
| ArtifactBundle.AlphabetIs | src/project/container-build.js:250-271 | the symbols are those of section 4 of RFC 4648 in order |
| ArtifactBundle.BytesAreSymbols | src/project/container-build.js:250-271 | three bytes are four symbols that spell the same 24 bits |
| ArtifactBundle.LeftoversArePadded | src/project/container-build.js:250-271 | one or two bytes left over are filled with zero bits and marked by padding |
| ArtifactBundle.EntriesDecodeIff | src/project/container-build.js:285-326 | entries decode if and only if each has a safe path and a known encoding; else the first that has not decides the refusal |
| ArtifactBundle.BundleDecodesIff | src/project/container-build.js:285-326 | a bundle decodes if and only if it parses, has the version and a list of decodable files |
| SelfHostedDeploy.ContainedIff | src/project/self-hosted-deploy.js:187-191 | for an accepted path the containment check fails exactly when its text starts with two dots |
| SelfHostedDeploy.ManifestEntriesFor | src/project/self-hosted-deploy.js:166-184 | the loop builds the specified manifest entries |
| SelfHostedDeploy.StageRelease | src/project/self-hosted-deploy.js:357-404 | a release is staged completely, manifest last, or not at all |
| SelfHostedDeploy.DoomedShape | src/project/self-hosted-deploy.js:442-460 | pruning dooms never the live release, all but max(1, kept), and only names before every other one left |
| SelfHostedDeploy.PruneKeepsTheLive | src/project/self-hosted-deploy.js:442-460 | pruning leaves the live release untouched and, when every removal works, exactly min(all, max(1, kept)) releases |
| SelfHostedDeploy.Publisher.PruneReleases | src/project/self-hosted-deploy.js:442-460 | reading names in any order, sorting and removing one by one gives the specified releases |
| SelfHostedDeploy.Publisher.Deploy | src/project/self-hosted-deploy.js:280-439 | the refusals in order, staging, clean-up, flip and pruning |
| SelfHostedDeploy.Publisher.Lookup | src/project/self-hosted-deploy.js:475-534 | the request checks in order and the manifest lookup |
| PublishProofs.EntriesMean | src/project/self-hosted-deploy.js:166-184 | a request path is listed if and only if it names one of the files, and is listed under a file it names |
| PublishProofs.AsksOnce | src/project/self-hosted-deploy.js:166-184 | a request path names at most one file unless one file stands where the other needs a directory |
| PublishProofs.ServedIff | src/project/self-hosted-deploy.js:351-534 | after a successful deploy a request is answered with a file if and only if it names that file of the artifact, with the artifact's own bytes except for the manifest |
| PublishProofs.PublishableIff | src/project/self-hosted-deploy.js:351-439 | without faults an artifact is published if and only if it has a root index page and no path starts with two dots or collides with another or with the manifest |
| PublishProofs.FailureIsInvisible | src/project/self-hosted-deploy.js:391-424 | a deploy that fails anywhere leaves every lookup on every site as it was, unless its flip took effect and still reported a failure |
| PublishProofs.LostFlipServesNothing | src/project/self-hosted-deploy.js:406-424 | in that case the clean-up removes the release that is live by then, and its site answers nothing |
| PublishProofs.LastPublishedIsServed | src/project/self-hosted-deploy.js:280-534 | over every run of deploys and failures, lost flips aside, each site answers with the files of its last published artifact and nothing else |
| PublishProofs.LookupIsGuarded | src/project/self-hosted-deploy.js:475-534 | a request gets through to a site if and only if its project name, target, owner and signature are right for exactly that site |
| PublishProofs.ScreenedIff | src/project/self-hosted-deploy.js:280-356 | each refusal before anything is written, with its exact cause |
| PublishProofs.StagedIff | src/project/self-hosted-deploy.js:357-404 | a release is staged if and only if it could be without faults and no write to it failed |
| PublishProofs.PublishOutcome | src/project/self-hosted-deploy.js:357-439 | a deploy publishes if and only if it staged and flipped; a failed one leaves every other release and, its own flip aside, the live one |
| PublishProofs.ServedIsInside | src/project/self-hosted-deploy.js:475-534 | whatever a site holds, an empty request path or one with a NUL misses, and what is served is a safe path of the live release |
| PublishProofs.ReusedIdKeepsFiles | src/project/self-hosted-deploy.js:357-404 | a release id used before keeps the files in its directory that the artifact does not name |

## Left out

- The file system, Git, containers, HTTP and timers themselves: only their outcomes appear, as inputs of a step.
- Cryptography: signatures, HMACs and hashes are unforgeable, injective values; token text is not modelled.
- Path syntax checks of `normalizeTree`, and a tree in which one path is a file and another needs it as a directory (persistence and snapshots).
- Persistence: a temporary name that is already taken by another file, and a reader whose directory or file reads fail.
- An atomic rename that reports a failure although it took effect, except for the flip of a release.
- Memory: a document on disk that is not valid JSON, which makes every operation throw and changes nothing.
- Snapshots: a registry that cannot be read outside a commit, where restore and resume throw and change nothing.
- Sinks for errors and notifications, and returned messages: only the kind of a failure is modelled.
- The regular expressions of the audit's per-file detectors: the scan of a file is an arbitrary function of its path and text.
- PersistenceStore.Store.DeleteProjectTree: a removal that fails leaves an arbitrary part of the tree.
- MemoryStore.Handle.AddAuto: the evicted count and the notification are not returned.
- Memory: `edit`, `del`, `prune` and export, which remove text on purpose; the size of the JSON text is a frame plus one size per entry.
- Text outside the codec: a character stands for one UTF-16 code unit when lengths are counted, so a length that splits a surrogate pair is not modelled.
- Redaction: object keys are copied as they are, as in the source; keys such as `__proto__` are ordinary keys here.
- Session.SessionManager.Revoke: its answer may change when an expired session was reaped before, so it is not part of `ReapingIsInvisible`.
- Session and login: malformed tokens and states are a single case.
- JwksKeyStore.KeyStore.KeyFor: concurrent calls are not modelled, and the clock is read once in each stretch between fetches.
- RateLimiter: `checkQuota`, sandbox counts and abuse detection, which keep no state over time of their own.
- Dev server: `onExit` callbacks that re-enter the manager, `whenReady`, `status` and the check interval.
- Registry: an owner id equal to the index file's name, whose directory would take the index's place; the steal of a stale lock beyond the schedule of `StaleLockAdmitsTwo`; lists and counts per owner.
- Snapshots: ignore rules, nested repositories and Git's garbage collection; a working tree after a failed Git step is any tree.
- ArtifactBundle: the JSON text of a bundle and its descriptive fields; file contents that are not buffers; strings with lone surrogates in paths.
- ArtifactBundle.CutTail: the cap on lines and the notices put before the tail are not modelled.
- SelfHostedDeploy.Publisher.Deploy: project ids that the storage layout refuses with an exception, and the leftover link of a failed flip, which nothing reads.
- SelfHostedDeploy: content types and the URL text; a release id that repeats the live one, which the random suffix rules out.
- Model records, enums, themes, presentation, templates, steering, sharing, connectors, retention and the preview controller: field checks and one-step rules.
