# A verified model of the knowledge and capture core

This project models, in Dafny, the parts of the repository whose correctness rests on interleavings, crashes or whole
histories, and proves what they promise. `dafny verify dfyconfig.toml` checks all of it.

| file | what it models |
|---|---|
| `FileLock.dfy`, `FileLockOutcomes.dfy` | the cross-process file lock with stale recovery, guards of guards included, one system call at a time; what the end of a call means |
| `LinkLive.dfy` | the lock-free reservation protocol of the entity-link capture, any number of executors |
| `CaptureLedger.dfy` | the crash-prone, budgeted capture ledger and its replay |
| `Options.dfy`, `Sequences.dfy` | optional values; sequences without duplicates |
| `Supersession.dfy`, `WriteLog.dfy` | what the histories share: explicit supersession; receipts, retries and compare-and-set |
| `RelationHistory.dfy`, `ReviewHistory.dfy`, `SourceCoverage.dfy`, `KnowledgeHistory.dfy`, `AssociationHistory.dfy` | the event-sourced histories: replay validator, write, selection |
| `JsonText.dfy`, `JsonGrammar.dfy`, `CanonicalJson.dfy`, `CanonicalSyntax.dfy` | string quoting, the grammar and meaning of JSON texts, the canonical JSON text and how it reads |
| `NativeWriter.dfy`, `NativeSyntax.dfy` | the explicit-stack JSON writer over an object graph; how its text reads |
| `JsonScanner.dfy` | the extraction of an object from a model response: fences and the brace scanner |
| `SessionGroup.dfy` | session lineage, its closure, and the double-collect read |
| `MembershipCheck.dfy` | the depth-first search for cyclic collection membership |
| `SourceRanges.dfy` | interval normalisation and the exact-cover check of trace projections |
| `KeyedMutex.dfy` | the asynchronous mutex by key |

Protocols are transition systems: one step is one file operation or one publication, steps of different actors
interleave freely, an actor may stop for good between any two of them, and the theorems range over every run. Loops that
update variables are methods with loops, proved against a specification function or predicate; objects that update their
fields are classes.

## What the proofs brought to light

- A record of the entity-link capture may be derived from a native file that still lacks its closing line break, because
  an inspecting executor can read between the two last writes. Every later inspection then throws, although nothing was
  tampered with. `LinkLive.EarlyRecordConflicts` is such a run, `LinkLive.InspectionThrowsExactly` says which runs do it.
- When archiving a native value fails and the process lives on, the recorded attempt describes a value that no file
  holds, and the replay rejects the whole ledger for ever. `CaptureLedger.LostArchiveRun` is such a run from a freshly
  prepared directory, and `CaptureLedger.ReplayAcceptsExactly` gives the exact condition over runs.
- The canonical text of an array whose only element is a hole is that of the empty array; this is the one exception to
  the canonical form, built into `CanonicalJson.Same`.
- The group of a session that is not listed, but named as a parent by listed sessions, contains those sessions although
  their lineage does not resolve. `SessionGroup.ClosureIsExact` states when group and lineage agree.
- A lock file whose creator died before its record was complete is never recovered by anybody
  (`FileLock.OrphanIsForever`): the source accepts this to protect a paused holder.

## Assumptions

- `FileLock`: owner tokens are unique, death is permanent, a probe reports "no such process" only if no living process of
  that host has the pid, the guard's name is injective in path and bytes, and nobody else touches the files. Age, clocks
  and timeouts are free choices of the environment.
- `LinkLive`: once the text of a native file reads as an admitted outcome, only its line break can follow. Host identity
  checks before each pass change no file; they can only stop an executor.
- `NativeWriter`: the engine prints a finite number as a number of the grammar, and any other as null.
- `CaptureLedger`: a torn text does not parse; a native value has the same meaning before and after its JSON text; digests
  are injective. The TypeScript code never removes the lock of a dead process; here an operator may, which only adds runs.
- Histories: what the schemas demand of one value is a precondition or a `Parses` predicate; digests and timestamps are
  plain values; checks on the content of one draft, analysis or ledger are a recorded outcome.
- `SessionGroup`: a listing is atomic, and a revision does not come back after a change; the locale's comparison of names
  is a total preorder, given as the place of each name among the reals.

## Model

| member | source | states |
|---|---|---|
| FileLock.ReachableInv | src/shared/file-lock.ts:54-198 | every state of every run of acquiring, releasing, dying and recovering frames satisfies the ownership, judgement and recheck invariants |
| FileLock.MutualExclusion | src/shared/file-lock.ts:71-107 | no two living frames run their operation under one lock path, user locks and recovery guards alike, and the lock file then holds exactly the holder's record |
| FileLock.RecoveryRemovesTheDeadRecord | src/shared/file-lock.ts:111-143 | a recovery unlink removes exactly the file that was measured and read, whose owner has exited; no living frame occupies that path and nothing else changes |
| FileLock.ReleaseRemovesTheOwnRecord | src/shared/file-lock.ts:190-198 | a living holder finds its own record, and its release removes that file and no other |
| FileLock.OthersLeaveTheHeldFile | src/shared/file-lock.ts:111-143 | while a living frame occupies a path, no step of anyone else touches its file |
| FileLock.StaleLockCanBeTaken | src/shared/file-lock.ts:71-143 | a caller that finds the lock of a dead process of its host can recover it under the guard and take it over, leaving no other file behind |
| FileLock.OrphanIsForever | src/shared/file-lock.ts:145-153 | an empty or partial lock file of a dead creator stays for ever |
| FileLockOutcomes.EndsAsItRan | src/shared/file-lock.ts:103-108 | over every run, a caller that ends with a result, or is about to, ran its operation to exactly that result before, as a living holder |
| FileLockOutcomes.FinishedIsReported | src/shared/file-lock.ts:103-108 | over every run, a caller whose operation has finished ends with that result, returned or thrown, unless the unlink of its release fails; then it ends with an error |
| FileLockOutcomes.WhyThrew | src/shared/file-lock.ts:74-108 | over every run, a caller that ended with an error met the deadline, a failing call, sixteen nested recoveries, an error of the guarded section or of its own operation |
| FileLockOutcomes.RetriesWhenGone | src/shared/file-lock.ts:92-142 | over every run, a caller that tries again without a pause was contending at an instant at which the lock file was gone |
| FileLockOutcomes.RemovedWasStaleTwice | src/shared/file-lock.ts:111-143 | over every run, a lock file is removed as stale only after its age and its owner were checked by the caller, and again inside the guard |
| FileLockOutcomes.ThrowsExactly | src/shared/file-lock.ts:74-108 | a step ends a call with an error exactly for one of these reasons |
| FileLockOutcomes.TriesAgainExactly | src/shared/file-lock.ts:92-101 | a caller tries again at once exactly after a pause, on a missing lock file, or when the guarded section removed it or found it missing |
| FileLockOutcomes.PausesExactly | src/shared/file-lock.ts:92-101 | it pauses exactly when recovery is off, the file is young or unreadable, its owner is not gone, or the guarded section met another file |
| FileLockOutcomes.AcquiresExactly | src/shared/file-lock.ts:74-89 | a frame takes the lock exactly by completing its record in a file it created, and cleans up exactly when writing fails |
| FileLockOutcomes.RecheckExactly | src/shared/file-lock.ts:130-138 | the guarded section confirms a removal exactly for the measured file with the same record, still stale, its owner still gone |
| FileLockOutcomes.WhatCallsMayDo | src/shared/file-lock.ts:74-147 | a creation meets an existing file exactly when there is one, every file operation may fail, and no owner is reported gone while a process of his runs |
| FileLockOutcomes.FreeLockIsTaken | src/shared/file-lock.ts:74-79 | a call that finds the lock free takes it and leaves nothing but its own record in the file |
| FileLockOutcomes.FirstLock | src/shared/file-lock.ts:74-79 | from the empty start a process can come up and take a lock |
| FileLockOutcomes.DeadHolderIsReplaced | src/shared/file-lock.ts:71-147 | from the empty start a holder can die in the middle of its operation and another process of its host take the lock over, its own record then being the only file |
| FileLockOutcomes.WholeCall | src/shared/file-lock.ts:74-108 | whatever the operation returns or throws, such a call ends with exactly that and leaves no file behind |
| FileLockOutcomes.FailedCreationCleansUp | src/shared/file-lock.ts:78-91 | a call that cannot write its record removes the file it created and ends with an error |
| FileLockOutcomes.BusyLockTimesOut | src/shared/file-lock.ts:92-100 | a call that finds the lock taken and young pauses, tries again, and at the deadline ends with an error, having changed no file |
| LinkLive.InvocationsFollowThePlan | scripts/bench/entity-link-live.ts:304-333 | with any number of executors the model is invoked for the slots in plan order, each at most once, only behind a reservation |
| LinkLive.ReservedPrefixIsSettled | scripts/bench/entity-link-live.ts:304-333 | reserved slots are a prefix of the plan and all of them but the last hold an admitted native result |
| LinkLive.OneOpenInvocation | scripts/bench/entity-link-live.ts:304-333 | at most one invocation is in flight, lost or not admitted at any time |
| LinkLive.AbandonedSlotFreezesThePlan | scripts/bench/entity-link-live.ts:310-317 | once a reserved slot can no longer become admitted, no run ever reserves or invokes again |
| LinkLive.CallIsRecorded | scripts/bench/entity-link-live.ts:315-332 | a lone executor takes its slot from free to recorded whatever the outcome: it invokes the model once, publishes the record of exactly that outcome, and moves on if it is admitted and ends if not |
| LinkLive.NoOutcomeGoesUnrecorded | scripts/bench/entity-link-live.ts:328-332 | over every run, an executor that wrote a complete outcome, admitted or not, and is not stopped, is still deriving its record or has left exactly that record, unless another executor created one first |
| LinkLive.PassGoes | scripts/bench/entity-link-live.ts:308-316 | over any files, a pass that nobody disturbs ends at the first conflict without changing a file, or publishes every missing record and then ends, moves on or reserves, exactly as the outcomes it sees demand |
| LinkLive.LoneExecutorCompletes | scripts/bench/entity-link-live.ts:304-333 | from a freshly prepared directory a lone executor with admitted outcomes settles and records all slots, invoking the model once for each |
| LinkLive.StepKeeps | scripts/bench/entity-link-live.ts:278-333 | every single file operation of every executor keeps the invariant on files, log and executors |
| LinkLive.OthersStay | scripts/bench/entity-link-live.ts:61-65 | what one executor relies on survives any step of another, because files are created exclusively and only grow |
| LinkLive.CreatorsKeep | scripts/bench/entity-link-live.ts:61-65 | a half-written record has one writer, the executor that created it, so a complete record is never written again |
| LinkLive.InspectRecords | scripts/bench/entity-link-live.ts:278-295 | the inspection throws exactly when some slot's files conflict, and otherwise lists exactly the recorded, unknown and unpublished slots and finds the earliest reservation time |
| LinkLive.VerdictIsEvidence | scripts/bench/entity-link-live.ts:281-290 | asking the file system question by question comes, on unchanging files, to what the files of the slot amount to |
| LinkLive.InspectionOfAReachedDirectory | scripts/bench/entity-link-live.ts:286-289 | in every reached directory without half-written files, a slot conflicts exactly when its record was derived before its native file was complete, and no invocation is missed |
| LinkLive.InspectionThrowsExactly | scripts/bench/entity-link-live.ts:278-295 | in such a directory the inspection throws if and only if some move of the run published a record older than the native file, or went on writing a native file after its record was published |
| LinkLive.EarlyRecordConflicts | scripts/bench/entity-link-live.ts:286-289 | a run that leaves such a record |
| CaptureLedger.UnblockedIsBounded | scripts/bench/entity-capture.ts:174-186 | an attempt that does not block reported usage that stays within what was reserved for it |
| CaptureLedger.BlockedExactly | scripts/bench/entity-capture.ts:174-186 | an attempt blocks exactly on a missing native value, unreported usage, a violated bound, an exception, or a failure that calls itself a policy violation |
| CaptureLedger.OutputExactly | scripts/bench/entity-capture.ts:174-186 | an attempt counts as output exactly when it succeeded with text, unrefused, within bounds and without exception, or its executor reports a failure of that name |
| CaptureLedger.OutcomeExactly | scripts/bench/entity-capture.ts:174-186 | for every other outcome, when it is shown: host exception, invalid native result, policy violation, refusal, the failure the executor names, call failure |
| CaptureLedger.ReportedAsIs | scripts/bench/entity-capture.ts:174-186 | usage and cost are shown exactly when the executor does not deny reporting them, and with exactly the reported values |
| CaptureLedger.LostNativeMatters | scripts/bench/entity-capture.ts:174-186 | after an exception the projection depends on the native value exactly when that reports usage or cost or violates a bound |
| CaptureLedger.Ledger | scripts/bench/entity-capture.ts:187-210 | the replay returns the one description that fits the directory, and throws exactly when none does |
| CaptureLedger.OneView | scripts/bench/entity-capture.ts:187-210 | at most one description fits |
| CaptureLedger.JudgeExactly | scripts/bench/entity-capture.ts:195-206 | a slot replays exactly if it has no file, or its files are those of a call under the permission, with the projection of what is archived, that did not end before it was reserved |
| CaptureLedger.StepKeeps | scripts/bench/entity-capture.ts:240-290 | every operation, including dying inside any publication, keeps the invariant |
| CaptureLedger.DispatchedAtMostOnce | scripts/bench/entity-capture.ts:256-276 | each slot is dispatched at most once, in order, and only behind a complete reservation |
| CaptureLedger.NothingAfterABlockedSlot | scripts/bench/entity-capture.ts:195-206 | reserved slots are a prefix and every one but the last has a complete unblocked attempt that replays |
| CaptureLedger.BudgetsHold | scripts/bench/entity-capture.ts:208-234 | reservations stay within maxCalls and maxTokens, and the tokens of unblocked attempts sum to at most maxTokens |
| CaptureLedger.ReplayAcceptsExactly | scripts/bench/entity-capture.ts:187-210 | the replay accepts what a run leaves behind if and only if no move of the run tore a file, recorded before its reservation's time or recorded over a failed archiving that mattered |
| CaptureLedger.CarefulRunsAreAccepted | scripts/bench/entity-capture.ts:187-210 | with atomic publication, archiving that works or kills, and a clock that does not run backwards, every reached state is accepted |
| CaptureLedger.CallAdvances | scripts/bench/entity-capture.ts:240-290 | from an executable ledger a call that goes well leaves its slot reserved, dispatched, archived and recorded, releases the lock, and the replay counts it |
| CaptureLedger.EveryCallIsRecorded | scripts/bench/entity-capture.ts:264-290 | however a call ends, archived, unarchived or thrown, its attempt states the archived text, the message and the projection of exactly what came back, and the lock is released |
| CaptureLedger.HowProcessesEnd | scripts/bench/entity-capture.ts:242-290 | a process holds the lock from its first check to its end, whatever others do; it ends by its own move alone, and then the lock is released unless it died |
| CaptureLedger.WhoGetsTheLock | scripts/bench/entity-capture.ts:242 | a process gets the lock exactly if it is free; an operator removes the lock of a process that is gone and no other |
| CaptureLedger.LostArchiveIsRejected | scripts/bench/entity-capture.ts:277-286 | a ledger whose archiving failed without a trace and lived on to record an attempt is rejected if the value matters |
| CaptureLedger.LostArchiveRun | scripts/bench/entity-capture.ts:277-286 | from a freshly prepared directory a faultless run exists after which one failed archiving, lived through and recorded, has the whole ledger rejected |
| Supersession.RetiredOnce | src/knowledge/relation-history.ts:31-36 | an opinion is superseded at most once |
| Supersession.RetiredLater | src/knowledge/review-history.ts:22-26 | it is superseded by a later entry, and by an opinion only if that is about the same subject |
| Supersession.NeverRevives | src/knowledge/relation-history.ts:31-36 | a superseded opinion never becomes active again |
| Supersession.GroupSuffices | src/knowledge/reviews.ts:107-109 | computing superseded opinions from a group of subjects alone equals computing them from the whole history |
| Supersession.LastIsActive | src/knowledge/relation-history.ts:75-80 | a subject once judged always has an active opinion |
| Supersession.NewestStands | src/knowledge/relation-history.ts:31-36 | the last entry is superseded by nothing |
| Supersession.ActiveCount | src/knowledge/source-review-history.ts:144-165 | active opinions number the opinions less all that was ever named for retirement |
| Sequences.DistinctExactly | src/knowledge/source-review-history.ts:9-11 | comparing set size and length detects exactly the duplicates |
| WriteLog.RunGrows | src/knowledge/relation-history.ts:49-69 | over every run of submissions old entries and receipts stay a prefix and the history stays valid |
| WriteLog.GenerationCountsRequests | src/knowledge/relation-history.ts:38-46 | the generation equals the number of distinct accepted requests, each of which left one entry |
| WriteLog.RedeliveryChangesNothing | src/knowledge/relation-history.ts:54-60 | redelivering any accepted command after any further run changes nothing |
| WriteLog.ConflictIsRefused | src/knowledge/relation-history.ts:56-58 | the same request with another digest is refused for ever |
| WriteLog.OneCommandPerGeneration | src/knowledge/relation-history.ts:61 | of different commands against one generation at most one is accepted |
| WriteLog.HistoryIsItsCommands | src/knowledge/relation-history.ts:62-69 | after any run the entries are those there were and, exactly as submitted and in the order of acceptance, those that the accepted commands stand for |
| RelationHistory.ValidateHistory | src/knowledge/relation-history.ts:38-48 | the replay accepts exactly the histories in which every event was admissible where it stands |
| RelationHistory.OneEventCheckRefinesReplay | src/knowledge/relation-history.ts:61-69 | if the stored history is valid, compare-and-set matches and the new event passes its own check, the replay of the whole cannot fail |
| RelationHistory.AcceptedExactly | src/knowledge/relation-history.ts:49-70 | a write is accepted exactly when it is a redelivery, or current, its event, spelled out from the command, admissible, and within 4096 events |
| RelationHistory.AcceptedIsStored | src/knowledge/relation-history.ts:61-69 | an accepted new write adds one event with the id, parent, actor, time and decision submitted, and one receipt of it, and changes nothing else |
| RelationHistory.VerdictExactly | src/knowledge/relation-history.ts:12-37 | an event passes its check exactly when it is in place and its actor entitled, and is forbidden rather than invalid exactly when only the actor is not |
| RelationHistory.ReviewStands | src/knowledge/relation-history.ts:49-81 | after an accepted review that opinion stands in the selection of its revision, those it supersedes are gone, and all others are as before |
| RelationHistory.ProposalIsShown | src/knowledge/relation-history.ts:49-81 | an accepted proposal is what the relation shows from then on, pending, with no review and not withdrawn |
| RelationHistory.WithdrawalShows | src/knowledge/relation-history.ts:49-81 | a revision shows as withdrawn exactly from its accepted withdrawal on, whatever else is written |
| RelationHistory.OnePairOfItems | src/knowledge/relation-history.ts:14-18 | all proposals of a history relate the same two knowledge items |
| RelationHistory.WithdrawalIsFinal | src/knowledge/relation-history.ts:19-25 | only its author withdraws a proposal and nothing refers to it afterwards |
| RelationHistory.OnlyOwnOpinionsAreRetired | src/knowledge/relation-history.ts:31-36 | a review supersedes only earlier opinions of the same actor on the same revision |
| RelationHistory.HistoryIsForest | src/knowledge/relation-history.ts:31-36 | a valid history is a backward forest of supersession |
| RelationHistory.SomethingIsProposed | src/knowledge/relation-history.ts:73-74 | a stored history always has a proposal to select |
| RelationHistory.SelectsTheRevision | src/knowledge/relation-history.ts:71-76 | the selection shows the proposal asked for, or the last one, and refuses an unknown one |
| RelationHistory.ActiveInOrder | src/knowledge/relation-history.ts:75-76 | active reviews are shown in the order of the history |
| RelationHistory.ActiveIsUnretired | src/knowledge/relation-history.ts:75-76 | the reviews shown as active are those that nothing in the whole history supersedes |
| RelationHistory.PendingExactly | src/knowledge/relation-history.ts:77-80 | a relation is pending exactly when it is not withdrawn and was never reviewed |
| RelationHistory.StatusExactly | src/knowledge/relation-history.ts:77-80 | the status shown is decided by the withdrawal and by the opinions that nothing in the whole history supersedes |
| RelationHistory.Pigeonhole | src/knowledge/relation-history.ts:26-30 | distinct indices below a bound that are as many as the bound are all of them |
| RelationHistory.AcceptChecksEverything | src/knowledge/relation-history.ts:26-30 | an accepting review checked all evidence of its proposal, and accepted a conflict only with the same scope |
| RelationHistory.AcceptedMeans | src/knowledge/relation-history.ts:71-81 | a relation shown as accepted has an active accept that checked all evidence, no active reject, is not withdrawn and is no conflict of another scope |
| RelationHistory.RelationsAreLawful | src/knowledge/relation-history.ts:49-70 | relation histories obey the common laws of writing |
| ReviewHistory.ContextIsSubject | src/knowledge/review-history.ts:7-11 | having the same context is having the same subject, hence an equivalence |
| ReviewHistory.ValidateHistory | src/knowledge/review-history.ts:12-28 | the replay accepts exactly the histories whose links hold and whose supersessions name active opinions of the same context |
| ReviewHistory.RetireTargets | src/knowledge/review-history.ts:22-26 | the inner loop accepts exactly the targets that may be retired and collects them |
| ReviewHistory.AcceptedExactly | src/knowledge/review-history.ts:53-72 | a new review, spelled out from the command, is accepted exactly when it is current, retires distinct active opinions of its own context and there is room |
| ReviewHistory.AcceptedIsStored | src/knowledge/review-history.ts:53-72 | an accepted new write adds one event with everything submitted, and one receipt of it, and changes nothing else |
| ReviewHistory.ReviewStands | src/knowledge/review-history.ts:53-72 | after an accepted review it stands, the reviews it supersedes do not, and all others are as before |
| ReviewHistory.HistoryIsForest | src/knowledge/review-history.ts:22-26 | a valid history is a backward forest of supersession |
| ReviewHistory.ActiveIsUnretired | src/knowledge/reviews.ts:107-109 | the reviews of one body shown as active are those that nothing in the whole history supersedes |
| ReviewHistory.ShowsWhatStands | src/knowledge/reviews.ts:105-123 | content, coverage and usage reviews shown are exactly the standing ones of each kind, in the order of the history |
| ReviewHistory.ShowsNothing | src/knowledge/reviews.ts:105-123 | without a history nothing is shown and every segment is unknown; the history of another item is refused |
| ReviewHistory.JudgedStaysJudged | src/knowledge/reviews.ts:105-123 | a body once judged in some respect keeps an active judgement in that respect |
| ReviewHistory.NotReviewedExactly | src/knowledge/reviews.ts:110-113 | content shows as not reviewed exactly when no content review of that body exists |
| ReviewHistory.NeedsWorkExactly | src/knowledge/reviews.ts:110-113 | content shows as needing revision exactly when some unsuperseded review of that body says so |
| ReviewHistory.RecordedExactly | src/knowledge/reviews.ts:111-114 | coverage shows as recorded exactly when a coverage review of that body and projection exists |
| ReviewHistory.CombinedMeans | src/knowledge/reviews.ts:115-120 | a segment shows a gap if any opinion sees one, and as linked or without object only if all opinions agree |
| ReviewHistory.SegmentsShow | src/knowledge/reviews.ts:115-120 | a segment shows a gap exactly when some unsuperseded coverage review of the body and projection sees one, and as linked or without object exactly when there is such a review and all agree on it |
| ReviewHistory.ReviewsAreLawful | src/knowledge/review-history.ts:53-72 | review histories obey the common laws of writing |
| SourceCoverage.ValidateHistory | src/knowledge/source-review-history.ts:121-135 | the common validator accepts exactly the histories with linked events, distinct ids and one chain of well-formed analyses |
| SourceCoverage.ValidateCoverage | src/knowledge/source-review-history.ts:144-165 | the coverage validator accepts exactly the admissible decisions and revocations, and its inactive set is the selector's |
| SourceCoverage.DecisionExactly | src/knowledge/source-review-history.ts:144-165 | the check of one event passes exactly when the decision or revocation is admissible after the events before it, however the code looks for them |
| SourceCoverage.SupersedeTargets | src/knowledge/source-review-history.ts:158-162 | the inner loop accepts exactly targets in force with the same binding and collects them |
| SourceCoverage.DecisionsInForce | src/knowledge/source-review-history.ts:144-165 | decisions in force number decisions minus superseded ids minus revocations |
| SourceCoverage.ShowsWhatStands | src/knowledge/source-review-history.ts:167-177 | the decisions shown are exactly those that stand about the analysis, in the order of the history; without a history there are none, and an invalid history or that of another coverage is refused |
| SourceCoverage.SelectionMeans | src/knowledge/source-review-history.ts:167-177 | an analysis shows as not reviewed exactly when no decision about it stands, as disputed exactly when two such decisions differ, and otherwise with the kind they share |
| SourceCoverage.SameOpinionExactly | src/knowledge/source-review-history.ts:172-176 | two decisions are one opinion exactly if they are of one kind and dispose of the same points in the same way |
| SourceCoverage.AssertionExactly | src/knowledge/source-review-history.ts:178-181 | the assertion passes exactly if the history is valid and of this coverage, the named decision stands with this very binding and proceeds with limits, and all decisions that stand agree with it |
| SourceCoverage.AssertionMeans | src/knowledge/source-review-history.ts:167-181 | a passing assertion vouches for a decision in force, bound to the published analysis, blocking nothing, with which all decisions in force agree |
| SourceCoverage.AssertionIsStable | src/knowledge/source-review-history.ts:178-181 | a passing assertion stays passing under any valid events that do not decide about the same coverage reference or revoke such a decision |
| SourceCoverage.UnconcernedEndsNothing | src/knowledge/source-review-history.ts:158-162 | an event about something else ends no decision about the analysis |
| SourceCoverage.AcceptedExactly | src/knowledge/source-review-history.ts:200-211 | a new coverage write, the first one included, is accepted exactly when it is current, there is room, and it continues the analyses, revokes a decision in force, or decides about an analysis exactly as published, superseding only decisions in force with its very binding |
| SourceCoverage.AcceptedIsStored | src/knowledge/source-review-history.ts:189-211 | an accepted new write, of either kind of history, adds one event with everything submitted, and one receipt of it, and changes nothing else |
| SourceCoverage.WriteDecides | src/knowledge/source-review-history.ts:200-211 | after an accepted coverage write a decision stands exactly if it is the one submitted, or stood before and is not ended by it |
| SourceCoverage.LedgerAcceptedExactly | src/knowledge/source-review-history.ts:189-199 | a new ledger analysis, the first one included, is accepted exactly when it is current, continues the chain of analyses and there is room |
| SourceCoverage.FirstIsAnalysis | src/knowledge/source-review-history.ts:144-165 | a coverage history can begin with an analysis without parent only |
| SourceCoverage.LedgersAreLawful | src/knowledge/source-review-history.ts:189-199 | ledger histories obey the common laws of writing |
| SourceCoverage.CoveragesAreLawful | src/knowledge/source-review-history.ts:200-211 | coverage histories obey the common laws of writing |
| KnowledgeHistory.ValidateHistory | src/knowledge/history.ts:5-27 | the replay accepts exactly the item histories with one lineage, numbered receipts and known references |
| KnowledgeHistory.OneLineage | src/knowledge/history.ts:9-22 | all revisions form one chain from the first, with distinct ids, one creator and one creation time |
| KnowledgeHistory.AcceptedExactly | src/knowledge/history.ts:28-66 | a new request is accepted exactly when it is current, its actor is its author and its revision or choice fits the history |
| KnowledgeHistory.RedeliveredExactly | src/knowledge/history.ts:32-39 | a known request is answered from the history exactly if its digest is the recorded one and it comes from its author |
| KnowledgeHistory.AcceptedIsStored | src/knowledge/history.ts:41-66 | an accepted new write adds exactly the revision or the choice submitted, and one receipt of it, and changes nothing else |
| KnowledgeHistory.ItemsAreLawful | src/knowledge/history.ts:28-66 | item histories obey the common laws of writing |
| AssociationHistory.ValidateHistory | src/knowledge/associations.ts:104-121 | the replay accepts exactly the association histories with one lineage, numbered receipts and admissible reviews |
| AssociationHistory.SelectionMeans | src/knowledge/associations.ts:52-60 | associations show as stale exactly when none is about the body; otherwise the last one about it is shown with its last review, as accepted only if it was derived successfully |
| AssociationHistory.SelectsNothing | src/knowledge/associations.ts:52-60 | without a history associations are absent; an invalid history or that of another item is refused |
| AssociationHistory.RevisionIsShown | src/knowledge/associations.ts:52-60 | after an accepted revision that is what its body shows, available or failed as derived, and unreviewed |
| AssociationHistory.ReviewIsShown | src/knowledge/associations.ts:52-60 | after an accepted review of the revision that a body shows, the body shows that choice |
| AssociationHistory.AcceptedExactly | src/knowledge/associations.ts:122-151 | a new request is accepted exactly when it is current, its actor is its author and its revision or review fits the history |
| AssociationHistory.AcceptedIsStored | src/knowledge/associations.ts:122-151 | an accepted new write adds exactly the revision or the review submitted, and one receipt of it, and changes nothing else |
| AssociationHistory.AssociationsAreLawful | src/knowledge/associations.ts:122-151 | association histories obey the common laws of writing |
| JsonText.QuoteDecodes | src/knowledge/store.ts:35 | quoting is a prefix code: whatever follows, a quoted string determines the string (section 7 of RFC 8259, lone surrogates escaped) |
| CanonicalJson.Decode | src/knowledge/store.ts:34-42 | a printed value is uniquely decodable in any context that a value can stand in |
| CanonicalJson.SamePrints | src/knowledge/store.ts:34-42 | values equal up to key order print alike |
| CanonicalJson.CanonicalForm | src/knowledge/store.ts:34-42 | two values print equally exactly when they are equal ignoring key order, -0 being 0 |
| CanonicalSyntax.PrintsJson | src/knowledge/store.ts:34-42 | the canonical text of a value without holes is a JSON text that means the value: the same words, strings and elements, the same members, their keys ascending by UTF-16 code unit (a proper prefix first, else the smaller unit where they first differ), nothing escaped that need not be |
| CanonicalSyntax.PrintedSyntax | src/knowledge/store.ts:34-42 | the syntax tree of any printed value, with gaps for holes: well formed, of the same text and meaning, in key order where no key repeats |
| CanonicalSyntax.BeforeExactly | src/knowledge/store.ts:39 | the comparison of the sort is the order of UTF-16 code units |
| NativeWriter.PublishNative | scripts/bench/entity-link-live.ts:68-100 | the writer terminates, throws exactly when the graph below the root is not plain acyclic data, and otherwise writes the text of the finite unfolding |
| NativeSyntax.UnfoldingIsJson | scripts/bench/entity-link-live.ts:68-100 | what is written for a finite unfolding is a JSON text without white space (RFC 8259) with the same words, the same strings and the same children in order |
| NativeWriter.WriteValue | scripts/bench/entity-link-live.ts:70-95 | the explicit-stack loop equals the recursive printer, with `active` the objects on the current path |
| NativeWriter.PrintsPlainData | scripts/bench/entity-link-live.ts:70-95 | the recursive printer succeeds exactly on plain acyclic data and prints its unfolding, shared nodes again, undefined members dropped, holes null |
| NativeWriter.UnfoldUnique | scripts/bench/entity-link-live.ts:70-95 | an object graph has at most one finite unfolding |
| NativeWriter.UnfoldingPlain | scripts/bench/entity-link-live.ts:77-79 | a graph with a finite unfolding has neither a reachable cycle nor a reachable defect |
| NativeWriter.FailureWalk | scripts/bench/entity-link-live.ts:77-79 | where printing fails, a walk from the root reaches a defective object or comes back to itself |
| JsonScanner.SelectObject | src/shared/llm-json.ts:5-19 | the scan selects exactly the one balanced slice that begins at the first opening brace, if there is one |
| JsonScanner.ExtractJsonObject | src/shared/llm-json.ts:2-21 | the whole response without its fences is preferred, then the first object of the response, fences or not, and the errors are told apart |
| JsonScanner.UnfencePadded | src/shared/llm-json.ts:3 | a balanced text padded with white space is what trimming leaves of it |
| JsonScanner.UnfenceFenced | src/shared/llm-json.ts:3 | a balanced text in a fence, tagged `json` in any case or not, with white space anywhere around it, is what remains |
| JsonScanner.SelectionOfResponse | src/shared/llm-json.ts:3-18 | trimming and removing fences neither loses nor gains the object that is selected |
| JsonScanner.ScanDecides | src/shared/llm-json.ts:7-18 | from the first opening brace the scan succeeds exactly on a balanced slice |
| JsonScanner.BalancedScans | src/shared/llm-json.ts:7-18 | a balanced text is scanned to its end, whatever braces, quotes and backslashes its strings contain |
| JsonScanner.ScannedIsBalanced | src/shared/llm-json.ts:7-18 | what is scanned is balanced |
| JsonScanner.ObjectIsBalanced | src/shared/llm-json.ts:7-18 | the text of every JSON object of the grammar of RFC 8259, whatever its white space, key order, escapes and numbers, is balanced |
| JsonScanner.ObjectIsSelected | src/shared/llm-json.ts:5-18 | after prose without an opening brace, such an object with any suffix is exactly what is selected |
| JsonScanner.PrintedObjectIsSelected | src/shared/llm-json.ts:5-18 | the same for every object that the canonical printer prints, holes included |
| SessionGroup.RootSessionId | src/dsh-plugin/observe.ts:84-102 | the loop terminates on every map; it reports a cycle exactly when a lineage of the session repeats a session, a missing parent exactly when a lineage leaves the listing, and otherwise the session where the lineage ends |
| SessionGroup.CyclicExactly | src/dsh-plugin/observe.ts:91 | the walk is cyclic exactly when some lineage of the session repeats a session |
| SessionGroup.MissingParentExactly | src/dsh-plugin/observe.ts:97-99 | it misses a parent exactly when some lineage goes on to a session that is not listed |
| SessionGroup.RootExactly | src/dsh-plugin/observe.ts:93-96 | it finds a root exactly when the lineage ends there, at a listed session or at once |
| SessionGroup.RootIsTerminal | src/dsh-plugin/observe.ts:84-102 | a resolved root ends the lineage of the session and continues to no parent |
| SessionGroup.LeadsToRoot | src/dsh-plugin/observe.ts:84-102 | the lineage of a session ends at a listed terminal session exactly when that is its root |
| SessionGroup.GroupIds | src/dsh-plugin/observe.ts:104-127 | the fixpoint loop and the sort terminate with exactly the sessions whose lineage leads to the given one, each once; of two that differ in it, the root stands first, then the lesser depth, then the name the locale puts first |
| SessionGroup.OrderIsUnique | src/dsh-plugin/observe.ts:119-126 | if the locale tells the names apart, the order of a group is determined by its members |
| SessionGroup.Sweep | src/dsh-plugin/observe.ts:112-117 | one pass adds only sessions that lead to the root, and changes nothing only at the fixpoint |
| SessionGroup.ClosureIsExact | src/dsh-plugin/observe.ts:84-118 | the group of a terminal session is precisely the sessions whose root it is, if and only if it is listed or nobody names it as parent |
| SessionGroup.StableGroup | src/dsh-plugin/observe.ts:132-146 | listings that pass agree on the members and their revisions, and listings that agree on them pass unless depths changed or the locale leaves the order of two names open |
| SessionGroup.ReadHeld | src/dsh-plugin/observe.ts:163-182 | between two agreeing listings, every member had the contents that were read at the instant of the first |
| SessionGroup.ReadOnce | src/dsh-plugin/observe.ts:163-183 | one attempt returns such a group, or fails exactly as the listings say: for a session that is not listed, a missing root, or a group that was disturbed or ordered ambiguously |
| SessionGroup.ReadObservedGroup | src/dsh-plugin/observe.ts:156-185 | any returned group is what all its members held at a single instant, whatever writers did meanwhile; it gives up only if every attempt was disturbed or met names that the locale does not tell apart |
| MembershipCheck.Search.Visit | scripts/bench/entity-review-corpus.ts:98-103 | the recursive visit terminates, keeps its sets in step, finishes the visited entity, and throws only if there is a cycle |
| MembershipCheck.CheckMembership | scripts/bench/entity-review-corpus.ts:97-104 | the search accepts exactly the acyclic memberships, self-membership included |
| MembershipCheck.ClosesCycle | scripts/bench/entity-review-corpus.ts:99 | meeting an entity that is being visited closes a cycle |
| MembershipCheck.FinishedHasNoCycle | scripts/bench/entity-review-corpus.ts:101-102 | an entity all of whose members are finished lies on no cycle |
| SourceRanges.NormalizeRanges | src/knowledge/sources.ts:34-46 | normalisation succeeds exactly on acceptable input and returns sorted ranges with gaps that cover the same integers |
| SourceRanges.MergeSorted | src/knowledge/sources.ts:37-45 | the loop that extends the last range in place computes the merged list and throws exactly when some range is out of bounds |
| SourceRanges.CanonicalUnique | src/knowledge/sources.ts:34-46 | two canonical lists that cover the same integers are equal |
| SourceRanges.NormalFormIsCanonical | src/knowledge/sources.ts:34-46 | inputs normalise equally exactly when they cover the same integers, normalising is idempotent, and fixes exactly the canonical lists |
| SourceRanges.CanonicalRanges | src/knowledge/sources.ts:60-66 | the schema accepts a list exactly when it is canonical, holds 1 to 256 ranges, and covers only safe integers from the lower bound on |
| SourceRanges.IndicesEnumerate | src/knowledge/sources.ts:187-189 | the enumeration of canonical ranges is strictly increasing, complete and as long as the sum of their lengths |
| SourceRanges.FullSelection | src/knowledge/sources.ts:172-189 | a strictly increasing selection as long as the whole is the whole |
| SourceRanges.CheckTraceUnits | src/knowledge/sources.ts:162-189 | no issue is raised exactly when the raw units enumerate the selected record indexes |
| KeyedMutex.KeyedMutex.Enter | src/shared/keyed-mutex.ts:7-13 | a call joins the end of its key's line and becomes the key's tail |
| KeyedMutex.KeyedMutex.Begin | src/shared/keyed-mutex.ts:15-17 | an operation that starts is the first unfinished call of its line, and no other operation of the key runs |
| KeyedMutex.KeyedMutex.Leave | src/shared/keyed-mutex.ts:18-23 | fulfilled or rejected, the call leaves its line, and the map entry goes exactly when no call of the key is left |
| KeyedMutex.OneOperationPerKey | src/shared/keyed-mutex.ts:7-24 | for each key at most one operation runs at a time |
| KeyedMutex.StartsInCallOrder | src/shared/keyed-mutex.ts:7-24 | the operations of a key start in the order of the calls: those started are always the first calls of the key |
| KeyedMutex.TailsAreOutstanding | src/shared/keyed-mutex.ts:13-22 | `tails` has an entry for a key exactly while a call of it is outstanding, and the entry is the last call |
| KeyedMutex.HeadCanProceed | src/shared/keyed-mutex.ts:15-19 | while calls of a key are outstanding, the first of them runs or may start |

## Left out

- Real files, fsync, permissions, symbolic links and hashing: files are entries of a map or of a slot.
- Timing of the lock: deadlines, retry sleep and file age are free choices; that a stale lock can be taken over is proved,
  when it is taken over is not.
- The final `captures.json` of the entity-link capture, and the gate rejection files of the capture ledger: no decision
  reads them.
- Plan, prompt, guide, host and permission identity checks of the two capture tools: straight-line comparisons; a failing
  one is a process that throws.
- SessionGroup.GroupIds: leaves open in which order two names stand that the locale does not tell apart; there it depends
  on the order of the listing.
- JsonScanner.ExtractJsonObject: takes `JSON.parse` as a parameter, because the parser is the language's; which texts are
  objects is what `JsonGrammar.dfy` says.
- CanonicalJson.CanonicalForm: a number is its text, any number of the grammar, because number formatting is the
  language's; getters and prototypes are outside the values.
- SourceCoverage.AssertionMeans: takes opinions as maps from unresolved ids, because the TypeScript code sorts ids by
  locale and could keep the order of two ids that its locale does not tell apart.
- SourceCoverage.ValidateHistory: takes the checks on the content of one analysis as a recorded outcome, because they look
  at that analysis alone.
- KnowledgeHistory.ValidateHistory: takes the checks on one draft as a recorded outcome, for the same reason.
- The reference checks between a review and its body, and between an association and its body: checks of one value against
  another without history.
- The promise machinery under the keyed mutex: a call may go on once the promise it awaits is resolved; that the runtime
  lets it go on is not modelled.
- What a failing native writer leaves in the file; the dispatch count and the cancelled flag that an attempt also states.
- The message text of errors, and which of several failing checks is reported.
- Command lines, servers, the documentation site, evaluation, settings and tags.
