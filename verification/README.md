# A verified model of the self-evolution core

This project models the parts of the repository whose correctness depends on every interleaving, every crash point
or every input, and proves what they keep. Each component is a module (or a few); loops and objects of the source
are Dafny methods and classes proved against functions on values, and the results about runs are lemmas on those
functions.

* **Event log** (`EvolutionEvents`, `EventSteps`, `EventRuns`, `EventConservation`, `EventRestored`,
  `EventRefinement`, `EventLog`). The directory is an active body, a map of numeric archives and the bands shifted aside. An append is a list of
  durable writes (band, removals, active body); a crash stops it after any prefix. Runs also contain files lost or
  damaged from outside and active files put back to any body they had before.
* **Approval protocol** (`Approval`, `ApprovalRuns`, `ApprovalService`). Calls of any number of processes move
  between their awaits over one shared store; processes crash and restart, also under the same pid. Local lemmas say
  what one stretch does to its own record and to other holders; the invariant lifts them to every run.
* **Durable writing** (`AtomicInstall`, `WriteQueue`, `TmpName`). The multi-file install runs over a file system in
  which every operation may fail and every intermediate disk is recorded. The per-path promise chain is a state
  machine over callbacks, with staging, sweeping and renames inside the tasks.
* **Fuzzy patching** (`FuzzyMatch`), **lifecycle engine and view** (`Curator`), **extraction** (`Sections`,
  `ExtractPlan`, `MovedText`, `Rehoming`), **settings migration** (`NamespaceMigration`,
  `MigrationPlan`), **frontmatter** (`Frontmatter`), **command line** (`CommandParse`), **async resource**
  (`AsyncResource`), **untrusted text** (`FoldUntrusted`).

Where a promise does not hold of the code, the model keeps the code, a lemma shows an input on which it fails, and
another says exactly when it holds:

* a rotation after an active file was rolled back can make a younger archive shadow an event readers saw
  (`RotationConservesIff`, `RestoredFileLosesAnEvent`);
* a backup left from an older generation is what a failed install restores and what a crash can leave alone on disk
  (`ThrowKeepsOldOrNewIff`, `ThrowsOverThirdContent`, `CrashKeepsOldOrNew`, `LosesOldAndNew`);
* a request for a whole section after one for a block of it is granted, and the block's lines are in both parts,
  although the selection's comment says a selection cannot overlap another (`OneHomeIffDisjoint`,
  `RetakenLineIsDoubled`);
* two blocks of one section are parts under one heading, and the map that carries rewritten texts keeps only the
  last (`MovesOwnTextIff`, `FirstBlockIsLost`);
* a support file that keeps its path does not claim it, so a renamed one can land on it
  (`DistinctDestinationsIff`, `TwoFilesOneDestination`);
* a legacy section that spells one key twice, under its old and its current name, loses the first value without a
  report (`SettingLandsIff`, `OldSpellingIsLost`);
* a listener that throws while it is told of a success makes the resource go back to what it showed before
  (`DataIsDroppedIff`, `SuccessIsLost`);
* a quality warning can bring a stale, never loaded record back to active (`WarningIsEarlierIff`,
  `WarningReactivates`);
* the greedy matcher misses a tab escape behind a blank run and a trailing blank at the end of the content
  (`GreedyDecidesIff`, `GreedyMisses`).

Operations the model cannot see are parameters: which file operation fails, what other calls do at an await, what a
runner, a loader, a listener, the YAML parser or a reference rewriter answers, which processes are alive, the clock.

## Model

| member | source | states |
|---|---|---|
| `EventRuns.NumbersAreFreshOnEveryRun` | packages/evolution-core/src/evolution-events.ts:270-292 | In every run of appends, crashes, lost files and restored active files, the number an append assigns is at least 1 and above every number then on disk. |
| `EventSteps.AssignedIsFresh` | packages/evolution-core/src/evolution-events.ts:286-290 | The same for any directory in which archive `k` holds nothing above `k` and the active file ascends. |
| `EventRuns.RunsAreSound` | packages/evolution-core/src/evolution-events.ts:323-389 | That invariant (active strictly ascending, archive `k` bounded by `k`) survives rotation, merge, pruning, crashes between any two writes, and outside damage. |
| `EventRuns.CopiesAgreeOnRuns` | packages/evolution-core/src/evolution-events.ts:323-389 | Without restored active files, two copies of one number on disk never differ. |
| `EventRuns.TimelineIsConserved` | packages/evolution-core/src/evolution-events.ts:323-389 | Along such runs one append, cut after any number of its writes, gives the timeline at most the new event and takes from it only what retention removed or an unparsable collision set aside. |
| `EventSteps.AppendStep` | packages/evolution-core/src/evolution-events.ts:219-298 | One append from any sound directory with agreeing copies: sound and agreeing after every prefix of its writes, with the same account of gains and losses. |
| `EventRuns.ActiveStaysBounded` | packages/evolution-core/src/evolution-events.ts:323-339 | For one rotation threshold of at least 2 the active file never holds more events than the threshold, over every run from empty. |
| `EventSteps.RetentionKeepsNewest` | packages/evolution-core/src/evolution-events.ts:398-405 | Retention removes only listed archives, each with a smaller number than ten that stay. |
| `EventSteps.RetentionLeavesTen` | packages/evolution-core/src/evolution-events.ts:398-405 | And if none of its removals fails, at most ten archives are left. |
| `EventSteps.RotationLeavesTen` | packages/evolution-core/src/evolution-events.ts:387-405 | So after every rotating append whose removals succeed. |
| `EventSteps.SplitFacts` | packages/evolution-core/src/evolution-events.ts:331-339 | A due rotation splits the active events in two non-empty halves and names the archive between them. |
| `EvolutionEvents.MergeIsUnion` | packages/evolution-core/src/evolution-events.ts:340-378 | A collision merge holds the union of both bands in ascending order, and on equal numbers the head wins. |
| `EvolutionEvents.TimelineIsHeld` | packages/evolution-core/src/evolution-events.ts:462-527 | The published timeline has an event for exactly the numbers some readable file holds, and shows only events some file holds. |
| `EventSteps.ReadableIs` | packages/evolution-core/src/evolution-events.ts:462-506 | A reader takes from a file exactly its records, and nothing from one it calls malformed or that has no events. |
| `EventSteps.RefusedIff` | packages/evolution-core/src/evolution-events.ts:253-276 | An append is refused if and only if the active file is unreadable, does not parse or is of another version, or a due rotation would have to rewrite an archive that is; the first three for their own reason. |
| `EventSteps.ForeignArchivesStay` | packages/evolution-core/src/evolution-events.ts:340-378 | Whatever an append writes and wherever it stops, an archive that cannot be read or parsed, is of another version or has no events is as it was, unless retention removed it. |
| `EventConservation.RotationConservesIff` | packages/evolution-core/src/evolution-events.ts:323-405 | Beyond the bands its pruning removes, a rotation conserves the timeline if and only if no younger archive that stays holds another event under a moved number. |
| `EventRestored.RestoredFileLosesAnEvent` | packages/evolution-core/src/evolution-events.ts:323-389 | The condition can fail on a run: appends, the active file lost, appends up to a rotation, the old active file put back; the next rotation hides an event readers saw behind a younger archive, with nothing pruned. |
| `EventRestored.RestoredIsReachedBy` | packages/evolution-core/src/evolution-events.ts:219-391 | Every run of that shape, whatever its payloads, reaches a log whose active file and archive hold different events under the same numbers. |
| `EventRefinement.AppendsAreALog` | packages/evolution-core/src/evolution-events.ts:219-298 | Runs of appends and crashes alone refine an append-only log: event `n` is the `n`-th committed payload, nothing else is on disk, and everything above a retention floor is there. |
| `EventRefinement.LogTimeline` | packages/evolution-core/src/evolution-events.ts:508-527 | The timeline of such a directory is exactly that log above the floor. |
| `EventLog.MergeBands` | packages/evolution-core/src/evolution-events.ts:367-378 | The merge loop computes the specified merge. |
| `EventLog.MergeArchives` | packages/evolution-core/src/evolution-events.ts:508-527 | The reader's archive loop computes the merged map of the specification. |
| `EventLog.NextNumber` | packages/evolution-core/src/evolution-events.ts:286-290 | The loop over archive names computes the largest number in use. |
| `EventLog.Log.ListEventArchives` | packages/evolution-core/src/evolution-events.ts:188-198 | Lists exactly the numeric archives, each once, in ascending order of their numbers. |
| `EventLog.Log.RetainEventArchives` | packages/evolution-core/src/evolution-events.ts:398-405 | Leaves the directory as the specified removals do, and writes nothing else. |
| `EventLog.Log.RotateIfDue` | packages/evolution-core/src/evolution-events.ts:323-389 | Refuses without a write, or performs exactly the planned writes in order and hands on the tail. |
| `EventLog.Log.AppendTask` | packages/evolution-core/src/evolution-events.ts:219-290 | One run of the task: whatever an earlier run left in the captured variables, they name the number it assigned, or none and the reason it refused. |
| `EventLog.Log.AppendEvolutionEvent` | packages/evolution-core/src/evolution-events.ts:219-298 | Even when the lock layer reruns the task over the same captured variables, a returned number means the last attempt committed exactly that event; it is refused if and only if the body that attempt found is malformed or a due rotation is blocked by an archive it may not rewrite, and then that body is left as found. |
| `EventLog.Log.ReadEvolutionTimeline` | packages/evolution-core/src/evolution-events.ts:508-527 | Publishes the specified timeline. |
| `ApprovalRuns.OneRunnerAtATime` | packages/evolution-approval/src/index.ts:663-731 | In every interleaving of approve, reject, expiry and release by any number of processes with crashes, two replay runners in flight on one record are the same call. |
| `ApprovalRuns.RunsKeep` | packages/evolution-approval/src/index.ts:447-606 | The protocol invariant holds in every reachable state: claims name the call that minted them, at most one call holds a record, a checked release names no live holder. |
| `ApprovalRuns.NoSecondRunnerUnlessFreed` | packages/evolution-approval/src/index.ts:663-781 | A call about to start a runner, or inside one, on a record whose replay landed is there only because an operator released it since. |
| `ApprovalRuns.EveryReplayIsReleased` | packages/evolution-approval/src/index.ts:505-557 | Over a whole run the successful replays of a record exceed the operator releases by at most one. |
| `ApprovalRuns.ReplayedAtMostOnce` | packages/evolution-approval/src/index.ts:687-781 | In a run without release every record is replayed successfully at most once, and no call ever again stands before or inside a runner on it. |
| `ApprovalRuns.ReleaseSparesHolders` | packages/evolution-approval/src/index.ts:505-557 | A claim that passed both release checks never belongs to an approve or reject that still holds the record, although the checks run after an earlier read. |
| `ApprovalRuns.DivergenceIsTheRescue` | packages/evolution-approval/src/index.ts:577-582 | A record that reads rejected although its effect landed was closed by the unclaimed rescue. |
| `ApprovalRuns.RescueCanRace` | packages/evolution-approval/src/index.ts:569-585 | That state is reachable: a run in which the rescue closes a record while its runner is in flight. |
| `ApprovalRuns.ReleaseCanReplay` | packages/evolution-approval/src/index.ts:505-557 | A second replay is reachable: a crash after the effect, then release and approve. |
| `ApprovalRuns.ApprovalIsEarned` | packages/evolution-approval/src/index.ts:687-781 | A record that reads approved was replayed, or is a capability answered without a runner. |
| `ApprovalRuns.ExpiryIsFinal` | packages/evolution-approval/src/index.ts:447-469 | A record the sweep closed stays rejected or evicted in every later step and has no call holding it, then or later. |
| `ApprovalService.EvolutionApproval.DoApprove` | packages/evolution-approval/src/index.ts:663-781 | For any interference at its awaits: the claim is refused exactly if the record was not pending; with a runner that returns ok the effect has landed under the own claim, and anything but applied means the resolve threw or the record was taken away; without one a capability is answered and any other record given back; and what each answer says of the record is true. |
| `ApprovalService.EvolutionApproval.Conclude` | packages/evolution-approval/src/index.ts:747-781 | After the runner returned ok: applied exactly if the resolve did not throw and the record was still the call's own, and then approved under the own claim; a refused resolve means rescued or evicted. |
| `ApprovalService.EvolutionApproval.DoReject` | packages/evolution-approval/src/index.ts:559-606 | A pending record is closed under the own claim, or it was taken away; any other is rescued if it is executing, and otherwise was closed, evicted or never staged; closed and rescued mean rejected. |
| `ApprovalService.EvolutionApproval.Rescue` | packages/evolution-approval/src/index.ts:577-585 | Out of the window exactly if the record was not executing; the rescue reports success on a record it turned to rejected, and settled only on one that is closed or gone. |
| `ApprovalRuns.InFlightIsUnderWay` | packages/evolution-approval/src/index.ts:638-648 | In every run a process's in-flight map holds a key exactly while a deduped call under that key is under way. |
| `ApprovalService.EvolutionApproval.Dedupe` | packages/evolution-approval/src/index.ts:642-648 | Whether it joins or starts, afterwards exactly one call is under way under the key; joining changes nothing. |
| `ApprovalService.EvolutionApproval.Release` | packages/evolution-approval/src/index.ts:505-557 | Given back exactly if the record was executing under a claim, nothing of this process and no live foreign holder stood in the way when it looked, and the claim was still the record's when it gave it up; then it is pending without a claim. |
| `ApprovalService.EvolutionApproval.ExpireOne` | packages/evolution-approval/src/index.ts:455-462 | The sweep closes a record exactly if it could claim it and nobody took it away before the resolve; then it is rejected and marked expired. |
| `ApprovalService.Overdue` | packages/evolution-approval/src/index.ts:447-454 | The sweep goes for exactly the records staged at least the TTL ago, for none without a TTL or with a timestamp that does not parse. |
| `ApprovalService.EvolutionApproval.RecordDecision` | packages/evolution-approval/src/index.ts:652-661 | Saves the resolved record once more under the same claim and status. |
| `TmpName.ClaimIdRoundTrip` | packages/evolution-approval/src/index.ts:36-45 | The pid of a minted claim id reads back, and two claim ids are equal only if pid and token are. |
| `TmpName.PaddedClaimReads` | packages/evolution-approval/src/index.ts:36-45 | The pid of a stored claim id reads back whatever white space stands around it. |
| `AtomicInstall.Install` | packages/evolution-core/src/io.ts:638-753 | Under any faults: every disk the call passes through is one of the named states of each target and loses nothing its predecessor had, nothing outside is touched, the outcome tells the truth, staged files are gone or named. It stops before any target exactly if a staging write or backup copy is refused, succeeds if no first rename is refused either, and a first refusal at one target's rename makes it pass a disk on which that target is gone. |
| `AtomicInstall.CommittedIsExact` | packages/evolution-core/src/io.ts:666-715 | The disclosed committed list is exact: listed targets hold the new content, the failed one is as its error says, all others are untouched. |
| `AtomicInstall.FailureKeepsOldOrNew` | packages/evolution-core/src/io.ts:671-753 | After a throw each target whose backup was not a third content holds its old or its new content; it is missing only if it was, or if its restore failed and the backup holds one of the two. |
| `AtomicInstall.ThrowKeepsOldOrNewIff` | packages/evolution-core/src/io.ts:676-714 | Whatever verdict the throw carries, that holds of its target if and only if the backup found there was not a third content. |
| `AtomicInstall.ThrowsOverThirdContent` | packages/evolution-core/src/io.ts:693-713 | With any other backup there is an install, two renames refused and all else succeeding, that throws and leaves the third content at the target, neither old nor new. |
| `AtomicInstall.CrashKeepsOldOrNew` | packages/evolution-core/src/io.ts:658-730 | Every state a crash can leave an existing target in holds the old or the new content, there or in its backup, if and only if the backup found there was not a third content. |
| `AtomicInstall.EveryMomentKeepsOldOrNew` | packages/evolution-core/src/io.ts:638-753 | With such a backup, every moment of an install under any faults keeps the old or the new content. |
| `AtomicInstall.LosesOldAndNew` | packages/evolution-core/src/io.ts:671-690 | With any other backup there is an install, all operations succeeding but one rename, that passes a moment at which neither is left. |
| `AtomicInstall.InstallRounds` | packages/evolution-core/src/io.ts:638-753 | Over any sequence of installs under any faults, between any two moments no target has vanished from both places and no backup is gone, and no content appears that nobody put there. |
| `AtomicInstall.Commit` | packages/evolution-core/src/io.ts:666-715 | Commits target by target; on failure the list holds exactly the targets before the failed one. |
| `AtomicInstall.RemoveThenRename` | packages/evolution-core/src/io.ts:674-714 | Remove, rename, restore: leaves the target installed, or in the state its verdict names, and the verdict is determined by which of the three operations is refused and whether there is a backup. |
| `AtomicInstall.Refresh` | packages/evolution-core/src/io.ts:723-730 | After a full commit every backup is the new content, except those it names, and it names exactly those whose copy was refused. |
| `AtomicInstall.CleanUp` | packages/evolution-core/src/io.ts:739-752 | Every staged file is gone or named, exactly the refused removals are named, and no target moves. |
| `WriteQueue.TasksNeverOverlap` | packages/evolution-core/src/io.ts:422-433 | In every interleaving of callbacks two tasks on one path are never under way together, whichever tasks reject and whenever map entries are dropped. |
| `WriteQueue.ContentIsTheFold` | packages/evolution-core/src/io.ts:422-526 | The content of a path is always its first content with the applied calls folded over it in the order in which they entered the path's chain. |
| `WriteQueue.StagedFileIsThere` | packages/evolution-core/src/io.ts:444-466 | A staged file is still there when its rename comes: no sweep of this process takes it. |
| `WriteQueue.SweepSparesTheLiving` | packages/evolution-core/src/io.ts:454-464 | No sweep takes the staged file of another live process, however old it is. |
| `WriteQueue.SweepTakesLeftovers` | packages/evolution-core/src/io.ts:453-464 | A sweep does take this process's own leftovers of the path, and an aged one of a dead process. |
| `WriteQueue.RunsKeep` | packages/evolution-core/src/io.ts:422-526 | The queue invariant over every run: tails are latest, nothing starts before everything earlier on its path has settled, what a task acts on is current. |
| `WriteQueue.NodeIo.InProcessWrite` | packages/evolution-core/src/io.ts:422-427 | A call becomes the new tail of its path's chain, and its task cannot start while any earlier call on the path has not settled. |
| `WriteQueue.NodeIo.Finally` | packages/evolution-core/src/io.ts:428-432 | The tail is dropped only if no later call took its place; whoever comes next still queues behind every call that has not settled. |
| `WriteQueue.NodeIo.Transact` | packages/evolution-core/src/io.ts:503-526 | Whatever other calls do at its awaits, a task takes its path from what it found to its verdict on that, in one piece, or leaves it alone; it takes effect exactly if it keeps, or removes and the removal is not refused, or replaces and neither operation is refused and its staging name was unused when it came to stage. |
| `WriteQueue.NodeIo.Conclude` | packages/evolution-core/src/io.ts:515-526 | It takes effect exactly when the task did not reject and no operation it needed failed. |
| `TmpName.MakeParses` | packages/evolution-core/src/io.ts:282-309 | The sweep's parser inverts the staging-name builder for every target name without a line terminator, and only for those. |
| `TmpName.ParseIsMatch` | packages/evolution-core/src/io.ts:453-455 | The parser answers exactly the one decomposition the pattern describes, if there is one. |
| `FuzzyMatch.GreedySound` | packages/evolution-core/src/fuzzy-match.ts:9-46 | A span the greedy matcher returns satisfies the declarative match relation. |
| `FuzzyMatch.ExactIsGreedy` | packages/evolution-core/src/fuzzy-match.ts:9-46 | Every exact occurrence is a greedy match at the same start, reaching further only over trailing blanks. |
| `FuzzyMatch.GreedyDecidesIff` | packages/evolution-core/src/fuzzy-match.ts:9-46 | For every pattern: the matcher decides the declarative relation at every start of every text if and only if the pattern ends on a solid character and has no tab escape behind a blank run; for usable patterns also over starts inside the text only. |
| `FuzzyMatch.TrapsBreakOff` | packages/evolution-core/src/fuzzy-match.ts:19-44 | Any other pattern misses the shortest text it describes. |
| `FuzzyMatch.GreedyMisses` | packages/evolution-core/src/fuzzy-match.ts:9-46 | Both traps at their smallest: inputs that match declaratively and are missed. |
| `FuzzyMatch.GreedyConsumes` | packages/evolution-core/src/fuzzy-match.ts:69-86 | A match of a pattern with a solid character consumes at least one character. |
| `FuzzyMatch.TolerantStartsNoLater` | packages/evolution-core/src/fuzzy-match.ts:88-127 | The tolerant scan never starts later than the exact one. |
| `FuzzyMatch.FirstMatchMoves` | packages/evolution-core/src/fuzzy-match.ts:101-125 | A match depends only on the text from its start: moving the text moves the match. |
| `FuzzyMatch.SpansAreLeftmost` | packages/evolution-core/src/fuzzy-match.ts:69-86 | The replaced spans are ordered, disjoint, non-empty, and each is the first match after the one before. |
| `FuzzyMatch.FuzzyIndexOf` | packages/evolution-core/src/fuzzy-match.ts:9-46 | The nested loops compute the first match. |
| `FuzzyMatch.FuzzyReplace` | packages/evolution-core/src/fuzzy-match.ts:69-86 | The loop that rescans the string it rewrites returns the splice of the original text, and gives up exactly when the charged work passes the budget. |
| `FuzzyMatch.WorkIs` | packages/evolution-core/src/fuzzy-match.ts:69-86 | The work charged is the length of the pattern times that of the text as it then is, summed over the rounds: one for a single replacement; for all of them one per match and one that finds nothing. |
| `Text.TrimTakes` | packages/evolution-core/src/fuzzy-match.ts:54-60 | Trimming takes white space off both ends, all of it, and nothing else. |
| `FuzzyMatch.FuzzyPatch` | packages/evolution-core/src/fuzzy-match.ts:88-127 | A pattern that occurs exactly is always patched there. Without an occurrence the trimmed pattern is used if it matches somewhere, else the given one; the answer is its replacement, or nothing if neither matches, the pattern is only white space, or the work is over budget. |
| `FuzzyMatch.PatchKeepsGaps` | packages/evolution-core/src/fuzzy-match.ts:101-125 | Original and patched text are woven from the same gaps: nothing outside a match moves and no inserted copy is rescanned. |
| `FuzzyMatch.IdentityPatch` | packages/evolution-core/src/fuzzy-match.ts:88-127 | Replacing every match by its own text changes nothing. |
| `Curator.EngineStaysInScope` | packages/evolution-core/src/curator.ts:377-507 | Every name with a transition is managed, and not exempted, in the scope view of the same inputs. |
| `Curator.BucketsAgree` | packages/evolution-core/src/curator.ts:377-422 | Managed and exempted are disjoint, a managed name is protected only if bundled, the watch lists are parts of the managed list, exempted and protected are disjoint. |
| `Curator.ViewIsPerRecord` | packages/evolution-core/src/curator.ts:377-422 | A name is in each bucket if and only if its record meets that bucket's condition. |
| `Curator.SecondPassIsIdle` | packages/evolution-core/src/curator.ts:424-507 | A second pass at the same instant yields no transition and changes no record, for any thresholds. |
| `Curator.ListsMatchStates` | packages/evolution-core/src/curator.ts:424-507 | A record ends in a state it did not begin in exactly when its name is on that state's result list. |
| `Curator.OneTransitionPerName` | packages/evolution-core/src/curator.ts:424-507 | At most one transition per name. |
| `Curator.TransitionsAre` | packages/evolution-core/src/curator.ts:436-505 | The transitions are exactly the records that move, with where from and where to. |
| `Curator.ArchiveBoundWins` | packages/evolution-core/src/curator.ts:467-498 | From either state a candidate ends archived if and only if it is not deferred and idle for the archive bound, however the bounds are ordered. |
| `Curator.IdleIsSinceLatest` | packages/evolution-core/src/usage.ts:395-419 | Idle time is measured from the latest of the three activity stamps, from creation only without any, and is zero without that. |
| `Curator.RecentlyActiveIsKept` | packages/evolution-core/src/curator.ts:443-470 | A record used, viewed or patched less than the archive bound ago is not archived, whenever it was created. |
| `Curator.PassDecides` | packages/evolution-core/src/curator.ts:333-356 | By the record's own fields: one that is not pinned, protected, gated, archived, unmanaged or too fresh to judge ends archived, stale or active by its idle time alone, wherever it was; any other stays. |
| `Curator.PassChangesOnly` | packages/evolution-core/src/curator.ts:424-507 | A pass changes nothing of a record but its life, and the stamp of one it archives. |
| `Curator.WarningIsEarlierIff` | packages/evolution-core/src/curator.ts:443-505 | For every configuration: a warn flag leaves a candidate in an earlier state exactly under the stated condition on idle time and deferral. |
| `Curator.WarningReactivates` | packages/evolution-core/src/curator.ts:443-505 | Such a record: stale, never loaded, ten days old; a warning makes it active. |
| `Curator.WarningNeverHelpsActive` | packages/evolution-core/src/curator.ts:443-505 | With a warned window no longer than the ordinary one a warning never helps an active record, and helps a stale one exactly when it was deferred. |
| `Curator.UsageRecord.Transit` | packages/evolution-core/src/curator.ts:439-505 | The loop body turns the record in place into what the pass makes of it and reports the transition. |
| `Curator.ComputeLifecycleTransitions` | packages/evolution-core/src/curator.ts:424-507 | The pass mutates every record as specified and fills the four lists with the transitions that happened, in map order. |
| `Curator.ComputeScopeView` | packages/evolution-core/src/curator.ts:377-422 | The loop computes the view and changes no record. |
| `Sections.H2Sections` | packages/evolution-core/src/document-body.ts:78-93 | The scan loops compute the specified sections. |
| `Sections.TitleIs` | packages/evolution-core/src/document-body.ts:82-84 | A line has a title if and only if it is two hashes, white space, some text of one line, and white space; its title is that text, trimmed. |
| `Sections.ScanIsScanned` | packages/evolution-core/src/document-body.ts:78-93 | Sections lie in the body in order, do not touch, begin at their heading and hold no boundary inside. |
| `Sections.ScanFindsAll` | packages/evolution-core/src/document-body.ts:78-93 | Every titled heading has its section. |
| `Sections.SelectionIs` | packages/evolution-core/src/section-selection.ts:39-92 | In a granted selection every section comes from the only row of its title, and two overlap exactly when a later request takes whole what an earlier one took a block of. |
| `Sections.GrantedIff` | packages/evolution-core/src/section-selection.ts:46-90 | A request is granted if and only if exactly one section has its title and offers what it asks for: a body to move whole, or both anchors exactly once, in order, on lines no earlier request took. |
| `Sections.SelectSections` | packages/evolution-core/src/section-selection.ts:39-92 | The loops decide every request as specified, up to the first refusal, with that property of the result. |
| `ExtractPlan.WalkPoints` | packages/evolution-core/src/extract-plan.ts:216-233 | The rebuild emits the lines before the first section, the pointer once, then exactly the uncovered lines in order. |
| `ExtractPlan.OneHomeIffDisjoint` | packages/evolution-core/src/extract-plan.ts:196-233 | Every body line ends in exactly one of the residual or one part, if and only if no two sections overlap. |
| `ExtractPlan.PlanBody` | packages/evolution-core/src/extract-plan.ts:184-236 | A granted plan cuts the body that way, the lines that stay in their order, and is conservative if and only if no request retakes an earlier block. It is refused exactly if the selection is, if nothing is asked for, or if no line that stays counts as content; the empty-parent refusal is never given. |
| `ExtractPlan.ContentIs` | packages/evolution-core/src/extract-plan.ts:234-236 | A line that stays counts as content if it is not the pointer and its first visible character is no hash. |
| `ExtractPlan.RetakenLineIsDoubled` | packages/evolution-core/src/section-selection.ts:53-59 | Conservation can fail: on every body of one section of two lines a block and then its whole section are both granted, and the block's line ends in two places. |
| `ExtractPlan.BodyIsOneSection` | packages/evolution-core/src/section-selection.ts:30-44 | There are such bodies. |
| `ExtractPlan.Rebuild` | packages/evolution-core/src/extract-plan.ts:224-232 | The index-jumping loop computes the specified walk. |
| `Rehoming.PlanRehoming` | packages/evolution-core/src/reference-rewrite.ts:62-89 | The loop gives every support file its specified destination and reports the renamed files, in order. |
| `Rehoming.DestinationIsNew` | packages/evolution-core/src/reference-rewrite.ts:68-86 | A destination is always new to the target, and a file is renamed exactly when its own path has been claimed. |
| `Rehoming.DestinationsMeetIff` | packages/evolution-core/src/reference-rewrite.ts:67-88 | Two distinct files share a destination if and only if the earlier one keeps its path and the later one is renamed with that path as its first free try. |
| `Rehoming.DistinctDestinationsIff` | packages/evolution-core/src/reference-rewrite.ts:67-88 | So all distinct files get distinct destinations if and only if no file is renamed onto an earlier file that was left in place. |
| `Rehoming.DistinctDestinations` | packages/evolution-core/src/reference-rewrite.ts:67-88 | In particular when the earlier file's path is no name tried for the later one. |
| `Rehoming.TwoFilesOneDestination` | packages/evolution-core/src/reference-rewrite.ts:68-86 | The landing happens: two source files of one plan get the same destination. |
| `Rehoming.Free` | packages/evolution-core/src/reference-rewrite.ts:79-84 | The search for a free name ends, at the first free one. |
| `Rehoming.SplitSupport` | packages/evolution-core/src/extract-plan.ts:113-164 | Moved files are partitioned into shared and exclusive by what the residual cites, so the refusal for a cited exclusive file is unreachable. |
| `MovedText.MoveTexts` | packages/evolution-core/src/extract-plan.ts:144-161 | The two loops give every part the text the map holds under its heading. |
| `MovedText.SplitJoins` | packages/evolution-core/src/extract-plan.ts:223-233 | Splitting a text into lines and joining them gives the text back, and no line holds a line feed. |
| `MovedText.JoinSplits` | packages/evolution-core/src/extract-plan.ts:223-235 | Any lines without line feeds, at least one, are found again in the text they are joined to. |
| `MovedText.MovesOwnTextIff` | packages/evolution-core/src/extract-plan.ts:144-161 | Every part moves its own rewritten text, if and only if no two parts under one heading differ in theirs. |
| `MovedText.TwoBlocksAreGranted` | packages/evolution-core/src/section-selection.ts:61-90 | On every such body its two lines are granted as two disjoint blocks, so two parts can share a heading. |
| `MovedText.FirstBlockIsLost` | packages/evolution-core/src/extract-plan.ts:144-161 | The first of the parts so granted then moves the second one's text; unless both rewrite to the same, its own line is lost. |
| `NamespaceMigration.StoredValuesWin` | packages/evolution-core/src/namespace-migration.ts:205-266 | A key a row already sets is never changed, whether the run ends or dies after any number of updates. |
| `NamespaceMigration.SecondRunWritesNothing` | packages/evolution-core/src/namespace-migration.ts:205-266 | A second run has nothing to write and changes nothing. |
| `NamespaceMigration.RunLeaves` | packages/evolution-core/src/namespace-migration.ts:205-266 | After a run a served row sets exactly the keys it set before, unchanged, and the keys the plan asked for; a new key has the last value the plan carries for it. |
| `NamespaceMigration.ResumeIsOneRunIff` | packages/evolution-core/src/namespace-migration.ts:253-266 | For any list of entries, dying after any number of updates and running again ends where one run ends, if and only if no two writes bring different values for one key of one row. |
| `MigrationPlan.ResumeIsOneRun` | packages/evolution-core/src/namespace-migration.ts:91-118 | For the plan of any document that condition holds: a run that dies after any number of updates and is run again ends where one run ends. |
| `MigrationPlan.PlansNameRowsOnce` | packages/evolution-core/src/namespace-migration.ts:91-118 | The plan of a document has at most one entry per row. |
| `MigrationPlan.OwnersHaveOneSection` | packages/evolution-core/src/params.ts:363-367 | The table of renamed rows gives no row two legacy sections, because each owner is listed once. |
| `MigrationPlan.DocumentIsMoved` | packages/evolution-core/src/namespace-migration.ts:91-118 | After a run a served row sets what it set before, unchanged, and exactly the writable keys the document held for it; a new key has the value of its section's last setting for it. |
| `MigrationPlan.SettingLandsIff` | packages/evolution-core/src/namespace-migration.ts:103-112 | A setting for an unset key of a served row lands with its value if and only if the last setting of its section that spells the same key has that value too. |
| `MigrationPlan.OldSpellingIsMoved` | packages/evolution-core/src/namespace-migration.ts:103-112 | A key under its old name alone is moved to its current name. |
| `MigrationPlan.OldSpellingIsLost` | packages/evolution-core/src/namespace-migration.ts:103-112 | Such a loss: a key under its old and its current name with two values; only the second lands. |
| `MigrationPlan.HandMadePlanDiverges` | packages/evolution-core/src/namespace-migration.ts:253-266 | Only a list no document gives can end elsewhere: two entries for one row with different values for one key. |
| `MigrationPlan.PlanNamespaceMigration` | packages/evolution-core/src/namespace-migration.ts:91-118 | The loops refuse exactly the documents with a family section that is no mapping; otherwise they plan the specified entries, skip exactly the keys no row takes, and name the sections with nothing to move. |
| `NamespaceMigration.PendingIsWhatARunAdds` | packages/evolution-commands/src/migration.ts:151-164 | The report's pending keys are exactly the keys the next run adds. |
| `NamespaceMigration.Classify` | packages/evolution-core/src/namespace-migration.ts:205-240 | The loops decide the specified writes and account for every carried value: in a write with that value, overwritten by the entry's last one for its key, kept, overruled or refused; the kept and conflicting lists name only what the rows hold. |
| `NamespaceMigration.Settings.ApplyNamespaceMigration` | packages/evolution-core/src/namespace-migration.ts:253-266 | The run performs the decided writes in order, or a prefix of them when it dies, and nothing else. |
| `NamespaceMigration.Choose` | packages/evolution-commands/src/migration.ts:79-95 | The loop settles for the first document with something to move, else the first that exists. |
| `NamespaceMigration.ChosenIs` | packages/evolution-commands/src/migration.ts:79-95 | That is the first document with something to move, whatever stands before it; without one the first that exists. |
| `Frontmatter.NormalizationIsIdempotent` | packages/evolution-core/src/frontmatter.ts:465-537 | A normalized file has nothing left to normalize and its block ends on the same line, whatever the parser says. |
| `Frontmatter.BlockIs` | packages/evolution-core/src/frontmatter.ts:62-85 | The block is the file's if and only if its first line is a fence; it ends at the next one. |
| `Frontmatter.BytesAreKept` | packages/evolution-core/src/frontmatter.ts:465-537 | Outside the block and on unflagged lines every byte stays; a flagged line keeps its key and CR, and its value reads back as what it was. |
| `Frontmatter.AuditFindsNothing` | packages/evolution-core/src/frontmatter.ts:132-143 | A normalized block has no entry left for the audit to flag. |
| `Frontmatter.QuotedDecodes` | packages/evolution-core/src/frontmatter.ts:499-501 | Whichever quoting is chosen, the scalar reads back as the original value under sections 7.3.1 and 7.3.2 of YAML 1.2. |
| `Frontmatter.NormalizeFrontmatter` | packages/evolution-core/src/frontmatter.ts:465-537 | Any issue refuses the whole rewrite, a rewrite that does not verify is rolled back, otherwise exactly the flagged entries are quoted. |
| `Frontmatter.RewrittenIff` | packages/evolution-core/src/frontmatter.ts:465-537 | A file is rewritten if and only if no key of the block is there twice, no value to be quoted holds a control character, some value is flagged, and the rewrite verifies; otherwise it stays, refused for the first two and for a rewrite that does not verify. |
| `Frontmatter.RewriteBlock` | packages/evolution-core/src/frontmatter.ts:478-508 | The loop finds the specified issues and rewrites the specified lines. |
| `Frontmatter.UnsafeEntries` | packages/evolution-core/src/frontmatter.ts:132-143 | The audit loop lists the flagged entries. |
| `Frontmatter.PlainScalarRuleSpares` | packages/evolution-core/src/frontmatter.ts:384-429 | The rule never flags an empty value or one already quoted. |
| `Frontmatter.MustBeQuoted` | packages/evolution-core/src/frontmatter.ts:384-429 | Unless quoted already, a flow collection or a block header, a value is flagged that YAML would read as a mapping or cut at a comment, that begins with an indicator, or that is one of the words or an integer. |
| `Frontmatter.PlainTextIsLeft` | packages/evolution-core/src/frontmatter.ts:384-429 | Text that begins with a letter is flagged exactly if it would be read as a mapping or cut at a comment, or is one of the words. |
| `Frontmatter.WrittenIsJudgedAlike` | packages/evolution-core/src/frontmatter.ts:586-593 | What landed on disk is judged as the text it came from, and landing it again changes nothing. |
| `Frontmatter.AcceptedWritesNeverSwell` | packages/evolution-core/src/frontmatter.ts:590-600 | Along any run of accepted writes the file never grows past both the limit and what it was. |
| `CommandParse.SpelledReadsBack` | packages/evolution-commands/src/parse.ts:68-82 | Tokenizing inverts quoting for any list of non-empty tokens without quotes. |
| `CommandParse.PlainReadsBack` | packages/evolution-commands/src/parse.ts:68-82 | Tokens without quotes and white space are read as they stand, whatever white-space character parts them. |
| `CommandParse.Tokenize` | packages/evolution-commands/src/parse.ts:68-82 | The character loop computes the specified scan. |
| `CommandParse.WrittenItemsReadBack` | packages/evolution-commands/src/parse.ts:117-143 | A line written from well-formed items is read back as those items. |
| `CommandParse.ParsedLinesAreItems` | packages/evolution-commands/src/parse.ts:117-143 | Every line that parses was written from well-formed items; a value flag in spaced form never takes a token that starts with two dashes. |
| `CommandParse.RefusedIff` | packages/evolution-commands/src/parse.ts:138-139 | A line is refused exactly when some value flag behind items that parse is last or followed by a token that starts with two dashes. |
| `CommandParse.OrderAndSpellingDoNotMatter` | packages/evolution-commands/src/parse.ts:117-143 | Lines that set the same flags once each, with the same positionals in order, parse to the same result, however the flags are placed and spelled. |
| `CommandParse.SpacedIsEquals` | packages/evolution-commands/src/parse.ts:130-140 | One flag written with a blank or with an equals sign gives the same result in any line. |
| `CommandParse.ParseSubcommand` | packages/evolution-commands/src/parse.ts:117-143 | The parser answers the meaning of the line's items under the lower-cased name, or its first missing value. |
| `AsyncResource.GenerationsNeverDecrease` | packages/evolution-client-kit/src/async-resource.ts:64-116 | Published generations never decrease, in every interleaving of load, settle, reset and dispose. |
| `AsyncResource.OnlyTheLatestPublishes` | packages/evolution-client-kit/src/async-resource.ts:79-93 | An answer publishes exactly when its read is the latest; otherwise nothing visible changes. |
| `AsyncResource.BeginShows` | packages/evolution-client-kit/src/async-resource.ts:64-78 | A read that begins keeps the data and the failure shown, as refreshing if there is data and as loading if not; after a dispose nothing happens. |
| `AsyncResource.SettledShows` | packages/evolution-client-kit/src/async-resource.ts:79-93 | The latest read's success shows its data and clears the failure; its failure keeps what was shown and names its reason. |
| `AsyncResource.SupersededAreAborted` | packages/evolution-client-kit/src/async-resource.ts:64-110 | In every run exactly the reads that were superseded, reset or disposed have their signal aborted, and no snapshot shows data as loading, a refresh without data, or a failed state without its reason. |
| `AsyncResource.ShowsTheLatestAnswer` | packages/evolution-client-kit/src/async-resource.ts:64-116 | The resource always shows the data of the latest read that succeeded and whose listeners all returned, since the last reset: it refines a machine without snapshots, controllers or signals. |
| `AsyncResource.LatestIsShownIff` | packages/evolution-client-kit/src/async-resource.ts:64-116 | All along a run it shows the data of the latest successful read, listeners or not, if and only if no event of the run drops data. |
| `AsyncResource.DataIsDroppedIff` | packages/evolution-client-kit/src/async-resource.ts:79-93 | Published data stops being shown without a newer success or a reset exactly when a listener throws while it is told of the latest read's success and another value, or none, was shown before. |
| `AsyncResource.SuccessIsLost` | packages/evolution-client-kit/src/async-resource.ts:79-93 | Both ways on a run: a first load falls back to no data, a refresh to the older value. |
| `AsyncResource.Resource.BeginLoad` | packages/evolution-client-kit/src/async-resource.ts:64-78 | The synchronous head of a load: it supersedes the read before it, aborts its signal and publishes the refreshing snapshot, unless disposed. |
| `AsyncResource.Resource.Finish` | packages/evolution-client-kit/src/async-resource.ts:79-93 | The settlement of a read turns the fields into what the specified step makes of them, in each of its guards. |
| `AsyncResource.Resource.ResetNow` | packages/evolution-client-kit/src/async-resource.ts:96-101 | A reset supersedes every read and publishes the blank state. |
| `AsyncResource.Resource.DisposeNow` | packages/evolution-client-kit/src/async-resource.ts:104-110 | A dispose supersedes every read and publishes nothing. |
| `FoldUntrusted.FoldedIsInert` | packages/evolution-core/src/fold-untrusted.ts:42-49 | The output is one line, the head pattern matches nowhere behind a boundary of it, and folding it again with the same limit changes nothing. |
| `FoldUntrusted.ReplacementMarksLines` | packages/evolution-core/src/fold-untrusted.ts:44-47 | The global replacement marks exactly the visual lines that read as structure. |
| `FoldUntrusted.PrefixIsInert` | packages/evolution-core/src/fold-untrusted.ts:48 | A truncation never makes structure. |
| `FoldUntrusted.NothingIsLost` | packages/evolution-core/src/fold-untrusted.ts:42-48 | Without truncation every character of the newline-folded text is still there, in order; only markers were added. |
| `FoldUntrusted.LimitOnlyCuts` | packages/evolution-core/src/fold-untrusted.ts:47 | A positive limit cuts the folded text to at most so many characters and changes nothing else; any other limit does nothing. |
| `FoldUntrusted.HeadIsProper` | packages/evolution-core/src/fold-untrusted.ts:36 | The head pattern looks at one visual line, matches neither blanks nor the marker, and does not match a line cut short that it does not match whole. |
| `FoldUntrusted.HeadIs` | packages/evolution-core/src/fold-untrusted.ts:33-36 | What reads as structure is a label of a letter and at least two more label characters up to its colon, or one of the two evidence tags, and nothing else. |
| `FoldUntrusted.FoldsAt` | packages/evolution-core/src/fold-untrusted.ts:33-42 | A text without line breaks stays as it is; each break, of one character or two, becomes the visible stand-in. |

## Left out

- JSON, dates and payload validation: a body is its records, a damaged entry is one token, an event is its number and
  an opaque payload; `evolutionEventPayloadIssue` and the `at` stamp are not modelled.
- Event numbers are mathematical integers; archive names with leading zeros, fractional numbers and numbers beyond
  2^53 are not modelled, and neither is the pruning of bands set aside.
- Strings are sequences of characters, not of UTF-16 code units; surrogate pairs and case folding beyond ASCII are
  not modelled.
- The real file system, fsync and directory metadata: single operations are atomic except the staging write, which
  may leave anything. A copy that tears its destination is not modelled.
- Liveness probes are truthful, and a pid in use by a foreign process counts as its claim's holder.
- The pending store's own file, its legacy migration and its archive are one transition table; a record that left the
  store may be saved once more by its audit, as in the code, but a legacy copy does not revive.
- Claim ids without a pid, `approval.run`, staging policy and the wording of answers.
- A store call that throws after it took effect, and a runner that throws after its effect landed: an effect counts
  as landed when the runner returns ok.
- ApprovalService.EvolutionApproval.Conclude: reads the record in the step in which its resolve was refused; the
  source lists the rejected records one await later and only words its message by it.
- ApprovalRuns.ReplayedAtMostOnce: counts runners that returned ok; a runner that failed may be tried again, as in
  the code.
- AtomicInstall.Install: promises about contents hold when no target name is another target's staging or backup
  name; for other inputs only the outcome, the untouched rest of the disk and termination are stated.
- WriteQueue.TasksNeverOverlap: a path is a directory and a base name; the source keys its chains by the path as
  written, so two spellings of one path have two chains and their tasks are not kept apart.
- WriteQueue.StagedFileIsThere: likewise promised for one spelling per path; the sweep of a call under another spelling
  looks in the same directory for the same base name and can take the staged file.
- WriteQueue.ContentIsTheFold: the directory is created before a call enters its chain, and two calls may pass that
  await in either order; the order of the calls themselves is not promised.
- WriteQueue.NodeIo.Transact: one process; writers outside it and the symbolic links, modes and quarantine copies of
  the io layer are not modelled. Target names are assumed not to be staging names, which the namespace layer reserves.
- FuzzyMatch.FuzzyReplace: the work is counted by the source's own charge; its relation to character steps is not
  claimed.
- Curator.ComputeScopeView: its lists are sorted in the source and sets here; reasons and rounding of day counts are
  not modelled, and NaN thresholds are excluded by the reals.
- The curator's nomination parser and its report builders.
- ExtractPlan.PlanBody: the owner checks before the selection, byte counts, hashes and the external files are not
  modelled, and the pointer is taken as one line.
- `projectExtractBodies`: header and residual are joined without a separator, so nothing is claimed about its fence.
- `planReferenceRewrite` and `supportRefs` are a rewriting function and lists of references.
- MigrationPlan.PlanNamespaceMigration: starts from the parsed sections of the document; the registry's tables are
  parameters, and the list of sections of other owners is not modelled. Values are compared as their serializations.
- Frontmatter.NormalizeFrontmatter: the verification by the real parser is a parameter; strict and lenient reading
  and `validateFrontmatter` are not modelled.
- CommandParse.ParseSubcommand: lower-cases ASCII letters only.
- AsyncResource.Resource.Finish: a loader that answers `undefined`, and a listener that calls back into the resource
  while it is told, are not modelled.
- Command dispatch, doctor rendering, HTTP routes, panels and tokens: plumbing and text.
