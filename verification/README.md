# Verified models of grouping, scrubbing, sharding and rollout logic

This project models the parts of Sentry whose behaviour is hardest to see from one function at a
time, and proves what they promise over every input, run or interleaving.

- **Group creation** (`GroupCreation`, `GroupCreationSafety`, `GroupCreationAgreement`,
  `GroupCreationSeer`, `GroupCreationAlone`, `GroupCreationRaces`): ingest workers look up the grouphash rows of an event,
  and find, create and link a group with double-checked row locks. The model is a state machine with one step for each
  database statement, any number of workers on either version of the code, stale in-memory rows,
  tombstones, category mismatches, crashes, migrations and merges. `Safety` holds in every run;
  `Agreement` shows that workers on one set of hashes behave as a sequential find-or-create; `Seer`
  says exactly which seer matches outside the lock that allows for; `Alone` follows a worker nobody
  interferes with to its end; `Races` gives the two runs that explain the side conditions.
- **Short ids** (`ShortIds`): the counter of a project, and the repair and single retry when it lags
  behind the ids in use, as methods on the row and as a state machine of racing workers. Creating a
  group for an event runs in a transaction (lines 1472, 1870 and 2997 of `src/sentry/event_manager.py`),
  which holds the counter row until it ends and takes counter and group back when it fails; unmerging
  takes an id outside of one. Workers of both kinds are in the model.
- **Regressions** (`Regressions`): the conditional update with a five second window.
- **Group metadata** (`GroupMetadata`, `GroupWindows`): what the row of a group becomes as events are
  added. Updates wait in a buffer, where the last write of a field wins; `GroupWindows` is about events
  that are flushed together, and says for each field exactly when that is as good as one by one.
- **Crash reports** (`CrashReports`, `CrashReportRaces`): the limit per group, enforced from a cached,
  truncated count, by one worker after the other and by several at once.
- **PII configs** (`PiiConfigs`): merging the configs of an organization and a project by renaming.
  The meaning of a config is what each selector unfolds to, to any depth, so circular references are
  covered.
- **Import tree** (`ImportTree`): recording imports and printing them as a tree.
- **Test shards** (`TestShards`): the greedy allocation of tests to CI nodes, and the plain slicing.
- **Bit fields** (`BitFields`): integers as sets of flags, on unbounded two's complement.
- **Reprocessing** (`Reprocessing`): the swap of two groups, the countdown, and the progress bar.
- **Flagpole and killswitches** (`Flagpole`, `Killswitches`): features as dictionaries and back,
  rollout buckets, and the matching of killswitch conditions.

`Common` has result types and set helpers, `Groups` the states of a group, `Arithmetic` facts about
division. Code that updates state in place is modelled by classes and loops whose contracts name a specification function; the lemmas
beside them say what that function guarantees.

What the code does and a reader may not expect; in each case the model follows the code:

- A rollout of r percent, for r from 1 to 99, grants r + 1 of the 100 buckets, so 99 grants all
  (`Flagpole.RolloutGrants`), although rollouts are described as the number of buckets granted.
- Leftover tests are dealt to four groups whatever the number of nodes; with fewer nodes and more
  leftovers than nodes the allocation raises (`TestShards.EveryTestRunsOnce`,
  `TestShards.LeftoversCanFail`).
- Events that are flushed together all read the same row: last seen can fall behind one of them, first
  seen can stay later than one, a real title can be lost to a placeholder, and the level can be that of an event before the
  last (the witnesses in `GroupWindows`).
- A group without events reads as finished when its reprocessing starts, and the countdown never
  finishes it (`Reprocessing.EmptyGroupIsNeverFinished`).
- Workers that count crash reports at the same time can together go above the limit
  (`CrashReportRaces.TwoWorkersStoreTwo`).
- The older ingest code asks seer under the row locks, the newer one outside of them
  (`GroupCreationRaces.SeerMatchOutsideLockSplits`); the comment on stolen hashes calls the outcome
  very unlikely. `GroupCreationSeer.AgreeExactlyWhenHarmless` says exactly when it does not happen.
- A creation passes over rows locked in a migration, so their hash can get two groups
  (`GroupCreationRaces.MigrationAllowsTwoCreators`).
- A built-in rule name that equals a prefixed rule name is captured by the merge
  (`PiiConfigs.CapturedNameChangesMeaning`).
- Counting down by zero events after the last one triggers finishing again; it is triggered once exactly
  when the last decrement is not empty
  (`Reprocessing.FinishedOnceExactlyWhen`).
- A repair of the short id counter is lost with the transaction it was made in
  (`ShortIds.RolledBackRepairDoesNotStick`); once committed it lasts (`ShortIds.RepairSticks`).
- Text is compared without regard to case, except inside lists that are compared for equality
  (`Flagpole.CaseMattersExactlyInListEquality`).
- A flag whose name starts with an underscore cannot be set by name
  (`BitFields.BitHandler.SetItem`).
- A cached count that bulk deletion left behind makes the limiter refuse reports there is room for
  (`CrashReports.ExactUnlessStale`, `CrashReports.CacheBecomesStale`).
- The mask of a cleared flag reads, once saved, as all the other flags
  (`BitFields.ClearedFlagReadsAsTheOthers`).

The verifier checks the project with `dafny verify dfyconfig.toml`.

## Model

| member | source | states |
|---|---|---|
| `GroupCreation.FindTakesTheFirst` | src/sentry/grouping/ingest/hashing.py:281-299 | the first copy that has a group or a tombstone decides, its group before its tombstone, and nothing is found if and only if no copy has either |
| `GroupCreationAlone.NewEventGetsAGroup` | src/sentry/event_manager.py:1781-1790 | left alone, a worker whose event has hashes that are all new, or not linked and without tombstone, ends by its own steps with a new group, with all hashes that are in no migration linked to it, on both versions of the code |
| `GroupCreationAlone.NewEventGetsSeersGroup` | src/sentry/event_manager.py:1529-1550 | in the older code the group that seer supplies under the lock is taken instead |
| `GroupCreationAlone.KnownEventKeepsItsGroup` | src/sentry/event_manager.py:1826-1846 | left alone, a worker whose search finds a group ends with it and links exactly the hashes it looked up that are not linked and in no migration; for a group of another category it ends without one and links nothing |
| `GroupCreationAlone.TombstoneDiscards` | src/sentry/grouping/ingest/hashing.py:292-297 | left alone, a worker whose search comes to a tombstone first discards the event and links nothing |
| `GroupCreationAlone.RunKeepsTombstones` | src/sentry/event_manager.py:1785-1788 | over any run a row has a tombstone if and only if it had one at the start |
| `GroupCreationAlone.DiscardedOnlyByTombstone` | src/sentry/grouping/ingest/hashing.py:292-297 | so in any run a search discards an event only if one of its hashes had a tombstone at the start |
| `GroupCreationSafety.NextKeepsInv` | src/sentry/event_manager.py:1860-1918 | every step of a worker, a migration or a merge keeps: locked rows belong to one transaction and read as when they were locked, a worker about to create holds all hashes of its event and found none linked, and two creators share only hashes that a migration had locked |
| `GroupCreationSafety.RunKeepsInv` | src/sentry/event_manager.py:1692-1734 | that invariant holds after every interleaving from the start |
| `GroupCreationSafety.LocksExcludeAndFreeze` | src/sentry/event_manager.py:1883-1897 | after any run no row is locked by two workers, and rows a worker holds are as they were when it locked them |
| `GroupCreationSafety.AtMostOneCreatorPerHash` | src/sentry/event_manager.py:1867-1909 | if two workers both answer that their group is new and their events share a hash, that hash was locked in a migration at some moment of the run |
| `GroupCreationSafety.SkippedWasInMigration` | src/sentry/grouping/ingest/utils.py:36-40 | a hash that a creation passed over was locked in a migration at some moment of the run |
| `GroupCreationSafety.LinkedStaysLinked` | src/sentry/event_manager.py:1797-1846 | a hash linked at any moment of a run is linked at every later one |
| `GroupCreationAgreement.RunAgrees` | src/sentry/event_manager.py:1700-1734 | with one shared, at most uniformly linked set of hashes, no migration or move of it, and links outside the lock that find it unlinked or linked to their group: after any run the set is still linked to at most one group, and every worker that found a group or ended with one has that one |
| `GroupCreationAgreement.SameGroupForAll` | src/sentry/event_manager.py:1887-1918 | then all workers that end with a group end with the same one, every hash they looked up is linked to it, and at most one says it is new |
| `GroupCreationAgreement.NextKeepsLinks` | src/sentry/event_manager.py:1809-1825 | no step of such a run moves a hash of the set from one group to another |
| `GroupCreationAgreement.NoHashMoves` | src/sentry/event_manager.py:1809-1825 | a hash of the set linked to a group at any moment of such a run is linked to that group at every later one |
| `GroupCreationAgreement.NextRefines` | src/sentry/event_manager.py:1867-1918 | step simulation for such runs: the step in which a worker ends with a group is one sequential find-or-create with that answer, new exactly when the step created it; every other step leaves the group of the set as it is |
| `GroupCreationAgreement.RunRefines` | src/sentry/event_manager.py:1692-1734 | the answers of any such run, in the order the workers end, are those of a sequential find-or-create: the group there was, or the first answer, created or supplied by seer, and then that group, no longer new, for everyone; the rows end linked to it |
| `GroupCreationRaces.MigrationAllowsTwoCreators` | src/sentry/event_manager.py:1546-1548 | a run in which a hash locked in a migration is passed over and two workers each create a group for it |
| `GroupCreationAgreement.SeerLinkKeepsExactlyWhen` | src/sentry/event_manager.py:1725-1728 | a worker that asked seer links the whole set to the matched group, and this moves no hash if and only if the set is by then still unlinked, or linked to that group |
| `GroupCreationSeer.SeerIsAskedOfUnlinked` | src/sentry/event_manager.py:1705-1723 | after any run, a worker of the newer code that takes a seer match has looked up all hashes of its event and read all of them as not linked |
| `GroupCreationSeer.QuietRunsAreHarmless` | src/sentry/event_manager.py:1797-1828 | without seer matches outside the lock every link outside the lock finds the set linked to its group, so the results about agreement hold of all such runs |
| `GroupCreationSeer.AgreeExactlyWhenHarmless` | src/sentry/event_manager.py:1809-1825 | in any run without migrations and moves of the set, with seer matches wherever they come, the workers that end with a group end with the same one if and only if every link outside the lock found the set unlinked or linked to its group |
| `GroupCreationRaces.SeerMatchOutsideLockSplits` | src/sentry/event_manager.py:1723-1729 | a run of the newer code in which a seer match, linked outside the lock, takes a hash away from the group just created for it, so that the two workers end with different groups |
| `ShortIds.Project.NextShortId` | src/sentry/models/counter.py:38-85 | an add that returns the new value, as the transaction around it sees it, or an error and no change for a step that is not upwards |
| `ShortIds.Project.Insert` | src/sentry/event_manager.py:1978-1991 | inserting fails exactly when the short id is taken |
| `ShortIds.Project.MaxShortId` | src/sentry/event_manager.py:2061-2064 | the largest short id in use |
| `ShortIds.Project.HandleStuckCounter` | src/sentry/event_manager.py:2046-2081 | the id handed out and the counter after it, in terms of the counter before and the largest id in use |
| `ShortIds.Project.CreateGroup` | src/sentry/event_manager.py:1978-2011 | wherever the counter stood, one new id is taken: the next one if it is free, else one more than the largest in use; the counter ends at it |
| `ShortIds.NextIdIsUsed` | src/sentry/event_manager.py:1978-1986 | left alone, a worker in a transaction or outside of one creates its group under the next id if that is free, and with the commit the counter stands at it for everyone |
| `ShortIds.StuckCounterIsRepaired` | src/sentry/event_manager.py:1989-2006 | left alone with a counter that lags behind, it conflicts once, repairs, and creates its group under the id after the largest in use, where the counter then stands for everyone |
| `ShortIds.NextKeepsInv` | src/sentry/event_manager.py:1978-2011 | every step of any worker, in a transaction that holds the counter row or outside of one, rollbacks included, keeps: ids in use are distinct, at most the counter, and at most the committed counter unless their worker holds it; a reissued one exceeds all that the maximum was taken over; a used id is an older one or that of its creator |
| `ShortIds.RunKeepsInv` | src/sentry/event_manager.py:1867-1909 | that invariant holds after every interleaving, with deletions, commits and failures that take counter and group back |
| `ShortIds.RetryNeverCollides` | src/sentry/event_manager.py:1993-2011 | with a counter arbitrarily far behind and any interleaving and any rollbacks, the single retry can be made and never meets a used id |
| `ShortIds.IdsAreDistinct` | src/sentry/event_manager.py:2084-2092 | no two workers hold the same id at any moment, although a rollback lets an id be issued again |
| `ShortIds.RepairSticks` | src/sentry/event_manager.py:2066-2081 | once one repair is committed, a worker that starts later never conflicts, whatever is rolled back after that |
| `ShortIds.RolledBackRepairIsLost` | src/sentry/event_manager.py:1999-2011 | if the transaction of a repair fails, the next worker to start gets the id after the committed counter, and conflicts if and only if that one is used |
| `ShortIds.RolledBackRepairDoesNotStick` | src/sentry/event_manager.py:2008-2011 | and there is a run from the start in which that happens |
| `Regressions.GroupRow.UpdateRegressed` | src/sentry/event_manager.py:2113-2133 | the row changes, to a regressed one dated `date`, exactly when its status is resolved or unresolved and it was not active in the window |
| `Regressions.LoadedGroup.HandleRegression` | src/sentry/event_manager.py:2095-2137 | what happens to the row and to the copy of the group, and what is answered, also when the group is no candidate and when another worker was first |
| `Regressions.RegressionsAreApart` | src/sentry/event_manager.py:2120-2133 | over any run, each regression is dated more than five seconds after the one before; `activeAt` ends as the last one |
| `Regressions.AttemptSucceedsExactly` | src/sentry/event_manager.py:2113-2133 | after any run, an attempt goes through if and only if the row is resolved or unresolved and was not active from five seconds before the date on; the row is then as stated, and else as it was |
| `Regressions.ActiveAtGrows` | src/sentry/event_manager.py:2112-2133 | k regressions mean that `activeAt` grew by more than 5k seconds |
| `Regressions.OneRegressionPerBurst` | src/sentry/event_manager.py:2112-2133 | attempts whose dates, each the later of the event and of what the copy of the group had last seen, lie within five seconds regress a group at most once, however many workers make them |
| `Regressions.EachRegressionFoundItOpen` | src/sentry/event_manager.py:2113-2119 | over any run, each regression was made on a row that was resolved or unresolved at that moment |
| `Regressions.OthersNeverRegress` | src/sentry/event_manager.py:2116-2119 | a group that is ignored, or being deleted, merged or reprocessed, whenever an attempt is made never regresses, whatever else is written in between; attempts alone leave its row as it is |
| `GroupMetadata.GroupRow.Incr` | src/sentry/buffer/redis.py:368-380 | an update joins those waiting, one more event, and field by field the last write wins |
| `GroupMetadata.GroupRow.Flush` | src/sentry/buffer/base.py:150-168 | what is waiting reaches the row, fields that no update carries stay, and nothing waits any more |
| `GroupMetadata.GroupRow.ProcessExistingAggregate` | src/sentry/event_manager.py:2279-2333 | one more event only reads the row, and buffers the update computed from it |
| `GroupMetadata.MergeAllFoldsTitles` | src/sentry/event_manager.py:2320-2329 | the title after any number of merges is the fold of the incoming titles |
| `GroupMetadata.RealTitles` | src/sentry/constants.py:232 | which titles are placeholders and which are real |
| `GroupMetadata.WeakTitlesChangeNothing` | src/sentry/event_manager.py:2264-2276 | an empty title, none, or a placeholder replaces nothing but a placeholder |
| `GroupMetadata.MessageIsTakenExactly` | src/sentry/event_manager.py:2291-2297 | the message is taken unless it is empty, a placeholder, or that of a transaction |
| `GroupMetadata.LastRealTitleWins` | src/sentry/event_manager.py:2245-2276 | if a real title comes in, the last real one is the final title |
| `GroupMetadata.WithoutRealTitleNothingChanges` | src/sentry/event_manager.py:2252-2258 | if none comes in, a title that is no placeholder stays |
| `GroupMetadata.PlaceholderGivesWay` | src/sentry/event_manager.py:2270-2273 | if none comes in, a placeholder gives way to the first title that is none, an absent one included, which then stays |
| `GroupMetadata.PlaceholderFollowsPlaceholders` | src/sentry/event_manager.py:2270-2273 | among placeholders only, the last one stays |
| `GroupMetadata.NeverBecomesPlaceholder` | src/sentry/event_manager.py:2252-2258 | a title that is no placeholder never becomes one |
| `GroupMetadata.LastWriterWins` | src/sentry/event_manager.py:2320-2329 | for every other key the last event that has it decides |
| `GroupMetadata.WithoutWriterNothingChanges` | src/sentry/event_manager.py:2320-2329 | a key that no event has stays as it was, or absent |
| `GroupMetadata.EventsMergeContainers` | src/sentry/event_manager.py:2311-2329 | when each write reaches the row before the next event reads it, data and metadata are each merged event by event, so the results above hold of both |
| `GroupMetadata.EventsSpan` | src/sentry/event_manager.py:2285-2307 | in that case first and last seen bound the times of the group and of all its events and are among them; every event counts once |
| `GroupMetadata.SpanIgnoresOrder` | src/sentry/event_manager.py:2303-2307 | in that case first seen, last seen and the count do not depend on the order of the events |
| `GroupMetadata.LastMessageWins` | src/sentry/event_manager.py:2291-2297 | in that case the message is that of the last event with a usable one |
| `GroupWindows.WindowIs` | src/sentry/buffer/redis.py:348-380 | when events read the same row and are flushed together, all are counted; of data, metadata and last seen only the update of the last event remains, and of each other field the last update that changes what the row had |
| `GroupWindows.OneEventPerWindow` | src/sentry/event_manager.py:2333 | with one event for each flush this is the case above |
| `GroupWindows.WindowsKeepLastEvents` | src/sentry/event_manager.py:2285-2333 | over any sequence of such windows every event counts, and data, metadata and last seen are what the last events of the windows, one after the other, would make them |
| `GroupWindows.WindowsNeverMakePlaceholders` | src/sentry/event_manager.py:2252-2258 | whatever the windows, a title that is no placeholder never becomes one |
| `GroupWindows.WindowsWidenTheSpan` | src/sentry/event_manager.py:2285-2307 | whatever the windows, first seen never goes up, last seen never goes down, and each is the time of the group or of an event |
| `GroupWindows.LastSeenExactly` | src/sentry/event_manager.py:2285-2286 | last seen of a window is that of its events one by one if and only if none of them is later than both the last one and what the row had |
| `GroupWindows.FirstSeenExactly` | src/sentry/event_manager.py:2306-2307 | first seen is, if and only if the last event earlier than what the row had is the earliest |
| `GroupWindows.LevelAndCulpritExactly` | src/sentry/event_manager.py:2298-2301 | level and culprit are, if and only if the last event changes what the row had, or none does |
| `GroupWindows.MessageExactly` | src/sentry/event_manager.py:2291-2297 | the message is, if and only if the last usable one changes what the row had, or none does |
| `GroupWindows.TitlesExactly` | src/sentry/event_manager.py:2320-2329 | a title is, if and only if the last one is real; or the last real one is what the row had; or none is real and a placeholder of the row gives way to the same title |
| `GroupWindows.KeyExactly` | src/sentry/event_manager.py:2320-2329 | any other key is, if and only if the last event that has it is the last of the window, or wrote what the row had |
| `GroupWindows.LastSeenFallsBehind` | src/sentry/event_manager.py:2285-2286 | a window of two events after which last seen is earlier than one of them |
| `GroupWindows.FirstSeenStaysBehind` | src/sentry/event_manager.py:2306-2307 | a window of two events after which first seen is later than one of them |
| `GroupWindows.RealTitleIsLost` | src/sentry/event_manager.py:2320-2324 | a window of a real title and a placeholder after which the placeholder is the title |
| `GroupWindows.OtherLevelStays` | src/sentry/event_manager.py:2298-2299 | a window of two events after which the level is that of the first |
| `CrashReports.Limiter.FilterAttachments` | src/sentry/event_manager.py:2689-2777 | what is kept, what is removed, the refund, the mark on the event and the cache afterwards |
| `CrashReports.KeptCount` | src/sentry/event_manager.py:2728-2759 | as many crash reports are kept as there is room for, and something is removed only when room runs out |
| `CrashReports.KeptIsThePrefix` | src/sentry/event_manager.py:2726-2759 | all other attachments are kept in order, of the crash reports the longest prefix there is room for, and the removed ones are the rest |
| `CrashReports.LimitsMean` | src/sentry/event_manager.py:296-307 | a limit of zero keeps none of the two kinds of crash reports and everything else; without a limit everything is kept |
| `CrashReports.ProjectSettingDecides` | src/sentry/event_manager.py:2708-2713 | the setting of the project decides, and that of the organization only for a project without one |
| `CrashReports.RefundIsSizes` | src/sentry/event_manager.py:2754-2755 | what is refunded are the sizes, and one for each empty report |
| `CrashReports.CachesExactlyWhenFull` | src/sentry/event_manager.py:2761-2766 | unless the cache is stale, an event that stores reports caches the limit if and only if it brings what is stored up to it |
| `CrashReports.QuantitiesAddUp` | src/sentry/event_manager.py:2754-2755 | what is kept and what is refunded add up to what came in, each counted as its size or one |
| `CrashReports.NeverAboveTheLimit` | src/sentry/event_manager.py:296-317 | after any run of events one after the other, and whatever is cached, accepting a crash report under a finite limit never takes the stored count above it |
| `CrashReports.RunKeepsCacheSound` | src/sentry/event_manager.py:2761-2766 | over any run without bulk deletions the cached count is at most what is stored |
| `CrashReports.ExactUnlessStale` | src/sentry/event_manager.py:302-317 | the cached and cut-off count decides as a full count would, for all attachments, if and only if the cache does not reach the limit while fewer reports are stored |
| `CrashReports.CacheBecomesStale` | src/sentry/event_manager.py:2761-2766 | a run after which the cache is stale: the report that filled the room is deleted in bulk |
| `CrashReports.CachedLimiterIsExact` | src/sentry/models/eventattachment.py:112-119 | so it always does as long as reports are not deleted in bulk, over any run of events, expiries, single deletions and limit changes |
| `CrashReportRaces.DecidingIsBounded` | src/sentry/event_manager.py:2720-2766 | with several workers, one that accepts reports brings the total to at most its limit and what the others have accepted and not stored |
| `CrashReportRaces.NeverAboveTheLimitPerWorker` | src/sentry/event_manager.py:2720-2766 | over any run with at most so many workers at once, no more is ever stored than that many times the limit, or than there was |
| `CrashReportRaces.TwoWorkersStoreTwo` | src/sentry/event_manager.py:2720-2766 | a run in which two workers each store a report under a limit of one |
| `PiiConfigs.MergePiiConfigs` | src/sentry/datascrubbing.py:112-144 | the nested loops compute the merged config that the results below are about |
| `PiiConfigs.AddRules` | src/sentry/datascrubbing.py:125-130 | the rules of one source are added under prefixed names, with renamed references |
| `PiiConfigs.AddApplications` | src/sentry/datascrubbing.py:132-142 | each selector has what it had before and then the renamed names of this source |
| `PiiConfigs.MergedHasRules` | src/sentry/datascrubbing.py:126-130 | if prefixed names of different sources never collide, every rule of every source is in the merged config under its prefixed name |
| `PiiConfigs.MergedRuleNames` | src/sentry/datascrubbing.py:125-130 | the merged config has no other rules |
| `PiiConfigs.OrganizationAndProjectRules` | src/sentry/datascrubbing.py:41-46 | for a project these are the rules of the organization and of the project under their two prefixes |
| `PiiConfigs.OnlyMultipleIsRewritten` | src/sentry/datascrubbing.py:180-191 | only rules of type multiple are rewritten, in their list of names if they have one, else in their single name |
| `PiiConfigs.RenamedReferences` | src/sentry/datascrubbing.py:176-193 | the references of a rewritten rule are those of the original, renamed, in whichever of the two forms they are given |
| `PiiConfigs.CleanTreeIsKept` | src/sentry/datascrubbing.py:112-144 | a name that unfolds, to any depth and through circular references, without a built-in name that a prefixed rule captures unfolds to the same tree after the merge |
| `PiiConfigs.PreservedExactlyWhenClean` | src/sentry/datascrubbing.py:112-144 | for every selector and depth the merged config expands to the expansions of its sources, one after the other, if and only if none of these ends in a built-in name that is a prefixed rule name |
| `PiiConfigs.AllNoCapture` | src/sentry/datascrubbing.py:115-118 | what a caller can check in the configs themselves, that no name used without being defined is a prefixed rule name, is enough for that at every depth |
| `PiiConfigs.OrganizationThenProject` | src/sentry/datascrubbing.py:24-46 | under that check the config of a project applies, for every selector and depth, what the organization applies and then what the project applies |
| `PiiConfigs.CapturedNameChangesMeaning` | src/sentry/datascrubbing.py:137-142 | a source that applies a built-in name equal to a prefixed rule name of another source gets that rule instead |
| `ImportTree.Tracker.TrackImport` | src/sentry/_importchecker.py:94-106 | an import between tracked and loaded modules adds the module to the order once, and exactly the observations from the importer to it and to those of the imported names that are loaded modules below it; other imports add nothing; every observed module is listed or below a listed one |
| `ImportTree.Tracker.Dependencies` | src/sentry/_importchecker.py:60-63 | the graph has an edge exactly for each observed import, and lists each child once |
| `ImportTree.TreeWriter.WriteModule` | src/sentry/_importchecker.py:67-81 | the recursive walk ends on any graph, cyclic ones included, leaves the indentation as it was, and writes what its specification says |
| `ImportTree.TreeWriter.WriteModules` | src/sentry/_importchecker.py:79-80 | the same for a list of modules, one after the other |
| `ImportTree.EmitAsciiTree` | src/sentry/_importchecker.py:59-86 | the counts and the lines of the whole tree, as the results below are about them |
| `ImportTree.WriteDepCounts` | src/sentry/_importchecker.py:71-80 | a call adds one to the count of its module, and to every count one for each import of the module by a module the call expands |
| `ImportTree.TreeCountsImports` | src/sentry/_importchecker.py:83-86 | exactly the modules reachable from the import order are written, and the count of each is its occurrences in that order plus the number of reachable modules that import it |
| `ImportTree.TreeCountsObservations` | src/sentry/_importchecker.py:59-86 | in terms of the observations: a module is written if and only if a chain of observed imports leads to it from the import order, and its count is its place in that order plus the observed imports of it by written modules |
| `ImportTree.TreeIsTruthful` | src/sentry/_importchecker.py:71-77 | each of them is expanded exactly once, where it is first written; every later line shows the number of lines the module had before |
| `ImportTree.TreeNests` | src/sentry/_importchecker.py:78-86 | the lines at the margin are the import order, and every other line stands, one step deeper, under the line of a module that imports it, with nothing as far left in between |
| `TestShards.SumDurations` | jest.config.ts:58-63 | the sum of the known durations |
| `TestShards.CollectTests` | jest.config.ts:69-93 | the known tests in order, or the first test whose duration is not positive, or that tests are missing |
| `TestShards.FirstBadIsFirst` | jest.config.ts:73-76 | the test reported is the first whose duration is not positive, and none is if all are |
| `TestShards.FillGroup` | jest.config.ts:114-133 | one node takes tests from the end until the target is reached, none is left, or the next one is long and would go over |
| `TestShards.TakenStops` | jest.config.ts:118-133 | a node stops at the target, when no test is left, or before a long test that would take it over, and ends less than thirty seconds over the target |
| `TestShards.TakenIsLeast` | jest.config.ts:118-133 | and at none of the tests it takes could it have stopped: it stops at the first such point |
| `TestShards.AllocateGroups` | jest.config.ts:113-145 | the groups of all nodes, leftovers included, or an error when there is no group to deal to |
| `TestShards.DealLeftovers` | jest.config.ts:136-145 | leftovers go to groups 0 to 3 in turn; it fails exactly when one of those that are needed does not exist |
| `TestShards.LeftoversAreDealtInTurn` | jest.config.ts:136-145 | groups keep what they have, and the j-th leftover off the end goes on top of group j modulo four |
| `TestShards.GetTestsForGroup` | jest.config.ts:52-163 | what one node runs, or which error is raised first |
| `TestShards.AnswersExactlyWhen` | jest.config.ts:58-93 | a node gets an answer if and only if there are durations, all positive, no listed test is missing, it is one of the nodes, and there are four or enough for the leftovers |
| `TestShards.NodesAreBalanced` | jest.config.ts:58-133 | what a node runs starts with a group that lasts less than thirty seconds over the known durations divided by the number of nodes, and not less than that unless no test is left or a long one comes next |
| `TestShards.EveryTestRunsOnce` | jest.config.ts:113-145 | allocation succeeds if and only if there are four nodes or more, or no more leftovers than nodes; then the groups together hold every known test exactly as often as it is listed |
| `TestShards.LeftoversCanFail` | jest.config.ts:136-145 | one known short test and two unknown ones on one node: no node gets an answer |
| `TestShards.EachTestHasOnePlace` | jest.config.ts:147-157 | every test that has a duration or is in the list runs on exactly one node, at exactly one position |
| `TestShards.EachTestRunsOnOneNode` | jest.config.ts:147-162 | when all nodes sort the tests alike: if one node gets an answer all do, and the path of each such test is in the answer to exactly one of them, once |
| `TestShards.EntriesHaveAll` | jest.config.ts:72-85 | the known tests are those with a duration and those listed, the former first and unchanged |
| `TestShards.GreedyGroupsAreShort` | jest.config.ts:118-133 | every group of the greedy phase lasts less than the target plus thirty seconds |
| `TestShards.LeftoversAreUnknown` | jest.config.ts:66-85 | if no node stopped for a long test, the leftovers last at most 1.5 seconds for each test without a known duration |
| `TestShards.ShardsAreContiguous` | jest.config.ts:191-195 | each slice ends where the next starts; the first starts at 0, and one after the last would start at the length |
| `TestShards.ShardsAreExact` | jest.config.ts:189-197 | the slices put together are the list, for every length and number of nodes, and their sizes differ by at most one, the longer ones first |
| `BitFields.AndBits` | src/bitfield/types.py:150-151 | "and" of unbounded integers, negative ones included, is the conjunction bit by bit |
| `BitFields.NotBits` | src/bitfield/types.py:11-12 | the complement of a mask flips every bit |
| `BitFields.OrBits` | src/bitfield/types.py:153-154 | "or" is the disjunction bit by bit |
| `BitFields.XorBits` | src/bitfield/types.py:168-169 | "xor" is the difference bit by bit |
| `BitFields.BitsDetermine` | src/bitfield/types.py:115-118 | integers with the same bits are equal |
| `BitFields.ModBits` | src/bitfield/models.py:138-142 | the floor remainder modulo 2^n has exactly the bits below n |
| `BitFields.RangeIsLowBits` | src/bitfield/models.py:96-97 | an integer lies in [0, 2^n) if and only if it has no bit from n on |
| `BitFields.MaskTests` | src/bitfield/types.py:207-209 | masking with 2^n gives 2^n or 0 as the bit is set or not |
| `BitFields.WithBitFlags` | src/bitfield/types.py:211-217 | setting a flag adds exactly it to the set, clearing takes exactly it out; a value in range stays in range |
| `BitFields.FlagsDetermine` | src/bitfield/types.py:115-118 | in range, values are equal if and only if their sets of flags are |
| `BitFields.OperatorsOnFlags` | src/bitfield/types.py:150-169 | the operators are intersection, union and symmetric difference of the sets and stay in range |
| `BitFields.BitHandler.GetBit` | src/bitfield/types.py:207-209 | whether the flag is set |
| `BitFields.BitHandler.SetBit` | src/bitfield/types.py:211-217 | one bit becomes as asked and every other stays; as a set, one member is added or taken out |
| `BitFields.BitHandler.Contains` | src/bitfield/types.py:171-173 | membership of a named flag in the set, or an error exactly for a name that is no flag |
| `BitFields.BitHandler.SetItem` | src/bitfield/types.py:184-191 | assigning to a named flag changes exactly it, another name is refused and changes nothing, and a private name sets an attribute and no flag, unless it is the value itself |
| `BitFields.PrivateNames` | src/bitfield/types.py:185-186 | private names are those that start with an underscore |
| `BitFields.SetBitsKeepRange` | src/bitfield/types.py:211-217 | after any sequence of such calls the value is in range and each flag is as the last call on it left it |
| `BitFields.ToPython` | src/bitfield/models.py:131-148 | the repair loop computes the floor remainder modulo 2^n for a negative value; others are kept |
| `BitFields.RepairKeepsFlags` | src/bitfield/models.py:135-142 | a repaired value is in range, shows the same flags, is the only value in range that does, and another repair leaves it alone |
| `BitFields.ClearedFlagReadsAsTheOthers` | src/bitfield/models.py:131-142 | the mask of a cleared flag, saved as a value, reads as all the other flags |
| `BitFields.BuildDefault` | src/bitfield/models.py:96-113 | a declaration fails exactly with too many flags or an unknown default; else the default stands for exactly the flags named and fits the column |
| `BitFields.ValuesFitTheColumn` | src/bitfield/models.py:10-12 | all values of a field fit the column if and only if it has at most the maximum number of flags, which is the number of binary digits of the largest value |
| `Reprocessing.Database.StartGroupReprocessing` | src/sentry/reprocessing2.py:528-571 | which group is missing or already being reprocessed changes nothing; otherwise the groups are swapped and every table is moved, and short ids are unique at each write |
| `Reprocessing.SwapKeepsShortIds` | src/sentry/reprocessing2.py:539-564 | short ids stay unique, also between the two writes; a short id leads to the new group exactly where it led to the old one, and else where it did before |
| `Reprocessing.SwapTakesThePlace` | src/sentry/reprocessing2.py:539-564 | the new group is the old one but for what was seen of it; the old one keeps the rest, and another request for it is refused; other groups are as they were |
| `Reprocessing.MovedLeavesNothingBehind` | src/sentry/reprocessing2.py:566-571 | the new group has its own rows and those of the old one, which has none, every other group has what it had, and moving back undoes it if and only if the new group had no rows |
| `Reprocessing.NoTableKeepsTheOldGroup` | src/sentry/reprocessing2.py:570-571 | and so in every table |
| `Reprocessing.Store.StartReprocessing` | src/sentry/reprocessing2.py:573-604 | the counter starts at all events of the group, the total is at most the maximum asked for |
| `Reprocessing.Store.MarkEventReprocessed` | src/sentry/eventstore/reprocessing/redis.py:142-152 | one step of the countdown that the results below are about, reporting exactly whether it reached zero |
| `Reprocessing.MissingCounterCountsFromZero` | src/sentry/eventstore/reprocessing/redis.py:148-152 | a counter that is gone counts from zero |
| `Reprocessing.Store.GetProgress` | src/sentry/reprocessing2.py:618-643 | what is shown, and when finishing is forced; nothing is pending when counter or info is gone |
| `Reprocessing.FinishedOnceAtTheEnd` | src/sentry/reprocessing2.py:512-516 | any positive decrements that add up to the count trigger finishing exactly once, at the last, and never if there was nothing to count |
| `Reprocessing.FinishedAtMostOnce` | src/sentry/reprocessing2.py:512-516 | positive decrements of any sum trigger it at most once, and never while they stay below the count |
| `Reprocessing.FinishedAgainByEmptyDecrements` | src/sentry/eventstore/reprocessing/redis.py:150-152 | decrements of nothing or more that add up to the count trigger it once, unless the count is zero, and once more for each empty one at the end |
| `Reprocessing.FinishedOnceExactlyWhen` | src/sentry/reprocessing2.py:512-516 | so they trigger it exactly once if and only if the last one counts down something, or, for a count of zero, there is exactly one |
| `Reprocessing.EmptyDecrementFinishesAgain` | src/sentry/eventstore/reprocessing/redis.py:150-152 | a witness: a decrement by nothing after the last one triggers it again |
| `Reprocessing.EmptyGroupIsNeverFinished` | src/sentry/reprocessing2.py:573-604 | a group without events reads as finished from the start, and no decrements ever trigger finishing it |
| `Reprocessing.ShownIsMonotone` | src/sentry/reprocessing2.py:639-642 | the fewer are pending the fewer are shown |
| `Reprocessing.ShownIsProportional` | src/sentry/reprocessing2.py:639-642 | of the events asked for the share that is pending is shown, rounded down |
| `Reprocessing.ShownBelowZero` | src/sentry/reprocessing2.py:639-642 | what is counted down below zero is rounded towards zero as well |
| `Reprocessing.ShownIsInRange` | src/sentry/reprocessing2.py:639-642 | what is shown lies in [0, total], is the total at the start, 0 at the end, and the count itself without a maximum |
| `Reprocessing.ReadsAsFinished` | src/sentry/reprocessing2.py:609-643 | a group reads as finished if and only if pending * total is less than the count, a count of zero taken as one |
| `Reprocessing.ProgressOverASchedule` | src/sentry/reprocessing2.py:573-643 | over a whole schedule of decrements progress starts at the total, never goes back and ends at nothing |
| `Reprocessing.CopyAttachment` | src/sentry/reprocessing2.py:387-423 | the chunks joined are the file, all but the last are full, and it fails exactly when the recorded size differs |
| `Flagpole.ToDict` | src/flagpole/__init__.py:183-186 | one entry under the name, with all fields but the name |
| `Flagpole.FromBulk` | src/flagpole/__init__.py:164-181 | one feature for each entry, in order, or a failure exactly when one entry does not parse |
| `Flagpole.ParseAll` | src/flagpole/conditions.py:228-229 | a list parses exactly when each element does, to the parsed elements in order |
| `Flagpole.OperatorsMean` | src/flagpole/conditions.py:10-26 | six operators are known, and which class of condition each makes |
| `Flagpole.ConditionParsesExactly` | src/flagpole/conditions.py:199-208 | a condition parses if and only if it is a dictionary with a known operator, and what its parts are then |
| `Flagpole.SegmentParsesExactly` | src/flagpole/conditions.py:227-234 | a segment with a list of conditions parses if and only if they do and its rollout is a number, and what its parts are then, entries that are missing included |
| `Flagpole.FeatureParsesExactly` | src/flagpole/__init__.py:128-147 | a feature parses if and only if it has a list of segments that all parse, and what its parts are then, entries that are missing included |
| `Flagpole.FalseValues` | src/flagpole/__init__.py:138 | which values turn a feature off |
| `Flagpole.ConditionRoundTrip` | src/flagpole/conditions.py:199-208 | a parsed condition, printed and parsed again, has the same class, property, operator and value |
| `Flagpole.SegmentRoundTrip` | src/flagpole/conditions.py:227-234 | a segment with a rollout and conditions of matching operators is what its printed form parses to |
| `Flagpole.FeatureRoundTrip` | src/flagpole/__init__.py:128-147 | for every feature that parsing produces, parsing what is printed for it gives the same feature |
| `Flagpole.IdentityFields` | src/flagpole/evaluation_context.py:31-41 | only fields that the context has identify it |
| `Flagpole.NewContext` | src/flagpole/evaluation_context.py:26-57 | the loops compute the id from the identity fields: those asked for that the context has, or else all |
| `Flagpole.VectorAlternates` | src/flagpole/evaluation_context.py:51-55 | what is hashed are the fields and their values as text, in turn |
| `Flagpole.JoinIs` | src/flagpole/evaluation_context.py:56 | with a colon between any two |
| `Flagpole.SameIdentitySameBucket` | src/flagpole/evaluation_context.py:31-57 | contexts identified by the same fields that agree on them have the same id, whatever else they hold |
| `Flagpole.OtherFieldsDoNotMatter` | src/flagpole/evaluation_context.py:31-41 | the fields asked for that the context has are those that identify it, and changing another leaves the id as it is |
| `Flagpole.SegmentMatchesWhenAllDo` | src/flagpole/conditions.py:236-241 | a segment matches if and only if all its conditions do, and does not if and only if one does not and all before it do; errors after that are never met |
| `Flagpole.ConditionsAnswer` | src/flagpole/conditions.py:74-117 | what in, contains and equals answer for all values: whether the one is listed in the other, or equal to it, text without regard to case; and exactly where each fails, and how |
| `Flagpole.OppositesAnswerOpposite` | src/flagpole/conditions.py:131-186 | each not-kind answers the opposite of its kind and fails exactly where that fails |
| `Flagpole.SameMeans` | src/flagpole/conditions.py:74-117 | equality of text, numbers, truth values and none |
| `Flagpole.SameIsReflexive` | src/flagpole/conditions.py:117 | every value equals itself |
| `Flagpole.SameIsSymmetric` | src/flagpole/conditions.py:117 | equality holds both ways |
| `Flagpole.SameIsTransitive` | src/flagpole/conditions.py:117 | and carries over |
| `Flagpole.CaseMattersExactlyInListEquality` | src/flagpole/conditions.py:74-117 | the case of text in a context, alone or as an item of a list, changes what a condition answers if and only if the condition compares a list for equality and that list has text that can be written in another case |
| `Flagpole.CaseDoesNotMatter` | src/flagpole/conditions.py:85-115 | it never changes the answer of in, not in, contains and not contains, nor of equals and not equals for a value that is no list |
| `Flagpole.ListEqualityIsCaseSensitive` | src/flagpole/conditions.py:114-117 | a list equals itself, and not the list with one text written in another case |
| `Flagpole.FirstMatchDecides` | src/flagpole/__init__.py:106-115 | the first segment that matches decides by its rollout alone; later ones are not looked at, not even for errors |
| `Flagpole.NoMatchIsOff` | src/flagpole/__init__.py:106-115 | without a matching segment the feature is off |
| `Flagpole.FeatureIsOnExactlyWhen` | src/flagpole/__init__.py:106-115 | a feature is on if and only if it is enabled and has a first matching segment whose rollout has the context |
| `Flagpole.RaisingRolloutsKeepsFeature` | src/flagpole/conditions.py:243-253 | raising rollouts within 0 to 100 never takes a feature away from a context |
| `Flagpole.RolloutGrants` | src/flagpole/conditions.py:243-253 | a rollout r of 1 to 99 grants exactly the r + 1 residues up to r of the 100, 0 none and 100 all; without a rollout all are granted |
| `Killswitches.NormalizeValue` | src/sentry/killswitches.py:249-272 | non-strict always gives the normal form; strict gives the same if and only if every condition has exactly the fields, and else reports the first that does not, with a missing field before an unknown one |
| `Killswitches.ValueMatches` | src/sentry/killswitches.py:292-311 | matching is: some condition, all of whose fields with a value have the value of the context as text |
| `Killswitches.MeetsCondition` | src/sentry/killswitches.py:298-309 | the inner loop decides that for one condition |
| `Killswitches.MatchesExactly` | src/sentry/killswitches.py:297-309 | a stored condition matches a context if and only if each field it has a value for is in the context with a value of the same text |
| `Killswitches.NormalIsIdempotent` | src/sentry/killswitches.py:249-272 | normalising a normalised option changes nothing |
| `Killswitches.StrictAcceptsStored` | src/sentry/killswitches.py:265-268 | a stored normal form is accepted strictly if and only if the condition had no unknown field; what strict accepted, it accepts again |
| `Killswitches.MoreConditionsMatchMore` | src/sentry/killswitches.py:297-311 | conditions are alternatives: adding some, anywhere, matches in addition exactly what they match |
| `Killswitches.UnknownFieldNeverMatches` | src/sentry/killswitches.py:275-306 | a condition with a value for a field that the killswitch does not have never matches |
| `Killswitches.LegacyAsksForTheProject` | src/sentry/killswitches.py:254-256 | a condition in the old format asks for the project and for nothing else |

## Left out

- Group creation: hierarchical hashes and their root hash, hash calculation, background grouping and
  metrics. The older code path is modelled on flat hashes.
- Group creation: creating the group, linking the locked rows and committing are one step, because
  other workers see none of it before the commit; what is linked before a rollback is not modelled.
- Group creation: unlinking or deleting hashes and deleting groups. Merges and migrations are steps of
  their own, on rows no worker has locked.
- GroupCreationAgreement.RunAgrees: assumes one non-empty set of hashes carried by all workers, linked
  to at most one group, no migration or move of these hashes, and harmless links outside the lock, which
  `GroupCreationSeer` shows to be necessary; `GroupCreationRaces` shows what a migration does.
- GroupCreationAgreement.SameGroupForAll: speaks of the workers that end with a group; one may also
  fail, or drop its event because the group is not of the error category.
- ShortIds.Project.NextShortId: the class is one worker's view inside its transaction; that the add is
  undone when the transaction fails is a step of the state machine (`Crash`), not a method of the class.
- ShortIds.RetryNeverCollides: a timeout, or a missing maximum because all groups were deleted in
  between, is a crash of the worker; severity, priority and release of the new group are not modelled.
- Regressions.OneRegressionPerBurst: bounds the dates of the updates, not the times of the events: two
  events a second apart, handled on copies that had last seen very different times, can both regress.
- Regressions.LoadedGroup.HandleRegression: whether the loaded group is resolved, has a resolution or a
  pending commit, and what plugins say, is one parameter; signals, activities and history are not
  modelled.
- GroupMetadata.GroupRow.ProcessExistingAggregate: reading the row and buffering the update are one
  step, so an event that reads before a flush and buffers after it is not modelled; the `data` column and
  its `metadata` entry are two fields that are always written together; a regression in between is
  modelled by `Regressions`.
- GroupMetadata.EventsSpan: holds of writes that reach the row one by one, as `SpanIgnoresOrder`,
  `EventsMergeContainers` and `LastMessageWins` do; `GroupWindows` says when windows of events keep it.
- CrashReports.Limiter.FilterAttachments: reading the options, limits below -1 (for which the query
  itself fails), outcome and quota transport; the number of stored reports is a parameter.
- CrashReports.CachedLimiterIsExact: bulk deletions are excluded, since they do not prune the cache;
  `ExactUnlessStale` says exactly when that matters. Events of one group are taken one after the other;
  `CrashReportRaces` is about several at once.
- PiiConfigs.MergePiiConfigs: an absent `rules` or `applications` entry is the same as an empty one;
  the order of rules in a dictionary, malformed configs, and what rule bodies do. References of rules
  that are not of type "multiple" are not followed, as the code does not rewrite them.
- PiiConfigs.AddRules: builds new values; that the originals are not changed through the deep copy is
  not a question on values.
- ImportTree.EmitAsciiTree: the children of a module may be in any order that lists each once, of which
  sorted order is one; the list of the most imported modules and the text of a line are left out, and
  so are relative import names and the dot file.
- TestShards.GetTestsForGroup: durations are real numbers, so rounding is not modelled; the comparison
  function of the sort is replaced by any permutation of the tests; environment and file are parameters.
- TestShards.EachTestRunsOnOneNode: assumes that all nodes sort the tests alike. The comparison
  (lines 99-111 of `jest.config.ts`) puts any widget builder test before any other test, two of them
  each before the other, and otherwise depends on the locale, so nodes could differ.
- BitFields.BitHandler.SetBit: `+`, `-`, shifts, labels, flags given as a dictionary, pickling and
  queries are not modelled.
- BitFields.BitHandler.SetItem: assigning to `_keys` or `_labels` replaces the handler's lists; the model
  records the attribute and keeps its flags.
- Reprocessing.Store.GetProgress: division is exact, so rounding is not modelled; expiry of the keys is
  only their absence. The activity record, the batching of events and tombstones, and the finish task
  are left out.
- Flagpole.FeatureRoundTrip: dictionaries only; JSON and YAML text and the schema are left out.
- Flagpole.NewContext: SHA-1, `str`, `int`, `lower` and `sorted` are parameters, of which only what
  Python guarantees is assumed; two different contexts may have the same id. Not-a-number values and
  the context builder are left out.
- Killswitches.NormalizeValue: that it adds missing fields to the dictionaries of its caller; metrics,
  printing and the storage of options.
