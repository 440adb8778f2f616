# Verified model of the backup scheduler

This project models the parts of the backup scheduler whose correctness is hardest to see by reading one function, and
proves what they promise. It covers six areas:

- **Snapshot browser.** The two incremental parsers of `restic ls --json` output, the recursive index of a subtree, and
  the process-local cache with its expiry time, index groups and byte budget (`Snapshot*`, `Browse*`).
- **Artifact store.** Five related tables with unique keys and cascading deletes, the transactions on them, the daily
  retention, and the statistics collector that drives them (`Artifact*`, `Ranking`, `StatsCollector`).
- **Run execution.** Resource ids, the try-lock protocol between any number of runs and processes, the interpreter of
  workflows, backups and transfers with nested hooks, and the queues that pair every successful step with its history id
  and summary (`Resource*`, `LockProtocol`, `Job*`, `LockedRuns`).
- **Scheduler.** Due windows over any run of ticks, report windows, and the start/stop handshakes of the scheduler thread
  and of its owner (`TickSchedule`, `StopHandshake`, `OwnerHandshake`).
- **Streams and texts.** The chunk-insensitive buffers, UTF-8, bounded command output and bounded push messages
  (`StreamBuffers`, `Utf8`, `OutputLimit`, `PushMessages`).
- **Configuration.** The editor's forms as a printer and parser of TOML tables, inheritance between levels, and the
  attribution of effective values to levels (`Editor*`, `Config*`).

Code that updates state is a class whose methods are proved against functions on values; what the code promises is proved
about those functions as lemmas. Protocols between threads or processes are state machines with one step per shared read
or write, and their theorems quantify over every interleaving. Clock readings, fresh ids, decoders of JSON lines, size
estimates, `Path.resolve`, and the outcomes of commands and hooks are parameters, so every theorem holds for all of them.

## What turned out to hold only conditionally

- The recorded entries of the recursive index equal the plain listing up to mode and mtime always; in every field exactly
  when no directory is first met through a descendant that carries a mode or an mtime
  (`IndexEqualsPlainListingForNodesIff`; `ImpliedDirectoryLosesAttributes` is a stream on which they differ).
- `upsert_location` on its own keeps the tables consistent exactly when it does not re-point a location that still has rows
  (`UpsertLocationConsistentIff`, `RepointedLocationBreaks`); resolving the location first establishes that, except for a
  known location whose backend id matches under another backend name (`OtherBackendIsTrusted`).
- A collection marks an artifact removed without an answer for all snapshots that misses it exactly if a cleanup met a changed
  identity (`UnjustifiedRemovalIff`, `CleanupReconcilesUnasked`): it asks nothing and reconciles with nothing.
- The retention that ends a persisting transaction keeps the location just observed exactly if it is protected or among the
  newest (`ObservedLocationStaysIff`, `UnprotectedObservationIsPruned`); it is protected whenever the active configuration
  names it.
- Without run history every success of every run of a target is reported exactly if the target has at most one restic
  substep and nothing that can fail comes after it (`AllReportedWithoutHistoryIff`, `FailedRetentionLosesTheBackup`).
- A restic repository behind rclone and the same rclone endpoint share one resource id exactly unless the remote is itself
  called `rclone` and its path reads as an endpoint on another remote or with another normal path
  (`RepositoryAndEndpointShareIdIff`, `ShadowedRemote`).
- Canonicalising a canonical endpoint id again changes nothing exactly unless the path begins with a backslash and is more
  than the root (`CanonicalIdIsStableIff`, `LeadingBackslashIsUnstable`).
- Consecutive report windows never overlap, but leave no gap only if exactly one fire instant lies between the two reports
  (`ReportWindowsContiguousIff`, `SkippedInstantIsNotReported`): runs finished before a skipped fire instant are in none.
- The attributed source of an effective value is the level it comes from exactly if the nearest level that names the key
  holds a value for it (`SourceIsOriginIff`, `NormalisedFieldIsMisattributed`): a key that is present but normalised to None
  is named although its value comes from further up. For the credentials the same holds of the three password fields
  together (`CredentialsSourceIsOriginIff`, `NormalisedPasswordIsMisattributed`), but no file can set one to None
  (`WrittenPasswordsHaveTheirSource`).
- Ticking "override with empty value" makes a list empty exactly without the page's script, or if it already was
  (`TickTakesEffectIff`, `TickIsLost`): the script disables the text area, and a field that is not sent is left as it was.
  The form round trip holds with the script because the table it is applied to already has the empty list.
- Limited output keeps a limit exactly if the limit is positive or there is nothing to limit (`LimitOutput`): a limit of zero
  drops nothing.

## Model

| member | source | states |
|---|---|---|
| SnapshotPaths.ValidatedIsPath | src/services/repository_browser.py:1238-1251 | every accepted snapshot path is the text of a list of proper components (no empty, dot or dot-dot one) |
| SnapshotPaths.ComponentsAreAccepted | src/services/repository_browser.py:1238-1251 | every path of components that are neither empty nor dot nor dot-dot and hold no slash, backslash, NUL or line break is accepted as it is, slashes at its end left out |
| SnapshotPaths.OnlyComponentsAreAccepted | src/services/repository_browser.py:1238-1251 | nothing else is accepted, but the empty path, which stands for the root |
| SnapshotPaths.RelativeMeaning | src/services/repository_browser.py:1361-1364 | the relative path is the joined remaining components below the base, and the rejection test fires exactly for paths that are not below it |
| SnapshotPaths.ChildNameMeaning | src/services/repository_browser.py:1367-1371 | the child name is the component of the path just below the base, none exactly when the path is not below it; a slash remains exactly when the path lies deeper |
| SnapshotPaths.JoinIsPath | src/services/repository_browser.py:1374-1377 | joining a name to a directory path names the directory with that component appended |
| SnapshotListing.DirectChildMeaning | src/services/repository_browser.py:1001-1034 | a node adds to the listing of a directory exactly its component below that directory, as a directory unless it is that child itself; any other node changes nothing |
| SnapshotListing.DescendantMeaning | src/services/repository_browser.py:1128-1154 | a node is recorded level by level below the base exactly when it lies below it |
| SnapshotListing.AddPartsMeaning | src/services/repository_browser.py:1136-1177 | for any one directory, what the walk along a node adds to it and whether it becomes recorded, whatever other directories it passes |
| SnapshotMeaning.PlainListingMeaning | src/services/repository_browser.py:985-1034 | a child is listed exactly if some node is it or lies below it; its entry is that of the first node that makes it a directory, or else of the last node naming the file |
| SnapshotMeaning.OnlyMentionedAreListed | src/services/repository_browser.py:985-1034 | nothing is listed but children that some node mentions |
| SnapshotMeaning.DirectoryChildIff | src/services/repository_browser.py:1001-1034 | a child is listed as a directory exactly if some node is it as a directory or lies below it |
| SnapshotIndex.RecordedArePaths | src/services/repository_browser.py:1128-1177 | only directories at or below the base are recorded |
| SnapshotIndex.IndexMatchesPlainListing | src/services/repository_browser.py:1128-1177 | for every node stream and directory under the base, the index has the same children as the plain listing of that directory: same paths, names, types and sizes, differing at most in a directory's mode and mtime; an unrecorded directory has an empty plain listing |
| SnapshotIndex.IndexEqualsPlainListingIff | src/services/repository_browser.py:1156-1177 | the entries are equal in every field exactly when no directory is first met through a descendant carrying a mode or mtime |
| SnapshotMeaning.IndexEqualsPlainListingForNodesIff | src/services/repository_browser.py:1156-1177 | the same condition said of the nodes alone: every node that is the first to reveal a child as a directory, and lies below it, carries neither mode nor mtime |
| SnapshotIndex.ImpliedDirectoryLosesAttributes | src/services/repository_browser.py:1142-1154 | a concrete stream on which the two differ |
| SnapshotIndex.ShallowSuffices | src/services/repository_browser.py:1001-1034 | with own nodes first, the listing from a directory's own lines equals the listing from the whole stream |
| SnapshotIndex.IndexEqualsShallowListing | src/services/repository_browser.py:1070-1092 | with own nodes first, a recorded directory's children are those of listing that directory alone |
| SnapshotSorting.SortEntries | src/services/repository_browser.py:949-965 | the returned entries are exactly the children, each once, directories first and then by name |
| SnapshotSorting.ListingUnique | src/services/repository_browser.py:949-965 | there is only one such order |
| SnapshotSorting.DirectoriesFirst | src/services/repository_browser.py:949-965 | in a listing no file comes before a directory, and each kind is in the order of its names |
| Text.LessAtFirstDifference | src/services/repository_browser.py:949-965 | names are ordered by the first character in which they differ |
| Text.LessThanLonger | src/services/repository_browser.py:949-965 | and a name comes before its continuations |
| SnapshotSorting.ListingsAgree | src/services/repository_browser.py:1070-1092 | children that agree give listings that agree position by position |
| SnapshotParsers.ListingParser.FeedStdout | src/services/repository_browser.py:934-943 | a fed chunk leaves exactly the unfinished line buffered and everything before it parsed |
| SnapshotParsers.ListingParser.Finish | src/services/repository_browser.py:949-965 | success and entries are a function of the concatenated bytes: every line usable and at least one, and the direct children of all nodes, sorted |
| SnapshotParsers.RecursiveParser.AddDescendant | src/services/repository_browser.py:1128-1177 | the loop over the components of a node records exactly the recursive index's step, stopping at the first file |
| SnapshotParsers.RecursiveParser.FeedStdout | src/services/repository_browser.py:1055-1064 | as for the plain parser |
| SnapshotParsers.RecursiveParser.Finish | src/services/repository_browser.py:1070-1092 | success and one sorted listing per recorded directory, as a function of the concatenated bytes |
| SnapshotParsers.ParseListing | src/services/repository_browser.py:803-853 | a whole run of the plain parser: the outcome does not depend on how the output was cut into chunks |
| SnapshotParsers.ParseRecursively | src/services/repository_browser.py:856-915 | the same for the recursive parser |
| SnapshotStream.CutAfterNewline | src/services/repository_browser.py:934-943 | the items of a stream are those of its two parts when it is cut after a newline |
| SnapshotStream.BlanksDoNotCount | src/services/repository_browser.py:971-983 | a blank byte on either side of a line does not matter |
| SnapshotStream.OtherBytesCount | src/services/repository_browser.py:971-983 | any other byte does |
| SnapshotStream.BlankOutputIsNotAccepted | src/services/repository_browser.py:949-965 | no output, or nothing but blanks, is a failure |
| SnapshotParsers.RecordedListingIsPlainListing | src/services/repository_browser.py:1070-1092 | every listing the recursive run returns agrees with the plain parser's listing of that directory from the same stream |
| SnapshotParsers.RecordedListingIsShallowListing | src/services/repository_browser.py:1070-1092 | with own nodes first it equals the listing from that directory's own lines, in every field |
| BrowseGroups.PlainListingUnique | src/services/repository_browser.py:448-466 | a path of an immutable snapshot has only one plain listing, so a faithful cache is a transparent one |
| BrowseGroups.KeysDisjoint | src/services/repository_browser.py:486-514 | groups hold disjoint keys |
| BrowseGroups.StaleMeansExpired | src/services/repository_browser.py:468-481 | an expired entry of a group means the group itself has expired, so a live group is never removed through an entry |
| BrowseGroups.RemovalKeepsSound | src/services/repository_browser.py:550-559 | removing a group with its keys keeps the cache invariant and takes no key of another group |
| BrowseGroups.ExpiredAreLeading | src/services/repository_browser.py:573-589 | the expired groups are exactly the leading ones in creation order |
| BrowseGroups.SweptMeaning | src/services/repository_browser.py:573-589 | after dropping what has expired a listing is left exactly if the group that holds it is at most fifteen minutes old, or no group holds it and it is itself |
| BrowseGroups.PrunedToBudget | src/services/repository_browser.py:528-539 | pruning removes an unexpired group only while the rest exceeds 200 MiB, never the kept one, and ends within 200 MiB or with the kept one alone |
| BrowseGroups.OldestIsFirst | src/services/repository_browser.py:528-539 | the oldest group that is not the kept one is the first |
| BrowseGroups.NewGroupStays | src/services/repository_browser.py:528-539 | pruning keeps the new group unless its time has passed meanwhile |
| BrowseCache.RepositoryBrowser.constructor | src/services/repository_browser.py:166-177 | the cache starts empty and valid |
| BrowseCache.RepositoryBrowser.GetBrowseCache | src/services/repository_browser.py:468-481 | a hit exactly for an entry no older than the expiry time, with that entry's listing; a miss on an expired entry removes it, with its expired group if it has one, and nothing else |
| BrowseCache.RepositoryBrowser.IndexGroupIdsFor | src/services/repository_browser.py:561-566 | at most one group holds a key; none exactly when the key is not grouped |
| BrowseCache.RepositoryBrowser.RememberBrowseResult | src/services/repository_browser.py:483-484 | only that key changes, cached at the present time |
| BrowseCache.RepositoryBrowser.RemoveIndexGroup | src/services/repository_browser.py:550-559 | exactly the group and its keys go |
| BrowseCache.RepositoryBrowser.DropExpiredEntries | src/services/repository_browser.py:573-589 | exactly the expired groups with their keys and the expired entries outside the others go |
| BrowseCache.RepositoryBrowser.IndexCacheSize | src/services/repository_browser.py:524-526 | expired entries go first; the result is the total of the groups left |
| BrowseCache.RepositoryBrowser.EvictOldest | src/services/repository_browser.py:530-539 | the oldest other group goes, or only the kept one is left |
| BrowseCache.RepositoryBrowser.PruneIndexGroups | src/services/repository_browser.py:528-539 | pruning ends; a suffix of the groups is left, within the budget or only the kept one; each group gone had expired or was the oldest while over budget; fresh entries outside groups stay |
| BrowseCache.RepositoryBrowser.RemoveReplacedIndexGroups | src/services/repository_browser.py:541-548 | no group of the snapshot is left and every other group stays |
| BrowseCache.RepositoryBrowser.StoreListings | src/services/repository_browser.py:496-502 | every listing is cached, and keys and estimated bytes are those of the index |
| BrowseCache.RepositoryBrowser.AddIndex | src/services/repository_browser.py:486-513 | one new group replaces the snapshot's old one |
| BrowseCache.RepositoryBrowser.RememberRecursiveBrowseResult | src/services/repository_browser.py:486-514 | the whole new cache and group list after a recursive prefetch, pruning included |
| BrowseCache.RepositoryBrowser.CachedResticLs | src/services/repository_browser.py:448-466 | the fresh cached listing, or else what the command returned, which is then stored into whatever the cache has become meanwhile; either is a listing the plain command would return |
| SnapshotBrowser.SubtreeSuffices | src/services/repository_browser.py:856-915 | the recursive index depends only on the nodes of the subtree |
| SnapshotBrowser.RecursiveListingsArePlain | src/services/repository_browser.py:437-446 | every listing of a recursive run over a snapshot is the plain listing of its directory |
| SnapshotBrowser.Browse | src/services/repository_browser.py:448-466 | over any history of the cache and with other requests served while the command runs, browsing returns the plain listing of the path, from the cache exactly if it was fresh, and leaves it cached |
| SnapshotBrowser.Prefetch | src/services/repository_browser.py:390-446 | a successful prefetch caches every directory of the subtree with its plain listing in one group; a failed one changes nothing |
| ArtifactTables.EmptyRepositoryCascadesToNothing | src/services/repository_artifact_store.py:1405-1422 | deleting an empty repository removes its row only |
| ArtifactTables.DropLocationConsistent | src/services/repository_artifact_store.py:489-502 | deleting a location with its orphans and its emptied repository keeps every table constraint |
| ArtifactTables.DropLocationKeepsLive | src/services/repository_artifact_store.py:489-502 | an artifact of the repository survives iff another location still holds it, and the repository survives iff it has another location |
| ArtifactTables.DropLocationLeavesOthers | src/services/appdata_schema.py:316-457 | only that location row goes, points go only with it, and no other repository goes |
| ArtifactTables.DropLocationLeavesObservations | src/services/repository_artifact_store.py:1388-1402 | observations elsewhere stay unless they mark the absence of an artifact that goes |
| ArtifactStore.UpsertLocationConsistentIff | src/services/repository_artifact_store.py:840-882 | a plain upsert keeps the invariant exactly when it does not re-point a location that still has rows |
| ArtifactStore.RepointedLocationBreaks | src/services/repository_artifact_store.py:840-882 | concrete tables that a re-pointing upsert breaks |
| ArtifactStore.ReboundIsSettled | src/services/repository_artifact_store.py:1357-1385 | after a rebind the key belongs to the new identity, at a location without rows |
| ArtifactStore.LateRebindKeepsPresent | src/services/repository_artifact_store.py:1357-1385 | even if another location holds the key by the time of the write, an artifact present at any other location survives |
| ArtifactStore.RebindKeepsLive | src/services/repository_artifact_store.py:1357-1385 | after a rebind an artifact of the previous repository survives iff it is present at another location, and that repository survives iff it has another location |
| ArtifactStore.OtherBackendIsTrusted | src/services/repository_artifact_store.py:205-214 | tables in which a known location is trusted although its repository has another backend name |
| ArtifactStore.DeletesKeepKeySettled | src/services/backup_stats_collector.py:186-251 | transactions between resolving and persisting that only drop rows leave the key with the observed repository |
| ArtifactStore.FullReconcileIsExact | src/services/repository_artifact_store.py:1083-1110 | after a full reconcile exactly the observed snapshots are present at the location, and presence elsewhere is unchanged |
| ArtifactStore.PruneKeepsNewestLocations | src/services/repository_artifact_store.py:1152-1182 | protected locations and other repositories are untouched; of the rest exactly the newest `limit` stay |
| ArtifactStore.PruneKeepsPresentArtifacts | src/services/repository_artifact_store.py:1194-1245 | an artifact present anywhere stays; another stays iff it is within both age and count; only observations of artifacts that go go with them |
| ArtifactStore.PruneKeepsNewestArtifacts | src/services/repository_artifact_store.py:1194-1230 | by count alone exactly that many removable artifacts stay, the newest ones |
| Ranking.NewestKeepsExactly | src/services/repository_artifact_store.py:1152-1182 | skipping `n` rows of a descending order keeps exactly n, or all if there are fewer |
| Ranking.NewestAreNewer | src/services/repository_artifact_store.py:1152-1182 | every row kept is newer than every row deleted |
| ArtifactRetention.RetentionKeepsLive | src/services/repository_artifact_store.py:733-760 | after the daily retention exactly the protected locations, those of other repositories and the newest of the rest are left, with their presence and points, and every artifact present at one of them |
| ArtifactRetention.RetentionByAgeAndCount | src/services/repository_artifact_store.py:1194-1230 | an artifact that no kept location has any more stays exactly while its age is at most the configured days of 24 hours, and fewer than the configured count of such artifacts are later, as far as either is set |
| ArtifactRetention.TenLocationsStay | src/services/repository_artifact_store.py:1152-1182 | up to ten unprotected locations of a repository all stay |
| ArtifactRetention.DueOnAnotherDay | src/services/repository_artifact_store.py:1126-1149 | after a retention the next one is due on another day of 24 hours since the epoch |
| ArtifactRetention.UnprotectedObservationIsPruned | src/services/repository_artifact_store.py:1152-1182 | eleven locations of which the oldest is pruned: being observed does not protect it |
| ArtifactMerge.MergeIsLossless | src/services/repository_artifact_store.py:504-538 | presence at the target is the union of both, presence elsewhere is unchanged, exactly the artifacts present nowhere go, and the tables stay consistent |
| ArtifactMerge.MergeKeepsEveryPoint | src/services/repository_artifact_store.py:519-535 | every stats point survives, the source's at the target: the final delete cascades to nothing |
| ArtifactMerge.MergeKeepsRemovals | src/services/repository_artifact_store.py:1291-1354 | a row at the target is present if either was, and otherwise bears the later removal time, and the step recorded at the target or else at the source |
| ArtifactMerge.MergedRowsKeepMarks | src/services/repository_artifact_store.py:1291-1354 | the row loop leaves unique observations whose presence and removal marks agree |
| ArtifactMerge.BecomesAfterOneMore | src/services/repository_artifact_store.py:1306-1354 | one pass of the loop moves the source row, or lets the target's row of the same artifact absorb it, and touches no other |
| ArtifactService.RepositoryArtifactStore.constructor | src/services/repository_artifact_store.py:56-60 | an empty store satisfies the invariant; the retention limits are kept |
| ArtifactService.RepositoryArtifactStore.FindOrCreateRepository | src/services/repository_artifact_store.py:815-837 | the row of (backend, id), created only if missing |
| ArtifactService.RepositoryArtifactStore.UpsertLocation | src/services/repository_artifact_store.py:840-882 | the row that holds the key, or a fresh row with an id above all others, points to the repository; nothing else changes |
| ArtifactService.RepositoryArtifactStore.InsertArtifact | src/services/repository_artifact_store.py:885-923 | the artifact of (repository, backend id), created only if missing |
| ArtifactService.RepositoryArtifactStore.UpsertLocationObservation | src/services/repository_artifact_store.py:1027-1044 | the one row of artifact and location becomes present, its removal marks cleared |
| ArtifactService.RepositoryArtifactStore.InsertStatsPoint | src/services/repository_artifact_store.py:1047-1080 | one fresh point at a location of its repository |
| ArtifactService.RepositoryArtifactStore.MarkMissingArtifactsRemoved | src/services/repository_artifact_store.py:1083-1110 | exactly the present rows of the location that were not seen become removed, with time and step |
| ArtifactService.RepositoryArtifactStore.RecordSnapshots | src/services/repository_artifact_store.py:674-702 | every snapshot with an id has its artifact and a present row at the location; the ids returned are exactly those artifacts |
| ArtifactService.RepositoryArtifactStore.PersistObservation | src/services/repository_artifact_store.py:634-731 | keeps the invariant under the precondition that the key is free or belongs to the repository; states the whole new state |
| ArtifactService.RepositoryArtifactStore.RebindLocationIdentity | src/services/repository_artifact_store.py:1357-1385 | whatever location holds the key is dropped like a deleted one, the repository found before is tidied up, and a new row takes the key |
| ArtifactService.RepositoryArtifactStore.ResolveObservedLocation | src/services/repository_artifact_store.py:188-255 | undisturbed: which of the three results, and the whole new state of each; afterwards the key belongs to the observed repository except under another backend name |
| ArtifactService.RepositoryArtifactStore.DeleteLocation | src/services/repository_artifact_store.py:489-502 | deletes exactly a location of that repository, with its consequences, or changes nothing |
| ArtifactService.RepositoryArtifactStore.MergeArtifactLocations | src/services/repository_artifact_store.py:1291-1354 | the row loop over the source location yields the merged rows |
| ArtifactService.RepositoryArtifactStore.MergeLocation | src/services/repository_artifact_store.py:504-538 | merges exactly two different locations of the repository, or changes nothing |
| ArtifactService.RepositoryArtifactStore.PruneLocationsByCount | src/services/repository_artifact_store.py:1152-1182 | other repositories' and protected locations stay, of the rest exactly the newest `limit`; what goes takes its observations and points with it, and nothing else changes |
| ArtifactService.RepositoryArtifactStore.PruneArtifacts | src/services/repository_artifact_store.py:1194-1230 | every artifact present anywhere stays, and of the others exactly those within both age and count; nothing else changes |
| ArtifactService.RepositoryArtifactStore.ApplyRetentionIfDue | src/services/repository_artifact_store.py:733-760 | runs exactly if limits are set, protected keys are known and this repository has had none that day; both prunings and the new date, or nothing; an artifact no kept location has stays by its age in days and the count, spelt out |
| ArtifactService.RepositoryArtifactStore.PersistRun | src/services/repository_artifact_store.py:62-132 | the persisting transaction: the observation and then the retention if due, with the state in between; new artifacts bear the id and time of their snapshot; the age in days and the count as above |
| ArtifactService.ObservationIsExact | src/services/repository_artifact_store.py:634-731 | after an observation the listed snapshots are present at the location, with a full reconcile no others; presence elsewhere, earlier artifacts and earlier points are as before |
| ArtifactService.ObservationLeavesOtherRows | src/services/repository_artifact_store.py:634-731 | rows of other locations do not change at all |
| ArtifactService.ObservedRowsAreExact | src/services/repository_artifact_store.py:1027-1110 | each row of the location: present without removal marks if seen, with the time and step of its removal if missing in a full reconcile, and as before otherwise |
| ArtifactService.RowStays | src/services/repository_artifact_store.py:634-731 | an observation deletes no row and changes neither artifact nor location of one |
| StatsCollector.BackupStatsCollector.OtherTransactions | src/services/repository_artifact_store.py:62-538 | deletes, merges, prunings, and what other collectors write when they resolve and persist keep the invariant and a claimed key, unless another identity is read behind that very key |
| StatsCollector.RebindKeepsClaim | src/services/repository_artifact_store.py:1357-1385 | rebinding another key, or this one to the identity claimed for it, keeps the claim, however old the read it rests on |
| StatsCollector.BackupStatsCollector.ResolveLocation | src/services/backup_stats_collector.py:190-201 | resolving, with any such transactions between its read and its write and after it, leaves the key with the observed repository |
| StatsCollector.BackupStatsCollector.AskFirst | src/services/backup_stats_collector.py:114-184 | which first query is asked and whether there is anything to store |
| StatsCollector.BackupStatsCollector.Observe | src/services/backup_stats_collector.py:201-247 | which snapshots are persisted, whether all are asked for again, and when they are taken for the complete state; what follows from it for each trigger is PresenceByTrigger |
| StatsCollector.BackupStatsCollector.ProtectedKeys | src/services/backup_stats_collector.py:214-232 | the observed location alone is protected unless a retention is due; then all configured ones are |
| StatsCollector.BackupStatsCollector.ResolveAndPersist | src/services/backup_stats_collector.py:186-251 | settles the key, lets others commit, and then persists and retains; the order establishes the precondition of the upsert |
| StatsCollector.BackupStatsCollector.Collect | src/services/backup_stats_collector.py:78-253 | the queries asked, in order; stores something exactly if there is something to store; keeps the invariant from any consistent store; otherwise changes nothing |
| StatsCollector.UnjustifiedRemovalIff | src/services/backup_stats_collector.py:103-247 | of the artifacts present at the observed location when the transaction began, one is marked removed although no successful query for all snapshots answered without it exactly if a cleanup met a changed identity |
| StatsCollector.PresenceByTrigger | src/services/backup_stats_collector.py:186-247 | what is present at a kept location afterwards: after a retention run or a refresh of its own that succeeded exactly what the answer lists; after a backup under a changed identity exactly what the second answer lists; under its own identity what was there and the newest; after a failed query what was there |
| StatsCollector.PointByTrigger | src/services/backup_stats_collector.py:114-131 | one statistics point for the statistics collected, none from a retention run |
| StatsCollector.WorthwhileIff | src/services/backup_stats_collector.py:160-184 | when there is something to store, spelt out for each trigger |
| StatsCollector.AsksForAllIff | src/services/backup_stats_collector.py:112-153 | all snapshots are asked for by retention and refresh, and by a backup exactly if it met a changed identity; otherwise it asks for one |
| StatsCollector.CleanupReconcilesUnasked | src/services/backup_stats_collector.py:233-247 | a cleanup that meets a changed identity: no query, and a full reconcile with nothing |
| StatsCollector.ObservedLocationStaysIff | src/services/repository_artifact_store.py:733-760 | the observed location is kept exactly unless retention ran and it is neither protected nor among the newest |
| StatsCollector.ConfiguredLocationStays | src/services/backup_stats_collector.py:214-232 | it is kept whenever the active configuration names its key or cannot be read |
| StatsCollector.ConfiguredLocationsStay | src/services/backup_stats_collector.py:214-232 | with no other transaction in between, a retention prunes no location that the active configuration names |
| StatsCollector.KeptLocationsKeepAll | src/services/repository_artifact_store.py:733-760 | the retention of the transaction takes neither presence, nor artifacts, nor points from a kept location |
| StatsCollector.CollectionIsExact | src/services/backup_stats_collector.py:78-253 | retention included: at the observed location the listed snapshots are present, with a full reconcile no others, and presence at every other kept location is as it was |
| StatsCollector.OnlyWhatIsGoneIsRemoved | src/services/backup_stats_collector.py:186-247 | an artifact no longer present at the observed location is missing from a successful answer to a query for all snapshots, unless a cleanup met a changed identity |
| ResourceIds.NormalizingKeepsThePlace | src/core/locking.py:108-115 | normalising the components of a path leads to the same place in the tree |
| ResourceIds.SameEndpointIff | src/core/locking.py:118-155 | a repository behind rclone and a direct endpoint parse to the same remote and path exactly unless the remote is called rclone and the path reads as another endpoint |
| ResourceIds.RepositoryAndEndpointShareIdIff | src/core/locking.py:125-163 | a repository behind rclone and a direct endpoint have one resource id exactly unless the remote is called rclone and the path reads as an endpoint on another remote or with another normal path |
| ResourceIds.EndpointIdsEqualIff | src/core/locking.py:125-155 | ids of endpoints are equal exactly if the remotes and the normalised paths are |
| ResourceIds.EndpointIdsEqualIffSamePlace | src/core/locking.py:108-155 | for paths without backslashes exactly if the remotes are equal and the paths lead to one place from wherever they start |
| ResourceIds.NormalizedEqualIff | src/core/locking.py:108-115 | two paths have one normal form exactly if they lead to one place from every start |
| ResourceIds.LeadingSlashes | src/core/locking.py:108-115 | a leading slash stays one slash, and exactly two stay two |
| ResourceIds.LocalIdsEqualIff | src/core/locking.py:125-155 | two values that begin like local paths and are no endpoints have one id exactly if they resolve to one path |
| ResourceIds.AddressIdsEqualIff | src/core/locking.py:125-155 | two other values that are no endpoints have one id exactly if they are equal |
| ResourceIds.KindsNeverShareIds | src/core/locking.py:125-155 | an endpoint, a local path and any other value never share an id |
| ResourceIds.RepositoryNeedsPrefix | src/core/locking.py:125-159 | a restic repository is an endpoint only behind the rclone prefix |
| ResourceIds.ShadowedRemote | src/core/locking.py:125-163 | rclone:rclone:b2:x and rclone:b2:x: one place on the remote "rclone", two ids |
| ResourceIds.CanonicalIdIsStableIff | src/core/locking.py:108-155 | canonicalising a canonical endpoint id changes nothing exactly unless the path begins with a backslash and is more than the root |
| ResourceIds.LeadingBackslashIsUnstable | src/core/locking.py:108-115 | a path on which it changes |
| LockProtocol.StepKeepsSound | src/core/locking.py:198-233 | every lock operation, sleep, finish or death keeps: a lock has exactly the owner whose position says so, and failures blame upwards |
| LockProtocol.ExecutionsStaySound | src/core/locking.py:198-233 | so does every interleaving of any number of runs |
| LockProtocol.OperatingRunsAreDisjoint | src/core/locking.py:198-233 | two runs operating at once share no resource |
| LockProtocol.RestingRunsHoldNothing | src/core/job_runner.py:287-315 | a run that sleeps or has finished holds nothing; at most retry count + 1 attempts; sleeping only with a configured delay |
| LockProtocol.FailuresAreRecorded | src/core/job_runner.py:287-315 | every attempt that gave up was blocked by a recorded holder |
| LockProtocol.OnlyHeldLocksBlock | src/core/locking.py:198-214 | an attempt fails only at a lock that another run owns at that moment |
| LockProtocol.GivesUpOnlyAfterTheLast | src/core/job_runner.py:287-315 | a run gives up for good only when its attempts are used up, no delay is configured, or it dies |
| LockProtocol.AttemptsAreConsecutive | src/core/job_runner.py:287-315 | attempts are counted one by one, each after a sleep |
| LockProtocol.FinishesWellAfterOperating | src/core/job_runner.py:241-285 | a run finishes well only after its operation and after giving everything back |
| LockProtocol.UnhinderedRunOperates | src/core/locking.py:198-214 | with all its locks free and nobody in the way, an attempt always succeeds |
| LockProtocol.BlameGoesUp | src/core/locking.py:186-214 | if A failed on a lock held by B and that attempt of B failed on a lock, the second lock is strictly greater |
| LockProtocol.NotAllBlockEachOther | src/core/locking.py:186-214 | in any finite set of failed attempts one was not blocked by an attempt that failed within the set |
| ResourceLocks.ResourceLockManager.constructor | src/core/locking.py:168-195 | duplicates are dropped and the locks are in ascending order |
| ResourceLocks.ResourceLockManager.Acquire | src/core/locking.py:198-214 | whatever other runs do in between: all locks, or none and the lock that refused, which another run owned at that moment |
| ResourceLocks.ResourceLockManager.ReleaseFirst | src/core/locking.py:209-211 | gives back everything taken so far |
| ResourceLocks.ResourceLockManager.ReleaseAll | src/core/locking.py:223-226 | afterwards the run owns nothing |
| ResourceLocks.ResourceLockManager.AcquireWithRetry | src/core/job_runner.py:287-315 | holds everything or nothing; fails only after retry count + 1 attempts, or one without a delay; every attempt but a successful one was refused a lock |
| JobTraces.HooksRunInOrder | src/executors/hooks.py:34-49 | hooks run in order up to the first that fails; the list succeeds iff all do |
| JobSteps.RunRunsOwnHooks | src/executors/hooks.py:34-49 | every list of hooks of a run is the one configured for its level and its phase, run from its beginning, all of it if it succeeds; none in a dry run |
| JobTraces.LevelIsNested | src/core/workflow.py:181-220 | a level is its pre list, its contents if that succeeded, and then exactly one of post and on_error |
| JobTraces.RunIsNested | src/core/job_runner.py:364-379 | the trace of any target, for every outcome, is well nested through job, workflow, backup and rclone levels |
| JobTraces.RunSucceedsIff | src/core/workflow.py:48-140 | a run succeeds iff every pre list and every command did; after the first failure only on_error lists follow |
| JobTraces.FailureEndsTheRun | src/core/workflow.py:79-103 | the same for every trace that reads as well nested |
| JobTraces.SingleSubstepHasNoHooks | src/core/workflow.py:120-140 | a single substep runs its command and no hooks of the backup |
| JobSteps.SubstepStrings | src/core/workflow.py:120-140 | "backup.x.backup", "backup.x.retention" and "backup.x.cleanup" run exactly the backup, the forget and the prune of x, and nothing else |
| JobSteps.OtherSubstepFails | src/core/workflow.py:120-140 | any other third part runs no command and fails |
| JobSteps.TaskStrings | src/core/workflow.py:105-140 | "backup.x" runs the whole backup and "rclone.x" the transfer, and an unknown task fails |
| JobSteps.NamelessStepsAreInvalid | src/core/job_runner.py:57-78 | a step needs the name of its task |
| JobSteps.BackupPerforms | src/core/workflow.py:222-236 | a backup performs its backup, and then the configured retention and cleanup as far as all before succeeded |
| JobSteps.RunPerforms | src/core/workflow.py:48-140 | a run performs the commands its target names, in that order from the first on, and all of them if it succeeds |
| JobSteps.PlanIsCollected | src/core/job_runner.py:400-455 | what is collected are the restic commands the target names, in the same order |
| JobPairing.RunCarriesOn | src/core/job_runner.py:324-362 | in any run, dry or not, a prefix of the target's plan succeeds, all of it if the run does, and the queues hold exactly the ids and, but for dry runs, the summaries of those successes in order |
| JobPairing.CollectPairs | src/core/job_runner.py:400-487 | collecting pops for every success its own id and its own summary and leaves both queues empty |
| JobPairing.RunReports | src/core/job_runner.py:457-487 | what is reported for any target, outcome and history setting, nothing in a dry run, and that both queues are empty again |
| JobPairing.CallbacksAreTheSuccesses | src/core/job_runner.py:343-362 | with history and no dry run the callbacks are exactly the successful restic substeps in execution order, each with its own step id and summary |
| JobPairing.CallbacksWithoutHistoryIff | src/core/job_runner.py:457-487 | without history that holds of one run exactly when it succeeded or every success has a summary |
| JobHistory.AllReportedWithoutHistoryIff | src/core/job_runner.py:457-487 | without history every success of every run of a target is reported, whatever succeeds and fails, exactly if the target has at most one restic substep and nothing that can fail comes after it |
| JobHistory.NothingIsLost | src/core/job_runner.py:457-487 | for such targets no run loses a success |
| JobHistory.SomethingIsLost | src/core/job_runner.py:457-487 | for every other target a run that stops right after its first success and never reports it |
| JobHistory.FailedRetentionLosesTheBackup | src/core/job_runner.py:457-487 | a backup whose retention fails: the snapshot was taken and nothing is reported |
| JobResources.RunStaysWithinLocks | src/core/job_runner.py:495-529 | every command of a run, whatever its outcomes, touches only resources its target locks |
| JobResources.CollectionStaysWithinLocks | src/core/job_runner.py:400-455 | the restic substeps of a target's plan, all that is ever collected, concern only resources the target locks |
| JobResources.ReportsAreWork | src/core/job_runner.py:457-487 | every success callback of a run concerns a restic substep of its plan |
| JobResources.WorkStaysWithinLocks | src/core/job_runner.py:495-529 | every command and every post-processed substep of a run stays within its locks |
| JobResources.WorkNeverCollides | src/core/job_runner.py:241-261 | in every interleaving, commands or post-processing of different runs in progress at once name no common resource |
| JobResources.BackupNeverMeetsTransfer | src/core/locking.py:125-163 | no restic command on a repository behind rclone, and no post-processing of it, goes on while another run transfers from or to that endpoint, unless the two have different ids |
| JobResources.LocalPathsNeverMeet | src/core/locking.py:125-155 | however they are written, no two runs work at once on values that resolve to one local path, as repositories or ends of transfers |
| JobService.JobRunner.RunHookList | src/executors/hooks.py:34-49 | the loop stops at the first failing hook; nothing runs in a dry run |
| JobService.JobRunner.RunTrackedStep | src/core/workflow.py:355-384 | a command between the history callbacks; ids and summaries are queued exactly for successes |
| JobService.JobRunner.RunBackupCore | src/core/workflow.py:222-236 | backup, then retention and cleanup if configured, up to the first failure |
| JobService.JobRunner.ExecuteBackup | src/core/workflow.py:181-220 | the backup level in place |
| JobService.JobRunner.ExecuteRclone | src/core/workflow.py:311-353 | the rclone level in place |
| JobService.JobRunner.ExecuteStep | src/core/workflow.py:105-140 | the step in place, as its meaning says; which strings run which commands is spelt out by the rows on step strings above |
| JobService.JobRunner.ExecuteWorkflow | src/core/workflow.py:48-103 | the workflow level in place, stopping at the first failed step |
| JobService.JobRunner.CollectSuccessfulBackupSubstep | src/core/job_runner.py:457-487 | pops one id and one candidate and reports them, or stays silent |
| JobService.JobRunner.CollectSteps | src/core/job_runner.py:437-455 | the collection of a workflow, step by step |
| JobService.JobRunner.Run | src/core/job_runner.py:158-239 | validation, the operation inside the job hooks, and the collection, in place |
| LockedRuns.RunLocked | src/core/job_runner.py:241-315 | the same between taking and giving back the locks: an invalid target takes none, a blocked run does nothing, and from before the first hook to after the last callback exactly the target's resources are owned; nothing afterwards |
| TickSchedule.DueIffFireInWindow | src/scheduler/cron.py:932-973 | a schedule is due iff a fire instant lies in the window: after the last successful check, or from the start on |
| TickSchedule.DueWithinTheMinute | src/scheduler/cron.py:932-973 | without a time to start from, due means a fire instant in the last sixty seconds |
| TickSchedule.TriggersIff | src/scheduler/cron.py:440-512 | tick k triggers a task iff it gets that far and a fire instant lies in its window |
| TickSchedule.EachInstantHasOneTick | src/scheduler/cron.py:289-312 | an instant lies in the window of exactly the first successful tick at or after it |
| TickSchedule.NoInstantIsLost | src/scheduler/cron.py:289-312 | every fire instant since the start triggers at the first successful tick after it; failed ticks only leave the window open |
| TickSchedule.NoInstantTriggersTwice | src/scheduler/cron.py:440-512 | no instant lies in the windows of two successful ticks |
| TickSchedule.CronScheduler.CheckAndRun | src/scheduler/cron.py:452-512 | exactly the due tasks among those reached are triggered, in order |
| TickSchedule.CronScheduler.RunTick | src/scheduler/cron.py:293-312 | only a tick that went through moves the last check time |
| TickSchedule.ReportWindowsDisjoint | src/scheduler/cron.py:864-879 | reports with a fire instant between them cover disjoint windows |
| TickSchedule.ReportWindowsContiguousIff | src/scheduler/cron.py:876-879 | they leave no gap exactly if only one fire instant lies between them |
| TickSchedule.SkippedInstantIsNotReported | src/scheduler/cron.py:864-879 | ticks at 10 and 30 of a schedule that fires every ten: what finished between 10 and 20 is in neither report |
| StopHandshake.StepKeepsSound | src/scheduler/cron.py:414-438 | every step of stop calls, start-up and loop keeps: a returned stop is set, queued, or bound to be seen |
| StopHandshake.StopIsNeverLost | src/scheduler/cron.py:253-257 | once a stop has returned, a running loop with nothing left to deliver has its stop event set |
| StopHandshake.StartUpSeesTheStop | src/scheduler/cron.py:253-257 | wherever the start-up is when a stop returns, taken to its end it leaves the event set, queued, or the loop closed |
| StopHandshake.OnlyAStopSetsTheEvent | src/scheduler/cron.py:253-257 | the stop event is set or queued only after some stop call |
| StopHandshake.UnaskedLoopRuns | src/scheduler/cron.py:253-289 | without one the start-up, taken to its end, leaves a running loop whose event is neither set nor queued |
| StopHandshake.StopIsExact | src/scheduler/cron.py:414-438 | in a running loop with nothing under way the event is set exactly if somebody asked |
| StopHandshake.EventExistsFirst | src/scheduler/cron.py:414-438 | nothing is scheduled before the event exists |
| StopHandshake.StopBeforeTheLoop | src/scheduler/cron.py:414-438 | a stop before the thread has run at all |
| OwnerHandshake.StepKeepsSound | src/scheduler/owner.py:161-234 | every step keeps: a live scheduler nobody asked to stop is published or in the owner's hands |
| OwnerHandshake.NoSchedulerIsForgotten | src/scheduler/owner.py:124-139 | once stop has returned and the owner thread has ended, every live scheduler has been asked to stop |
| OwnerHandshake.OnlyTheOwnerHoldsOne | src/scheduler/owner.py:297-312 | even before that, a live scheduler not asked to stop is only one the owner is just starting |
| OwnerHandshake.OnlyForAReason | src/scheduler/owner.py:161-234 | a scheduler is asked to stop only after a stop call, or because it failed to start |
| OwnerHandshake.RunningSchedulerIsPublished | src/scheduler/owner.py:161-234 | without a stop call a scheduler that reports to run is published |
| OwnerHandshake.LiveSchedulerStaysPublished | src/scheduler/owner.py:86-122 | and stays so as long as it lives |
| OwnerHandshake.DeadSchedulerIsReplaced | src/scheduler/owner.py:86-122 | without a stop call a dead scheduler is taken down and the configuration loaded for another |
| OwnerHandshake.OwnerEndsOnlyWhenAsked | src/scheduler/owner.py:86-122 | the owner thread ends only after a stop call |
| Utf8.RoundTrip | src/services/output.py:19-22 | encoded text decodes to itself, strictly and with replacement |
| Utf8.StrictIsEncoding | src/services/output.py:19-22 | what decodes strictly is the encoding of the result: no overlong form, no surrogate, nothing out of range |
| Utf8.BadByteIsReplaced | src/core/stream_logging.py:38-40 | a byte that begins no sequence is replaced by U+FFFD |
| Utf8.EncodedIsComplete | src/services/output.py:18-20 | each character encodes to one well-formed sequence that decodes to it |
| Utf8.RunIsDecode | src/core/stream_logging.py:38-47 | the incremental decoder adds up to decoding everything at once, wherever the stream is cut |
| StreamBuffers.LineLogBuffer.Feed | src/core/stream_logging.py:41-56 | emitted so far are exactly the complete lines of the text decoded so far |
| StreamBuffers.LineLogBuffer.Flush | src/core/stream_logging.py:58-63 | in the end exactly the lines of the whole decoded stream have been emitted |
| StreamBuffers.LogLines | src/core/stream_logging.py:18-63 | for every split of a stream the lines are those of the whole |
| StreamBuffers.LinesAreThePieces | src/core/stream_logging.py:41-63 | each piece of the text between newlines gives one line without carriage returns at its end, an empty last piece none |
| StreamBuffers.ByteTailBuffer.Feed | src/core/stream_logging.py:88-107 | holds exactly the last max bytes fed, truncated iff more were fed |
| StreamBuffers.ByteTailBuffer.DropOverflow | src/core/stream_logging.py:98-107 | the trimming loop leaves exactly the last max bytes |
| StreamBuffers.ByteTailBuffer.DecodeTail | src/core/stream_logging.py:113-114 | the decoded tail is that of the last max bytes |
| OutputLimit.NextBoundary | src/services/output.py:19-26 | from any byte the next character boundary is at most three continuation bytes away |
| OutputLimit.DropUntilDecodes | src/services/output.py:20-28 | dropping bytes until the rest decodes stops exactly at that boundary |
| OutputLimit.LimitOutput | src/services/output.py:4-31 | for all limits a suffix of the line-limited text that loses at most three bytes to alignment; positive limits are kept, a limit of zero exactly if there is nothing to limit; truncated iff a limit was exceeded |
| OutputLimit.LimitedIsTheLastLines | src/services/output.py:12-16 | of too many lines exactly the last ones are left, a newline between any two |
| TextLines.SuffixLines | src/services/output.py:12-16 | a suffix has no more lines than the whole |
| TextLines.BreaksEndLines | src/services/output.py:12-16 | each of the ten line-breaking characters ends a line |
| TextLines.OtherCharactersStay | src/services/output.py:12-16 | and no other does |
| PushMessages.EscapeTruncated | src/notifications/formatting.py:164-183 | within the limit; when it cuts above three, the escape of the longest prefix that fits, trailing blanks dropped, and three dots |
| PushMessages.TrimmedEscape | src/notifications/formatting.py:182-183 | dropping trailing blanks of the escaped text is dropping those of the text: no escape is split |
| PushMessages.UnescapeEscape | src/notifications/formatting.py:164-183 | reading an escaped text as HTML gives the text back |
| PushMessages.TruncatedReads | src/notifications/formatting.py:164-183 | read as HTML, a truncated value is the value or a beginning of it and three dots |
| PushMessages.EscapedHasNoMarkup | src/notifications/formatting.py:164-183 | no markup of its own is in an escaped text |
| PushMessages.DurationLabelFits | src/notifications/formatting.py:118-129 | at most 20 characters for any duration a timedelta can hold |
| PushMessages.DurationLabelTells | src/notifications/formatting.py:118-129 | the label names the hours, minutes and seconds of the duration |
| PushMessages.FormatPushHtmlMessage | src/notifications/formatting.py:341-377 | the parts of the message, and that every message has at most 824, so at most 1024, characters |
| PushMessages.HeaderLines | src/notifications/formatting.py:341-356 | the first lines of every message |
| PushMessages.DetailLines | src/notifications/formatting.py:357-377 | and the lines after them, as far as the event has a message, an error and a log path |
| EditorForm.ParseShowInt | src/services/config_editor_schema.py:834-840 | an integer shown and read back is itself |
| EditorForm.BlanksAroundDoNotMatter | src/services/config_editor_schema.py:811-853 | blanks on either side of a submitted value do not matter |
| EditorForm.UnderscoreBetweenDigits | src/services/config_editor_schema.py:834-840 | an underscore between two digits does not matter |
| EditorForm.UnderscoresStandAlone | src/services/config_editor_schema.py:834-840 | anywhere else it makes the number invalid |
| EditorForm.SwitchesOn | src/services/config_editor_schema.py:920-933 | what switches a box on: 1, true, yes or on, in any case |
| EditorForm.AppliedOkIff | src/services/config_editor_schema.py:811-853 | a form is accepted iff no field is an invalid number |
| EditorForm.PseudoTableIsApplied | src/services/config_editor_schema.py:856-897 | for any accepted form the pseudo table is the form applied to an empty table |
| EditorForm.BadNumberIsShownAgain | src/services/config_editor_schema.py:856-897 | a number that cannot be read is kept as it was typed |
| EditorForm.TomlTable.Apply | src/services/config_editor_schema.py:811-853 | the table in place, also when an invalid number stops it |
| EditorForm.PseudoTableFromForm | src/services/config_editor_schema.py:856-897 | the loop that rebuilds the table, and its agreement with applying the form |
| EditorRoundTrip.OwnerIsUnique | src/services/config_editor_schema.py:914-933 | no form name belongs to two fields |
| EditorRoundTrip.FormOfField | src/gui/templates/_config_editor_fields.html:55-115 | what the whole form holds under a field's names is what that field renders |
| EditorRoundTrip.FormReadsBack | src/services/config_editor_schema.py:764-808 | each field of a submitted form reads back as the value shown |
| EditorRoundTrip.RoundTrip | src/services/config_editor_schema.py:764-853 | submitting what is shown of a normal table restores every field and leaves every other key alone, with and without the page's script |
| EditorRoundTrip.SilentFieldIsKept | src/services/config_editor_schema.py:818-821 | a field that is not submitted keeps its old value |
| EditorRoundTrip.OverrideAppliesIff | src/services/config_editor_schema.py:811-853 | after any accepted form an inheriting list is overridden with nothing iff the form sends it empty with the tick, or does not send it and it already was |
| EditorRoundTrip.TickedInputs | src/gui/static/js/config-editor-form.js:265-278 | a ticked empty list is read as the override without the script and not at all with it |
| EditorRoundTrip.TickTakesEffectIff | src/gui/static/js/config-editor-form.js:265-278 | ticking the override and saving the whole form makes the list empty exactly without the script, or if it already was |
| EditorRoundTrip.TickIsLost | src/gui/static/js/config-editor-form.js:265-278 | a single ticked list saved with the script: nothing is stored |
| ConfigSchema.ConfigFieldsAreChained | src/models/config_fields.py:270-871 | every inheriting field inherits from the section right above, which has the field too; resolved names are distinct |
| ConfigSchema.ResolvedNames | src/models/config_fields.py:270-690 | extra arguments lose the name of their tool when they are resolved, every other field keeps its name |
| ConfigSources.CommonFieldsReachEveryTask | src/models/config_fields.py:270-690 | hook timeout and notification switches reach every kind of task through the job and the global section |
| ConfigSources.BackupFieldsReachBackups | src/models/config_fields.py:270-690 | the fields of backups, and the excludes, go through the backup sections |
| ConfigSources.RcloneFieldsReachTransfers | src/models/config_fields.py:270-690 | the fields of transfers, and the excludes, go through the rclone sections |
| ConfigSources.UnwrittenAreDefaults | src/models/config.py:203-450 | what the models of the global sections hold when nothing is written are the final defaults |
| ConfigSources.UnwrittenValue | src/models/config_fields.py:270-690 | with nothing written switches are off, lists are empty, and everything else has no value |
| ConfigInheritance.ResolveLevel | src/models/resolve.py:142-205 | the loop resolves exactly the inheriting fields of a level, each by its own rule |
| ConfigInheritance.ResolveIsNearest | src/models/resolve.py:58-139 | scalar, list and password rules each yield the nearest deciding value of the longer chain |
| ConfigInheritance.JobLevelIsNearest | src/models/resolve.py:377-420 | a job section resolved against its global one |
| ConfigInheritance.TaskIsNearest | src/models/resolve.py:420-460 | a task resolved against the resolved job sections |
| ConfigInheritance.ResolveJob | src/models/resolve.py:377-485 | every task of a job |
| ConfigInheritance.ResolveConfig | src/models/resolve.py:332-485 | for every configuration each inheriting field of each job and task has the value of the nearest level that decides it, or the default |
| ConfigSources.NearestIsAtOrigin | src/models/resolve.py:58-139 | that value is the one at the nearest level setting it explicitly: false and the empty list stop inheritance, credentials move as a triple |
| ConfigSources.SourceIsOriginIff | src/services/config.py:124-137 | the attributed level is that level iff the nearest level naming the key holds a value |
| ConfigSources.CredentialsSourceIsOriginIff | src/services/config.py:139-145 | the same for the three password fields together |
| ConfigSources.EffectiveValueHasItsSource | src/services/config.py:111-145 | so a shown value other than a password has the shown source whenever nothing was normalised away |
| ConfigSources.EffectiveCredentialsHaveTheirSource | src/services/config.py:139-145 | the three password fields have the values of the shown source whenever that level holds one of them |
| ConfigSources.WrittenPasswordsHaveTheirSource | src/services/config.py:139-145 | which is always so in a configuration read from a file |
| ConfigSources.NormalisedFieldIsMisattributed | src/models/config.py:95-97 | an empty `keep_within` on a task: the value is the job's, the shown source the task |
| ConfigSources.NormalisedPasswordIsMisattributed | src/services/config.py:139-145 | a password field named as None on a task: the credentials are the job's, the shown source the task |

## Left out

- JSON, text and diagnostic columns of the artifact tables, `created_run_step_id`: they travel through unchanged.
- ArtifactService.RepositoryArtifactStore.ResolveObservedLocation: states the undisturbed case; with other transactions between its read and its write it is StatsCollector.BackupStatsCollector.ResolveLocation.
- StatsCollector.BackupStatsCollector.OtherTransactions: nobody else reads another identity behind the observed key between resolving and persisting; two processes that disagree about one location are outside the claim.
- ArtifactService.RepositoryArtifactStore.NewSortableId: any id above all earlier ones stands for the time-ordered id.
- Exceptions and cancellation inside hooks, commands and statistics collection; a failed scheduler tick is modelled.
- The interpreter of workflows and the runner that owns it are one class, since they share their queues.
- `RunManager`, `RunHistoryService` and the control socket are not part of this model; history ids come from outside.
- JobService.JobRunner.Run: takes no locks itself; they are around it in LockedRuns.RunLocked.
- The step-by-step lock protocol and the lock manager's loops are proved separately, each against any behaviour of other runs.
- LockProtocol.StepKeepsSound: lock files are ownership per resource id, so hashing ids to file names is taken to be injective.
- Local paths are resolved by a parameter; home directories and symbolic links are not modelled.
- Cron expressions and time zones: a schedule is any set of fire instants whose latest one before a time can be asked.
- The in-memory report buffer used without run history.
- Error texts and the samples of output kept for them; a failed parse is one outcome whatever its message.
- Page numbers, view building and page links of the browser.
- Lone surrogates, which a Python string may hold and UTF-8 cannot encode.
- EditorForm.ParseShowInt: digits are ASCII; Python's `int` also reads other decimal digits.
- The grouping of resolved values into capability buckets, and fields that do not inherit.
- Configured remotes, credentials in the editor, and every other form are not modelled.
