# polytable, verified

polytable translates lakehouse table metadata: it reads a table in one format and writes the metadata of the
same table in another, without touching data files. This project models the parts of it that have to be right
for that to be safe, and proves them with the Dafny verifier. `dafny verify dfyconfig.toml` checks everything.

The central claim of the program is that the fast incremental path always lands in the state the simple full
path would give. A Delta log is read either as a full snapshot (`DeltaSource`) or as a backlog of changes after a
persisted watermark (`DeltaResume`); the controller decides between the two (`SyncProtocol`); an Iceberg target
rebuilds its live files from diffs, one metadata commit per change, on a storage that may fail after any write
(`IcebergTable`, `IcebergCommit`). `SyncRuns` puts them together: over every run of source commits, checkpoints,
cleanups and syncs of every kind, the target's live map is the source's at the version its watermark names. This
needs commits that do not remove what they add (`CommitDiffIff`), and resumed syncs that meet the condition `ResumeIff`
shows to be exact; without a checkpoint, or with increasing timestamps and cleanup up to the checkpoint, every
resume the controller's check allows meets it. `PaimonRuns` does the same for a Paimon target. `WrittenRuns` carries
the chain one reader further: in whatever storage such runs leave, the Iceberg source's own backlogs fold to the Delta
source's live map, and the field ids of all metadata files written obey the id guarantees.

| modules | subject |
|---|---|
| `Common`, `Strings`, `Model`, `Numerals`, `Files` | shared values: sorting, strings, the canonical schema, numerals, data files and live maps |
| `Diffing`, `DiffMirror` | `DiffFiles`, when applying its diff is exact, and when its two directions mirror each other |
| `DeltaLog`, `Instants`, `DeltaSource`, `DeltaResume` | the Delta log: replay, derived instants, checkpoints, backlog, retention |
| `DeltaMeaning` | what its readers return, in terms of the actions alone |
| `IcebergSchema`, `IcebergIds`, `FieldIdHistory` | field ids: allocation, reading back, whole histories |
| `IcebergParse` | reading a schema back into the canonical model |
| `IcebergTable`, `IcebergCommit` | the Iceberg target's commits |
| `IcebergVersions`, `IcebergMeaning` | metadata file numbers and the hint; what a commit records and a reader finds |
| `IcebergHistory`, `IcebergWritten` | the Iceberg source's parent walk, and histories the target wrote, read back |
| `SyncProtocol`, `SyncRuns`, `WrittenRuns` | the controller and the protocol as a state machine |
| `BoundCodec` | column bounds: minimal two's-complement decimals and fixed-width integers |
| `PaimonReplay`, `PaimonTable`, `PaimonSync`, `PaimonRuns`, `PaimonNumbers` | Paimon as second target: replay against fold, hints, numbers, failing writes, whole runs |
| `PaimonAtoms`, `PaimonTypes` | printing and parsing Paimon types |
| `FooterMerge`, `FooterLoops`, `FooterSignature` | merging Parquet footers |
| `FooterNewest`, `FooterErrors` | which file decides, and what a failure reports |
| `FooterBounds`, `FooterFits`, `FooterJoins`, `FooterOrders` | which schemas take every file, when the merge succeeds, and what the order of the files decides |
| `PartitionDiff`, `PartitionSync` | reconciling catalog partitions through Glue's batch calls |
| `PathSegments`, `StoragePaths` | joining paths and expressing a file relative to its table |

Conventions. A live set is a map from path to (size, record count), later entries winning. Storage is a value, and
a commit is the sequence of storage values after each of its writes, so a failure after any write is a prefix of
that sequence; a class with a write budget runs the same writes step by step. Go maps iterated in arbitrary order
are sets from which elements are picked arbitrarily, and `sort.Slice` is any permutation in order. Clocks,
generated names, probe errors and what a service answers are inputs. Instants and counters are unbounded integers.

Where a natural claim fails, the code is kept as it is, a lemma gives an input on which it fails, and another says
exactly when it holds:

| claim | fails on | holds exactly when |
|---|---|---|
| replaying a Delta commit and applying its diff agree | `AddThenRemoveDiverges` | `CommitDiffIff` |
| a checked resume loses nothing | `RetentionGap`, `StalledClockGap` | `ResumeIff`; for the check, `RetentionIff` and `OrderedRetentionIff` |
| a file diff, applied, gives the new list back | `DuplicateEntryLost` | `DiffApplyIff` |
| the two directions of a diff mirror each other | `RepeatedPathUnmirrored` | `MirrorIff` |
| the Iceberg source's backlog folds to the table | `BacklogReverts` | `TelescopesIff`, `StoreTelescopesIff` |
| its retention check is its refusal | `SafeButUncovered` | `SafeIsCoveredIff`, `SafeIsExactlyCovered` |
| field ids are unique in the presence of explicit ones | `ExplicitIdsCollide`, `LateExplicitCollides` | `AssignDistinctIff`, `AllocDistinctIff` |
| Paimon's carried file list is what a reader sees | `ReaddReverts` | `FoldAgreesIff`, `NextViewIff`; over many commits, `ViewsRightIff`, `FollowsIff` |
| Paimon's record totals are right | `DeltaTotalsTooHigh` | `TotalRecordsIff`, `UncountedRemovalsIff` |
| Paimon types print and parse back | decimals with a negative parameter | `ExactIff`, `TypeReprints` |
| merged footers take every file | `RepeatedNameHidesGap`, `ListNullsLost`, `UnitFollowsFileOrder` | `RepeatedNamesIff`, `MergeTakesEveryIff` |
| the merge fails exactly when no schema takes every file | `UnitsNeverTaken`, `ListOfStructRefused`, `ListOfStructReordered` | `RefusedIff`, `FailsExactlyIff`; by signature always, `MergeIsLeastBound` |
| the order of the files does not matter to the merge | `UnitFollowsFileOrder` | `TwoOrdersIff`, `EveryOrderIff` |
| partition keys tell partitions apart | `KeyCollisions`, `CollisionLoses` | `KeyIff`, `AllLocatedIff` |

Code and comments disagree in places; the model follows the code. `typeSignature` is said to be equal only for
interchangeable types, and is equal for more (`SignatureMeans`, `SignatureBlindSpots`). The Iceberg source's
`IsIncrementalSyncSafeFrom` is said to report exactly the condition `GetChangesSince` refuses, and does so only
where snapshots have been expired and the oldest one left carries the least timestamp (`SafeIsExactlyCovered`,
`SafeButUncovered`). `DiffPartitions` is said to sort by partition key
and sorts by event type first (`EventLe`). `canonicalHostForCompare` is said to touch only hosts, and also rewrites
the first directory of a local path, which the path theorems therefore identify up to that spelling.

## Model

| member | source | states |
|---|---|---|
| `Files.ApplyFilesDiff` | pkg/formats/iceberg/target.go:457-473 | the loop drops every listed file whose path is removed, then appends the additions; without a diff the list is unchanged |
| `Files.AppliedMap` | pkg/formats/iceberg/target.go:457-473 | on live maps that list operation is "drop the removed paths, then overwrite with the added files": repeated list entries never show |
| `Diffing.DiffFiles` | pkg/model/diff.go:47-91 | the collected additions and removals, in some order sorted by path |
| `Diffing.DiffMembers` | pkg/model/diff.go:47-98 | exactly which files a diff adds (absent before or with other content) and which paths it removes (rewritten or gone) |
| `Diffing.DiffAscends` | pkg/model/diff.go:84-98 | both lists of a diff ascend by path, compared character by character |
| `Diffing.DiffApplyIff` | pkg/model/diff.go:47-98 | applying the diff gives back the new live map, under every sort, if and only if each entry of the new list is the last for its path or repeats the old file |
| `Diffing.DiffApplyFails` | pkg/model/diff.go:47-91 | on any other list some possible sort of the diff loses a file |
| `Diffing.DuplicateEntryLost` | pkg/model/diff.go:47-91 | a two-entry list and its diff, which applied leaves the reader with the wrong entry |
| `DiffMirror.MirrorIff` | pkg/model/diff.go:47-98 | for all lists, diffing in the other direction swaps added and removed, under every sort, if and only if on each path of both lists every entry is the old or the new one and the new one stands now as often as the old one stood, and on every other path all entries are alike |
| `DiffMirror.UniqueMirrors` | pkg/model/diff.go:47-98 | lists without repeated paths always mirror |
| `DiffMirror.RepeatedPathUnmirrored` | pkg/model/diff.go:47-98 | two lists on which one direction reports a rewrite and the other nothing |
| `DeltaLog.CommitDiffIff` | pkg/formats/delta/source.go:386-420 | snapshot replay of a commit and application of its diff agree, from any live map, if and only if every path the commit adds survives it |
| `DeltaLog.AddThenRemoveDiverges` | pkg/formats/delta/source.go:386-420 | on a commit that adds and then removes a path replay ends without the file and the applied diff with it, from any live map |
| `DeltaLog.TailReplay` | pkg/formats/delta/source.go:307-362 | replaying a tail of commits from the state before it is replaying the whole log |
| `DeltaLog.IncrementalRefinesFull` | pkg/formats/delta/source.go:423-483 | the diffs after any version, folded onto the live map there, give the live map of full replay |
| `DeltaLog.ReplayedSuffix` | pkg/formats/delta/source.go:423-483 | folding in a suffix the target already holds, wholly or in part, changes nothing |
| `Instants.ChainIncreases` | pkg/formats/delta/source.go:195-200 | derived instants are positive and strictly increasing whatever the raw timestamps |
| `Instants.LaterStartIsLower` | pkg/formats/delta/source.go:243-251 | a chain started later is never ahead of the full one |
| `Instants.LaterStartAgreesIff` | pkg/formats/delta/source.go:243-251 | the two agree at the end if and only if some raw timestamp since overtook the full chain |
| `Instants.ChainOfIncreasing` | pkg/formats/delta/source.go:195-200 | positive increasing timestamps pass through unchanged |
| `Instants.ChainIsLeast` | pkg/formats/delta/source.go:195-200 | the derived instants are the least ones that are positive, strictly increasing and never behind the raw timestamps |
| `DeltaSource.LoadLogState` | pkg/formats/delta/source.go:112-141 | the log state is the checkpoint plus the commits above it, with the source's error cases |
| `DeltaSource.LoadsTail` | pkg/formats/delta/source.go:112-141 | on any listing of a history, loading yields exactly the versions after the checkpoint |
| `DeltaSource.TableAt` | pkg/formats/delta/source.go:231-264 | the table in force at a version and its derived instant, by folding metaData actions and timestamps from the checkpoint on |
| `DeltaSource.GetCurrentSnapshot` | pkg/formats/delta/source.go:307-362 | the live files, table, version and instant of the loaded state, files in any order |
| `DeltaSource.GetChangesSince` | pkg/formats/delta/source.go:423-483 | one change per commit whose derived instant is past the watermark, oldest first, with the table then in force |
| `DeltaSource.CheckpointRefinement` | pkg/formats/delta/source.go:307-362 | whatever head of the log a checkpoint replaced, the snapshot is the one full replay gives (files and table); it exists exactly when there is a commit and a metaData action |
| `DeltaMeaning.TableMeans` | pkg/formats/delta/source.go:252-264 | the table after n versions is that of the last metaData action in them; there is none exactly when they hold no such action |
| `DeltaMeaning.LiveMeans` | pkg/formats/delta/source.go:332-349 | a file is live after n versions if and only if the last action on its path before then adds it |
| `DeltaMeaning.RawTimeMeans` | pkg/formats/delta/source.go:160-178 | a commit carries the timestamp of its last commitInfo, and 0 without one |
| `DeltaMeaning.SnapshotMeans` | pkg/formats/delta/source.go:307-362 | the snapshot read from any listing of a history lists exactly the files whose last action adds them, with the table of the last metaData action; it exists exactly when there is such an action |
| `DeltaMeaning.VersionMeans` | pkg/formats/delta/source.go:231-264 | the table read at a version is that of the last metaData action up to it, with the version's instant; refused exactly when there is none |
| `DeltaMeaning.ChangesMean` | pkg/formats/delta/source.go:423-483 | every reported change is its version's diff and instant, past the watermark, with the table of the last metaData action up to that version |
| `DeltaMeaning.TruncatedRefused` | pkg/formats/delta/source.go:112-141 | without a checkpoint, snapshot and backlog are refused if and only if the listing lost version 0 |
| `DeltaMeaning.BelowCheckpointRefused` | pkg/formats/delta/source.go:231-240 | a version below the checkpoint is refused, naming both |
| `DeltaResume.ChangesExact` | pkg/formats/delta/source.go:423-483 | on a listing of a history the backlog is the versions from the first derived instant past the watermark on, each once |
| `DeltaResume.ResumeIff` | pkg/formats/delta/source.go:423-483 | resuming from a watermark reports exactly the versions after k if and only if the checkpoint has not passed k and the current instants of k and k+1 enclose the watermark |
| `DeltaResume.OlderWatermarkCovers` | pkg/formats/delta/source.go:444-472 | a watermark from a chain started no later never lets a synced version be reported again |
| `DeltaResume.SameStartResumes` | pkg/formats/delta/source.go:444-472 | while the checkpoint stays put every watermark is a sound cursor, whatever the timestamps |
| `DeltaResume.IncreasingResumesIff` | pkg/formats/delta/source.go:423-483 | with positive increasing timestamps resuming is exact if and only if the checkpoint has not passed the synced version |
| `DeltaResume.RetentionSound` | pkg/formats/delta/source.go:486-506 | with increasing timestamps and no JSON commit left below the checkpoint, a positive safety check implies an exact resume |
| `DeltaResume.OrderedRetentionIff` | pkg/formats/delta/source.go:486-506 | with increasing timestamps the safety check is sound for every synced version if and only if no JSON commit below the checkpoint survives |
| `DeltaResume.RetentionIff` | pkg/formats/delta/source.go:486-506 | for any timestamps and any chain started no later than the current one, the check is sound for every version if and only if it is for the first version it accepts |
| `DeltaResume.SafeIffStamped` | pkg/formats/delta/source.go:486-506 | for any timestamps, the check says yes to the instant of a version at or after the oldest retained commit if and only if that commit carries a positive timestamp |
| `DeltaResume.RetentionGap` | pkg/formats/delta/source.go:486-506 | with commits left below the checkpoint the check says yes and commits are lost |
| `DeltaResume.StalledClockGap` | pkg/formats/delta/source.go:243-251 | equal timestamps and a moved checkpoint make a checked resume skip a commit |
| `SyncProtocol.SyncToTarget` | pkg/conversion/controller.go:197-272 | the decision (full, incremental, no-op, dry run, fallback) and everything the sync does to the target's storage under any number of successful writes; and which way it goes in terms of mode, watermark, probe and log (see TheWay) |
| `SyncProtocol.TheWay` | pkg/conversion/controller.go:197-272 | a resume is made exactly when the mode is incremental, the watermark positive, the probe answered and 0 < earliest retained timestamp <= watermark; then nothing new is a no-op that writes nothing, and otherwise one metadata file per missing version is added; in every other case a successful sync adds exactly one and is no no-op; a fallback is reported exactly when a resume was asked for and not allowed |
| `SyncProtocol.DryRunForetells` | pkg/conversion/controller.go:197-272 | a dry run reports what the sync it stands for would, if that succeeds |
| `SyncProtocol.FullSyncKeeps` | pkg/conversion/controller.go:254-272 | a full sync stopped after any write leaves the target at its old version or at the source's newest |
| `SyncProtocol.ResumeKeeps` | pkg/conversion/controller.go:232-252 | an incremental sync stopped after b writes leaves the target at the version as many steps on as commits are visible |
| `SyncRuns.StepKeeps` | pkg/conversion/controller.go:197-272 | every step — source commit, checkpoint or cleanup, any sync — keeps the target's live map equal to the source's at the version its watermark names |
| `SyncRuns.RunsStayInSync` | pkg/conversion/controller.go:197-272 | the same over every run of any length from empty storage, as long as resumed syncs resume soundly |
| `SyncRuns.UncheckpointedRuns` | pkg/conversion/controller.go:197-272 | without a checkpoint that proviso always holds, whatever the timestamps |
| `SyncRuns.OrderedRuns` | pkg/conversion/controller.go:197-272 | with increasing timestamps and cleanup up to the checkpoint the controller's own check makes it hold |
| `SyncRuns.CheckedRuns` | pkg/conversion/controller.go:197-272 | for any timestamps that condition at every step keeps the target in sync over every run |
| `SyncRuns.SuccessIsCurrent` | pkg/conversion/controller.go:197-272 | a successful committing sync, full or incremental, leaves the target at the source's newest version |
| `SyncRuns.FailureResumes` | pkg/conversion/controller.go:197-272 | after a resumed sync failed at any write, the next one is allowed and is offered exactly the missing versions |
| `IcebergSchema.SchemaToIceberg` | pkg/formats/iceberg/schema.go:61-97 | the loop over the columns is the recursive conversion, counter and last column id included |
| `IcebergSchema.ConvertFieldsFlat` | pkg/formats/iceberg/schema.go:306-421 | recursive conversion at any depth assigns exactly what one counter run over the tree's nodes in order assigns |
| `IcebergParse.NameBack` | pkg/formats/iceberg/schema.go:449-580 | every scalar, printed and parsed, comes back up to the stated widenings |
| `IcebergParse.SpecifiedNames` | pkg/formats/iceberg/schema.go:306-421 | scalar types are spelled as the Iceberg table specification lists them |
| `IcebergParse.ForeignNames` | pkg/formats/iceberg/schema.go:449-580 | names are read in any case, a decimal without parameters as (10, 0), unknown names not at all |
| `IcebergParse.SchemaRoundTrip` | pkg/formats/iceberg/schema.go:306-580 | a converted schema reads back column by column: names, ids written, types and nullability at every depth |
| `IcebergParse.KeptIff` | pkg/formats/iceberg/schema.go:306-580 | a scalar comes back as itself if and only if Iceberg has a type for it, units and default sizes aside |
| `IcebergMeaning.CommitReadsBack` | pkg/formats/iceberg/target.go:148-229 | after any commit the schema's columns read back with the ids written, every partition column is bound to a column of its name, and any further column is an optional one of a partition column's type |
| `IcebergIds.ReadBackIds` | pkg/formats/iceberg/schema.go:133-185 | the path-to-id map read from a converted schema is exactly the one conversion assigned |
| `IcebergIds.DecodedAgrees` | pkg/formats/iceberg/schema.go:142-223 | the JSON-decoded shape of a schema yields the same ids as the in-memory one |
| `IcebergIds.MappingFlat` | pkg/formats/iceberg/schema.go:254-300 | the name mapping, flattened, lists the same (path, id) pairs in the same order |
| `FieldIdHistory.PlacePartitions` | pkg/formats/iceberg/target.go:158-229 | the loop that binds partition columns, adding synthetic ones through the same allocator |
| `IcebergMeaning.PartitionsBind` | pkg/formats/iceberg/target.go:158-229 | every partition column is bound to a column of its name, numbered from 1000, and the schema's columns stay |
| `IcebergMeaning.PartitionsRefusedIff` | pkg/formats/iceberg/target.go:158-229 | a table is refused if and only if some partition column is transformed, or nested without being a column |
| `IcebergMeaning.RefusalMeans` | pkg/formats/iceberg/target.go:158-229 | the error is the first such column's and says which of the two it is |
| `FieldIdHistory.CommitIsAssignment` | pkg/formats/iceberg/target.go:148-229 | a commit's schema, synthetic partition columns included, reads back as one linear allocation over the previous ids |
| `FieldIdHistory.CommitSucceeds` | pkg/formats/iceberg/target.go:148-229 | one commit: ids injective, survivors keep theirs under any reorder, newcomers get unused ones, the last column id does not fall |
| `FieldIdHistory.HistoryIds` | pkg/formats/iceberg/schema.go:61-121 | over every metadata history: no id ever denotes two paths, a path present throughout keeps its id, a re-added path gets an unused one, the last column id never decreases |
| `FieldIdHistory.AssignDistinctIff` | pkg/formats/iceberg/schema.go:104-121 | with explicit ids allowed, one commit's ids are unique if and only if no field brings along an id that an earlier field brings along or finds the counter at |
| `FieldIdHistory.ExplicitIdsCollide` | pkg/formats/iceberg/schema.go:104-121 | three nodes with explicit and fresh ids on which uniqueness fails |
| `FieldIdHistory.DottedNamesCollide` | pkg/formats/iceberg/schema.go:104-121 | a struct a with a column b beside a column called a.b: from the second commit on both have one id |
| `IcebergTable.NextSnapshotId` | pkg/formats/iceberg/target.go:274-281 | the snapshot id is at least the clock, above every recorded id, and no higher than that demands |
| `IcebergTable.IcebergTarget.CommitSnapshot` | pkg/formats/iceberg/target.go:105-412 | manifest, manifest list, metadata, hint are written in this order; the storage after any number of successful writes; schema errors strike before the first |
| `IcebergTable.IcebergTarget.CommitChanges` | pkg/formats/iceberg/target.go:416-432 | one commit per change, each from the live files read back; where it ends under any number of successful writes |
| `IcebergVersions.CommitNumbers` | pkg/formats/iceberg/target.go:105-130 | one commit stopped after any write: metadata files numbered on from the highest, none changed, one more from the third write on, and when complete a hint that names it |
| `IcebergVersions.NumberedAfter` | pkg/formats/iceberg/target.go:105-130 | on any storage whose file versions increase strictly they still do after any number of such writes, so no file is written under a name already taken |
| `IcebergVersions.ChangesNumber` | pkg/formats/iceberg/target.go:416-432 | the same over a run of commits stopped after any number of writes |
| `IcebergVersions.RunVersions` | pkg/conversion/controller.go:197-272 | over every run, sound or not: files numbered 1, 2, 3 and so on, none ever written again, the hint naming one that is there |
| `IcebergMeaning.CommitRecords` | pkg/formats/iceberg/target.go:283-412 | what a commit records: every file as an added data entry, clock, parent, sequence and schema number, watermark, and a name mapping that resolves the columns |
| `IcebergMeaning.LiveEntriesMean` | pkg/formats/iceberg/source.go:328-377 | each manifest entry counts by itself: live exactly if it is data and not deleted |
| `IcebergMeaning.ReadListMeans` | pkg/formats/iceberg/source.go:328-377 | a snapshot is readable if and only if every data manifest of its list is there, and then holds exactly their live files |
| `IcebergMeaning.MissingMeans` | pkg/formats/iceberg/source.go:328-377 | what a failed read reports missing is a data manifest of the list that is not there, or the list itself |
| `IcebergMeaning.LiveFilesMean` | pkg/formats/iceberg/target.go:437-452 | the live files are those of the snapshot current in the newest metadata file, of the last one if that is not listed, none without a current snapshot |
| `IcebergCommit.CommitKeepsHistory` | pkg/formats/iceberg/target.go:355-387 | every commit keeps snapshot ids strictly increasing even when the clock stalls or goes back, sequence numbers consecutive, parents linked |
| `IcebergCommit.ExpireKeepsHistory` | pkg/formats/iceberg/source.go:519-531 | expiring any prefix keeps that order |
| `IcebergCommit.CommitShows` | pkg/formats/iceberg/target.go:283-412 | the first two writes of a commit are invisible; from the third on a reader sees exactly the committed files and watermark |
| `IcebergCommit.StoppedShows` | pkg/formats/iceberg/target.go:416-432 | after any number of writes a reader sees the table after exactly so many of the changes, with the last of those as watermark |
| `IcebergHistory.WalkBack` | pkg/formats/iceberg/source.go:519-531 | the parent walk is the chain of retained ancestors, newest first |
| `IcebergHistory.WalkVisitsRetained` | pkg/formats/iceberg/source.go:519-531 | on every written history, with any prefix expired, the walk ends and visits exactly the retained snapshots |
| `IcebergHistory.GetChangesSince` | pkg/formats/iceberg/source.go:489-564 | the backlog is the diffs of the snapshots whose derived instant is past the watermark, each against its parent; errors only for an uncovered range or unreadable files |
| `IcebergHistory.BacklogTelescopes` | pkg/formats/iceberg/source.go:380-420 | folding the reported diffs from the set before the first of them reaches the set after the last, when every reported neighbour is unambiguous against the one before |
| `IcebergHistory.TelescopesIff` | pkg/formats/iceberg/source.go:380-420 | the fold is exact between all reported snapshots, for every diff the sort may leave, if and only if every reported list is unambiguous against the one before |
| `IcebergHistory.WrittenHistoryTelescopes` | pkg/formats/iceberg/source.go:489-564 | under that condition the backlog folded onto what the reader had gives the current files, for every watermark the source answers |
| `IcebergWritten.ChangesKeepClean` | pkg/formats/iceberg/target.go:416-432 | changes that re-add no live path without removing it keep every retained list unambiguous, after every write |
| `IcebergWritten.CleanHistoryTelescopes` | pkg/formats/iceberg/source.go:489-564 | on such a history, whole or with a prefix expired, every backlog folds to the current files |
| `IcebergWritten.StoreTelescopesIff` | pkg/formats/iceberg/source.go:489-564 | on any storage the target keeps, the backlogs from an answered watermark all fold to the table if and only if no reported list is ambiguous against the one before |
| `IcebergWritten.BacklogReverts` | pkg/formats/iceberg/source.go:380-420 | three commits of the target, the second a re-add without removal: the table says the new file, every backlog of the third puts the old one back |
| `WrittenRuns.RunBacklogsTelescope` | pkg/conversion/controller.go:197-272 | in the storage any run leaves, with sound resumes and clean source commits, every backlog of the Iceberg source folds to the Delta source's live map at the version the watermark names |
| `WrittenRuns.RunBacklogsIff` | pkg/conversion/controller.go:197-272 | the same equivalence for the storage of every run with sound resumes, whatever the source commits |
| `WrittenRuns.RunFieldIds` | pkg/conversion/controller.go:197-272 | the field-id guarantees hold over the metadata files of any run over plain source tables, sound resumes or not |
| `IcebergHistory.ExpiryKeepsInstants` | pkg/formats/iceberg/source.go:544-558 | with increasing timestamps expiry moves no derived instant |
| `IcebergHistory.IsIncrementalSyncSafeFrom` | pkg/formats/iceberg/source.go:578-597 | yes exactly when some retained snapshot is stamped no later than the instant |
| `IcebergHistory.SafeIsCoveredIff` | pkg/formats/iceberg/source.go:578-597 | a yes means, for every watermark, that the walk does not refuse, if and only if nothing was expired or the oldest retained stamp is positive and the least |
| `IcebergHistory.SafeIsExactlyCovered` | pkg/formats/iceberg/source.go:578-597 | a yes is exactly the absence of the refusal, for every watermark, if and only if something was expired and the oldest retained stamp is positive and the least |
| `IcebergHistory.SafeButUncovered` | pkg/formats/iceberg/source.go:578-597 | a snapshot stamped earlier than its parent makes the check say yes while the walk refuses |
| `BoundCodec.DecimalRoundTrip` | pkg/formats/iceberg/stats.go:529-573 | every integer survives encoding and decoding |
| `BoundCodec.DecimalCanonical` | pkg/formats/iceberg/stats.go:529-573 | re-encoding any payload gives the unique shortest form of its value |
| `BoundCodec.DecimalPayloads` | pkg/formats/iceberg/stats.go:529-573 | the payloads of a value are exactly the sign extensions of the encoder's output |
| `BoundCodec.DecimalBytesMean` | pkg/formats/iceberg/stats.go:529-573 | a payload is big-endian two's complement: the first byte carries the sign and each one after it the next lower place |
| `BoundCodec.FixedRoundTrip` | pkg/formats/iceberg/stats.go:79-97 | fixed-width encoding is a bijection between the signed range and the byte strings of the width |
| `BoundCodec.BoundRoundTrip` | pkg/formats/iceberg/stats.go:62-238 | what EncodeBound writes DecodeBound reads back, over the type switch; sizes and byte order are BoundBytesMean's |
| `BoundCodec.BoundReencodes` | pkg/formats/iceberg/stats.go:169-238 | every accepted payload re-encodes to one no longer, and to itself for the fixed-width and textual types |
| `BoundCodec.BoundBytesMean` | pkg/formats/iceberg/stats.go:62-238 | booleans are one byte; INT and DATE four, LONG and timestamps eight, least significant first, written exactly for the values in the signed range and read exactly at that length |
| `PaimonReplay.LiveFiles` | pkg/formats/paimon/source.go:258-279 | the replay loop's file list for any base and delta entries |
| `PaimonReplay.ScanMeans` | pkg/formats/paimon/source.go:258-279 | a file is live after any entries if and only if the last one about its name is the file's and does not delete it |
| `PaimonReplay.ApplyDiff` | pkg/formats/paimon/target.go:415-443 | the fold: survivors kept, then the first addition of every name not taken |
| `PaimonReplay.ReplayIsUpdate` | pkg/formats/paimon/source.go:241-280 | a reader of a committed snapshot sees exactly the base updated by the diff |
| `PaimonReplay.SamePaths` | pkg/formats/paimon/target.go:415-443 | fold and replay never disagree about which files exist |
| `PaimonReplay.FoldAgreesIff` | pkg/formats/paimon/target.go:434-441 | they agree on the files themselves if and only if per added name the last addition equals what the fold keeps |
| `PaimonReplay.ListedTwiceIff` | pkg/formats/paimon/source.go:258-278 | a reader sees a path twice if and only if the diff rewrote a live file in place |
| `PaimonReplay.TotalRecordsIff` | pkg/formats/paimon/target.go:228-240 | the record total of a snapshot is that of the folded files if and only if the removals carry the counts of what they took out, skipped additions included |
| `PaimonReplay.UncountedRemovalsIff` | pkg/formats/paimon/target.go:228-240 | with removals that carry no counts the total is never too low, and right if and only if every file taken out or skipped was empty |
| `PaimonSync.DeltaTotalsTooHigh` | pkg/formats/paimon/target.go:228-240 | a Delta commit that removes a live file with records makes the total too high |
| `PaimonTable.ListVersioned` | pkg/formats/paimon/source.go:64-88 | the numbered files in numeric order, whatever order storage lists them in |
| `PaimonTable.PaimonTarget.LatestSnapshot` | pkg/formats/paimon/source.go:176-203 | the hinted snapshot if it is there, else the highest numbered |
| `PaimonTable.PaimonTarget.EnsureSchema` | pkg/formats/paimon/target.go:331-381 | the latest schema is reused when equal, else the next number is written |
| `PaimonTable.PaimonTarget.Commit` | pkg/formats/paimon/target.go:195-272 | the order of the writes, the snapshot's id and record counts, and the storage after any number of successful writes |
| `PaimonTable.PaimonTarget.CommitSnapshot` | pkg/formats/paimon/target.go:93-111 | a full sync commits the whole file list as a delta without a base |
| `PaimonTable.PaimonTarget.CommitChanges` | pkg/formats/paimon/target.go:116-163 | one commit per change over the folded list with a watermark that never goes back; where it ends under any number of successful writes |
| `PaimonNumbers.StepRecords` | pkg/formats/paimon/target.go:195-272 | one commit is refused, with no snapshot written, if and only if the table has no Paimon schema or a file lies outside it; complete, it is a snapshot under the next number that says what was committed and names a schema of this text |
| `PaimonNumbers.RunNumbers` | pkg/formats/paimon/target.go:195-272 | over every run, sound or not: snapshots numbered from 1 and schemas from 0 without a gap, hints naming snapshots that are there, nothing on storage ever gone or changed |
| `PaimonNumbers.MarkIsLatest` | pkg/formats/paimon/target.go:116-163 | the watermark a batch leaves is the latest of its instants and what was reached before |
| `PaimonSync.StepShows` | pkg/formats/paimon/target.go:195-272 | write by write, what a reader sees of one commit, and that nothing on storage is ever overwritten |
| `PaimonSync.FailedCommitInvisible` | pkg/formats/paimon/target.go:257-272 | with a hint in place a commit that fails before its last write is invisible, and the next id is above that of any snapshot left behind |
| `PaimonSync.ChangesShow` | pkg/formats/paimon/target.go:116-163 | stopping CommitChanges after any write leaves the reader after some number of the changes, with that change's watermark |
| `PaimonSync.PathsAlwaysRight` | pkg/formats/paimon/target.go:116-163 | after any sequence of commits the set of paths is the one the diffs describe |
| `PaimonSync.ViewsRightIff` | pkg/formats/paimon/target.go:116-163 | the files are right after every one of a sequence of commits if and only if whatever the fold got wrong is on paths of the very next change |
| `PaimonSync.FollowsIff` | pkg/formats/paimon/target.go:116-163 | the same for the backlog of a Delta source: every commit of a resumed sync shows the source's live map at its version if and only if the versions ahead meet that condition |
| `PaimonSync.AgreeingCarries` | pkg/formats/paimon/target.go:415-443 | they do where fold and replay agree at every commit |
| `PaimonSync.CleanAddsAgree` | pkg/formats/paimon/target.go:434-441 | and those agree where no commit re-adds a live path with other content without removing it |
| `PaimonSync.NextViewIff` | pkg/formats/paimon/target.go:434-441 | the carried list is right for every possible next change if and only if fold and replay agreed |
| `PaimonSync.ReaddReverts` | pkg/formats/paimon/target.go:434-437 | a file re-added without a removal is back to its old entry after the next commit |
| `PaimonSync.PaimonFollowsDelta` | pkg/formats/paimon/target.go:116-163 | under that condition a resumed sync of a Delta table, stopped after any write, leaves the reader at one of the source's versions with that version's watermark, and at the newest when it completes |
| `PaimonRuns.SyncToPaimon` | pkg/conversion/controller.go:197-272 | the controller over a Paimon target: which way it goes in terms of mode, watermark, probe and log; the writes it sets out to make, where it ends under any number of successful ones, how many snapshots it adds and what it reports |
| `PaimonRuns.RunsStayInSync` | pkg/conversion/controller.go:197-272 | over every run of source commits, checkpoints, cleanups and syncs, a reader of the Paimon table finds the source's live map at the version its watermark names, as long as resumes are sound and the versions ahead of them meet the condition of FollowsIff |
| `PaimonRuns.SuccessIsCurrent` | pkg/conversion/controller.go:197-272 | a committing sync that ran to the end leaves the newest version |
| `PaimonAtoms.AtomRoundTrip` | pkg/formats/paimon/schema.go:478-520 | every scalar Paimon can hold is read back as itself up to the widenings UUID to STRING and FIXED to BYTES, if and only if it has no negative decimal parameter |
| `PaimonAtoms.DecimalReadBack` | pkg/formats/paimon/schema.go:505-511 | decimal parameters come back exactly when neither is negative, else DECIMAL(10, 0) is read |
| `PaimonAtoms.TimestampReadBack` | pkg/formats/paimon/schema.go:528-570 | both timestamp spellings come back with their zone and precision bucket |
| `PaimonAtoms.ForeignSpellings` | pkg/formats/paimon/schema.go:478-520 | the spellings other writers use for the same types, with any parameters |
| `PaimonAtoms.WrittenScalars` | pkg/formats/paimon/schema.go:207-290 | the SQL names scalar types are written as |
| `PaimonAtoms.WrittenTimestamps` | pkg/formats/paimon/schema.go:341-375 | the precision and zone timestamps are written with |
| `PaimonAtoms.ForeignTimestamps` | pkg/formats/paimon/schema.go:528-570 | timestamps without a precision have microseconds, and each spelling of a zone is read |
| `PaimonTypes.Printer.TypeOf` | pkg/formats/paimon/schema.go:207-290 | the recursive printer over one shared counter is the counter-threading print function |
| `PaimonTypes.Printer.FieldOf` | pkg/formats/paimon/schema.go:154-177 | a field keeps a positive id of its own and otherwise takes the next |
| `PaimonTypes.TypeRoundTrip` | pkg/formats/paimon/schema.go:377-466 | parsing the printed form of any supported tree gives the tree back, with exactly the ids the counter handed out |
| `PaimonTypes.ExactIff` | pkg/formats/paimon/schema.go:207-466 | printed and parsed, a supported tree comes back up to the stated widenings if and only if it holds no negative decimal parameter |
| `PaimonTypes.PrintsIff` | pkg/formats/paimon/schema.go:207-290 | printing succeeds exactly on supported types |
| `PaimonTypes.WrittenObjects` | pkg/formats/paimon/schema.go:294-338 | the JSON objects rows, arrays and maps are written as |
| `PaimonTypes.TypeReprints` | pkg/formats/paimon/schema.go:154-290 | what was read back prints as it was read, from any counter, if and only if the tree holds no negative decimal parameter |
| `PaimonTypes.AllocDistinctIff` | pkg/formats/paimon/schema.go:154-164 | field ids are unique over the whole tree if and only if no field asks for an id that an earlier one asks for or finds the counter just below |
| `PaimonTypes.FreshConsecutive` | pkg/formats/paimon/schema.go:154-164 | without explicit ids the numbering is consecutive at any nesting |
| `PaimonTypes.LateExplicitCollides` | pkg/formats/paimon/schema.go:154-164 | a field without an id followed by one asking for 1 gives 1 twice |
| `PartitionDiff.KeyInjective` | pkg/catalog/partition.go:45-47 | keys tell apart non-empty value lists free of the separator |
| `PartitionDiff.KeyCollisions` | pkg/catalog/partition.go:45-47 | and confuse an empty list with an empty value, and a separator with two values |
| `PartitionDiff.KeyIff` | pkg/catalog/partition.go:45-47 | for all value lists, keys are equal if and only if the lists are after cutting every value at the separator and reading no values as one empty value |
| `PartitionDiff.CollisionLoses` | pkg/catalog/partition.go:85-118 | a desired partition the index drops for another with its key gets no event, and its key ends at the other's location |
| `PartitionDiff.AllLocatedIff` | pkg/catalog/partition.go:85-118 | reconciliation brings every desired partition to its own location if and only if those with equal pieces name the same one |
| `PartitionDiff.DiffPartitions` | pkg/catalog/partition.go:85-118 | exactly the events needed, one per key, ordered by type and key, for any map iteration order |
| `PartitionDiff.EventsUnique` | pkg/catalog/partition.go:85-118 | that determines the list: iteration order leaves no trace |
| `PartitionDiff.EventsAscend` | pkg/catalog/partition.go:110-118 | additions before drops before updates, ascending by key within a kind |
| `PartitionDiff.RetryAsksForTheRest` | pkg/catalog/partition.go:85-118 | whatever part of the events took effect, the next diff asks for exactly the others |
| `PartitionDiff.Reconciles` | pkg/catalog/partition.go:85-118 | all of them, in any order, bring every key to its desired location and leave an empty second diff |
| `PartitionSync.InBatches` | pkg/catalog/partition.go:213-225 | consecutive non-empty pieces of the list, every one but the last of full size |
| `PartitionSync.Glue.AddPartitions` | pkg/catalog/glue_partition.go:99-128 | one table lookup, then exactly these partitions in order, 100 a call; nothing after a failed lookup and nothing at all without partitions |
| `PartitionSync.Glue.UpdatePartitions` | pkg/catalog/glue_partition.go:131-157 | one table lookup, then one call per partition, every one attempted; nothing after a failed lookup |
| `PartitionSync.Glue.DropPartitions` | pkg/catalog/glue_partition.go:160-182 | 25 a call without a lookup, every batch attempted |
| `PartitionSync.Glue.SyncPartitions` | pkg/catalog/partition.go:167-210 | each event is asked for at most once and in order, all of them unless a table lookup fails; success means the catalog is where the table is; in any case a later diff holds exactly the events that did not take effect |
| `PartitionSync.SyncOutcome` | pkg/catalog/partition.go:167-225 | the same on specifications: what took effect is part of the events, and success means all of them |
| `PartitionSync.WorkOrder` | pkg/catalog/partition.go:175-208 | additions, then updates, then drops, each kind as in the diff |
| `PartitionSync.LimitsMean` | pkg/catalog/glue_partition.go:32-37 | no call of a run creates more than 100 partitions or deletes more than 25 |
| `FooterMerge.StructPrintsApart` | pkg/formats/parquet/merge.go:163-196 | no other type prints like a struct, so the kind check and the signature check agree |
| `FooterLoops.MergeParts` | pkg/formats/parquet/merge.go:95-158 | the loops over occurrences and names compute the recursive merge |
| `FooterLoops.MergeFooterSchemas` | pkg/formats/parquet/merge.go:56-81 | the merge of the readable footers, newest first and then by path; nothing without footers |
| `FooterNewest.NewestDecides` | pkg/formats/parquet/merge.go:56-158 | in any merged schema the newest footer's columns come first in its order, every column has the id and, unless a struct, the type of the newest footer that carries it, and columns of newer footers stand before those only older ones carry |
| `FooterErrors.FailureReports` | pkg/formats/parquet/merge.go:95-158 | a failed merge names, by its dotted path, a column that some file leaves untyped, or all type and two type differently, reached through structs alone |
| `FooterLoops.ListingOrderIrrelevant` | pkg/formats/parquet/merge.go:56-81 | another listing order of one directory gives exactly the same schema, column order included |
| `FooterJoins.MergeIsLeastBound` | pkg/formats/parquet/merge.go:95-158 | with types compared by signature, as the code does, the merge fails if and only if no schema takes every footer, and otherwise asks for no more than any that does; without repeated names it takes them itself |
| `FooterOrders.MergeOrderIndependent` | pkg/formats/parquet/merge.go:95-158 | reordering any files changes neither failure nor, up to column order and types of equal signature, the merge |
| `FooterOrders.TwoOrdersIff` | pkg/formats/parquet/merge.go:95-158 | two orders of the same files give the same columns, types and ids, column order aside, if and only if the first occurrences under them agree |
| `FooterOrders.EveryOrderIff` | pkg/formats/parquet/merge.go:95-158 | without repeated names, every order does so if and only if all occurrences of a column agree on id and type, struct members likewise |
| `FooterFits.MergeTakesEveryIff` | pkg/formats/parquet/merge.go:95-158 | with types compared by their values (unit, size, nested nullability), a successful merge takes every file if and only if every occurrence of a column fits the first and every gap shows, at every depth |
| `FooterFits.MergeFitsUnder` | pkg/formats/parquet/merge.go:95-158 | taking every file or not, a successful merge asks for no more than any schema that does |
| `FooterFits.UnitFollowsFileOrder` | pkg/formats/parquet/merge.go:129-141 | two timestamp units: each file order gives the first file's unit and id, and neither takes the other file |
| `FooterFits.ListNullsLost` | pkg/formats/parquet/merge.go:129-141 | a list without nulls before one with: the merge keeps the first, although a schema takes both |
| `FooterFits.ListOfStructRefused` | pkg/formats/parquet/merge.go:129-141 | a struct grown inside a list is refused, although the grown type takes both files |
| `FooterJoins.ListOfStructReordered` | pkg/formats/parquet/merge.go:129-141 | so is a struct whose columns stand in another order inside a list, although either type takes both files |
| `FooterJoins.UnitsNeverTaken` | pkg/formats/parquet/merge.go:129-141 | two timestamp units are merged, although no schema takes both files |
| `FooterJoins.MergesIff` | pkg/formats/parquet/merge.go:95-158 | for any footers, the merge succeeds if and only if the occurrences of every column have a type and print like the first, structs by the same condition inside |
| `FooterJoins.RefusedIff` | pkg/formats/parquet/merge.go:95-158 | where some schema takes every file by value and names are clean, the merge succeeds if and only if structs below lists and maps have the same column names in the same order |
| `FooterJoins.TakenIff` | pkg/formats/parquet/merge.go:95-158 | a schema that takes every file by value exists if and only if some type takes all occurrences of each column, structs by the same condition inside |
| `FooterJoins.FailsExactlyIff` | pkg/formats/parquet/merge.go:95-158 | the merge fails exactly when no such schema exists, if and only if the two conditions coincide on the files |
| `FooterBounds.MergedNames` | pkg/formats/parquet/merge.go:96-105 | columns stand in the order of their first occurrence |
| `FooterBounds.RepeatedNameHidesGap` | pkg/formats/parquet/merge.go:117-125 | a file that repeats a column name makes the merge not nullable where another file lacks it |
| `FooterBounds.RepeatedNamesIff` | pkg/formats/parquet/merge.go:95-158 | for any footers, a successful merge takes them all if and only if wherever a file lacks a column the occurrences fall short of the files or one is nullable, at every depth |
| `FooterSignature.SignatureMeans` | pkg/formats/parquet/merge.go:174-204 | two signatures are equal if and only if the types are, up to nested nullability, ids, fixed sizes and timestamp units |
| `FooterSignature.SignatureBlindSpots` | pkg/formats/parquet/merge.go:174-204 | types that print alike and are not interchangeable |
| `FooterSignature.NameHidesColumn` | pkg/formats/parquet/merge.go:186-191 | a column name with punctuation prints like two columns |
| `PathSegments.CollapseSlashes` | pkg/io/storage.go:102-104 | the loop that replaces doubled separators until none is left collapses every run of them |
| `PathSegments.CollapseNames` | pkg/io/storage.go:94-108 | collapsing separators does not change what a path names |
| `StoragePaths.JoinedNames` | pkg/io/storage.go:94-114 | joining keeps a recognised scheme and names what the base followed by the element names, whatever separators and dots either brings |
| `StoragePaths.JoinedToNothing` | pkg/io/storage.go:94-114 | without a base an element names what it names by itself |
| `StoragePaths.CleanNames` | pkg/io/storage.go:94-114 | cleaning a path keeps its segments and its root and leaves no two separators in a row |
| `PathSegments.DotsResolve` | pkg/io/storage.go:94-114 | wherever they stand, a name followed by .. cancels, single dots and empty segments drop out, and so does .. at the root |
| `StoragePaths.RelativizeIff` | pkg/io/storage.go:139-193 | an absolute path is expressed relative to a base if and only if it lies below it by whole segments, up to host spelling, and the result is the remaining segments |
| `StoragePaths.InvalidIff` | pkg/io/storage.go:139-165 | a path without a base, without a file or with an unknown scheme is invalid, and nothing else is |
| `StoragePaths.SchemeMeans` | pkg/io/storage.go:118-130 | a path has a scheme if and only if it begins with one of the nine known ones, and splits there |
| `StoragePaths.SiblingRefused` | pkg/io/storage.go:184-192 | a sibling whose last segment merely begins like the base's is refused, one-segment bases included |
| `StoragePaths.DotFreeHost` | pkg/io/storage.go:208-219 | a host without a dot has one spelling, so on such hosts the one-segment case is plain inequality of names |
| `StoragePaths.AzureHosts` | pkg/io/storage.go:208-219 | the blob and dfs spellings of an Azure account are one |
| `StoragePaths.OneLakeHosts` | pkg/io/storage.go:208-219 | so are the two of OneLake |
| `StoragePaths.RelativeRoundTrip` | pkg/formats/delta/source.go:645-661 | a relative result never looks absolute or schemed, and joined to the base names the original file up to scheme and host spelling |
| `StoragePaths.RecordedRoundTrip` | pkg/io/storage.go:139-193 | however an absolute file is recorded, relative or as it is, a reader resolves the record to it up to scheme and host spelling |
| `StoragePaths.RelativeKept` | pkg/io/storage.go:166-174 | a path already relative, a lone dot included, is kept, cleaned, exactly when it does not climb out, and joins below the base |
| `StoragePaths.CanonicalKeepsShape` | pkg/io/storage.go:208-219 | rewriting host spellings stays within one segment |

## Left out

- Hudi, both directions, and the Delta target: neither removes files on a full sync, so no equality with the source can be claimed.
- Storage backends, HTTP clients, authentication, the daemon, bindings and the command line: thin wrappers over foreign libraries.
- Avro, Parquet and JSON byte encodings: manifests, metadata files and type trees are values; JSON trees are modelled only where the code inspects their shape.
- The ISO-8601 text of the watermark in the table properties: the instant written is taken to be the instant read back.
- Float, double and UUID column bounds, the coercions in front of `EncodeBound`, and carrying column statistics through manifests: per-case tables.
- Partition values, Glue type strings, comments, documentation strings and default values: copied through without decisions.
- Concurrent writers to one target: the code assumes a single writer.
- Wrap-around of 64-bit instants, ids and sequence numbers: integers are unbounded.
- Path spelling in the sync model: there a data file is named by one resolved path; how paths are relativized and joined is the subject of `StoragePaths` alone.
- The Delta log reader takes one action per log line and assumes that add actions parse; statistics errors of single add actions are not modelled.
- Duplicate versions among Iceberg metadata files and versions listed out of order: metadata files are taken in version order.
- DeltaResume.RetentionSound: stated for positive increasing timestamps, because `StalledClockGap` shows that it fails without them; `RetentionIff` covers any timestamps.
- BoundCodec.BoundRoundTrip: leaves out the float, double and UUID cases of the switch, which copy bit patterns.
- BoundCodec.BoundReencodes: leaves out the same cases; for booleans every non-zero byte is read as true, so only the length is promised.
- IcebergIds.ReadBackIds: stated for schemas whose dotted paths differ; where two columns share one, a map from path to id cannot hold both.
- IcebergIds.MappingFlat: stated for columns with a name, because an empty name leaves no path to flatten to.
- FooterSignature.SignatureMeans: stated for names without a colon or a leading closing bracket, because `NameHidesColumn` shows that it fails with a colon; which other names can be confused is not characterised.
- FooterJoins.RefusedIff: stated for the same names; `MergesIff` covers all.
- FooterOrders.EveryOrderIff: stated for files without repeated names in one record, which fix which occurrence a file can put first.
- WrittenRuns.RunBacklogsTelescope: stated for source commits that re-add no live path with other content without removing it, because `BacklogReverts` shows that it fails with others; `RunBacklogsIff` covers all.
- WrittenRuns.RunFieldIds: stated for plain source tables, as HistoryIds is.
- FieldIdHistory.HistoryIds: stated for schemas without explicit ids and with dot-free column names, because `ExplicitIdsCollide` and `DottedNamesCollide` show that it fails otherwise.
- PaimonTable.PaimonTarget.EnsureSchema: a schema file is its text; the conversion of a table into that text is an input here and the subject of `PaimonTypes`.
- StoragePaths.RelativeRoundTrip: stated for bases with at least one segment and no climbing dots; joining takes one element at a time.
- PaimonTypes.TypeRoundTrip: white space is ASCII, and text is not case-folded beyond ASCII.
- FooterLoops.MergeFooterSchemas: does not say that the sort is stable, which only shows for two footers of one file.
- Partition listings that fail half way through their pages: a listing succeeds whole or fails whole.
