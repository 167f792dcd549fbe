# A verified model of the ENTSO-E ingestion pipeline

The pipeline copies the publications of the ENTSO-E file store (FMS) into a lakehouse. It keeps a *catalogue* of remote
folders and files, refreshed by a full crawl or by a *delta* run driven by the export logs; it *syncs* selected files into an
S3 landing zone and registers them; and a *staging* job merges registered files into Iceberg tables and logs each attempt.
This project models those parts and proves that they fit together: exactly when the delta is as good as a full crawl, that no
registered version is lost, that retries have exactly-once effect, that the catalogue's summaries are right, and that
components written independently of each other agree.

The models follow the code's branches, order, constants and errors. Where a property fails, the code is kept as it is, a lemma
gives an input that shows the failure, and another gives the exact condition.

## The modules

| file | what it holds |
|---|---|
| `Catalog.dfy` | folder and file tables, the full-crawl transaction, the delta's upsert and checkpoint, and the database that runs them |
| `DeltaScan.dfy` | matching log rows to folders, and the newest-first scan that stops after three clean records |
| `DeltaRefresh.dfy` | one delta run: detection, crawling leaf by leaf, checkpoints, failures and interruption |
| `DeltaRecovery.dfy` | what interrupted and failing runs leave behind, over sequences of runs |
| `DeltaHistory.dfy` | histories of remote changes and runs around one folder; the delta refines the full crawl, and exactly when a run leaves the folder current |
| `DeltaLimits.dfy` | where the delta falls short: root-level files, coarse times, folder names inside other names, folders left behind |
| `DeltaShadowedExample.dfy`, `DeltaForgotten.dfy` | runs of the program, start to end, that miss an update |
| `Protocol.dfy` | the landing and staging protocol as a state machine of interleaved steps |
| `Sync.dfy` | the sync engine, its accounting and idempotence, and its steps in the protocol |
| `Staging.dfy` | grouping of pending rows, the staging job, draining, and its steps in the protocol |
| `IcebergMerge.dfy` | the relational MERGE on row sequences, its retries, and the append fallback |
| `Listing.dfy` | paginated and recursive listing against a remote tree |
| `Throttle.dfy` | the request throttler over real time |
| `Routing.dfy`, `Selection.dfy`, `Legacy.dfy` | pairs of independent matchers that must agree: classifier and router, tree builder and sync resolver, the legacy archives |
| `Fingerprint.dfy` | the text that is hashed to recognise a file's state |
| `Text.dfy`, `Prelude.dfy` | string operations and the two result shapes |

## What stands for what

- External calls that may fail are given as data: a fault or an outcome per file, leaf, group or request. The theorems hold
  for every choice, so for every place where something may raise. A step that changes the database or S3 may also raise, or in
  the delta be interrupted, after its effect has landed.
- `home` gives the folder each file identifier belongs to. Crawls list each file under that folder.
- A content hash is a version number in `Protocol`, `Sync` and `Staging`: versions of one remote file only grow and never
  recur. `Fingerprint` shows how far the hashed text tells states apart; the hash function itself is taken as injective.
- Times are integers (log and catalogue) or reals (throttler). A timestamp that does not parse is absent.
- `ingested_at` is a parameter of each group's turn. The loss theorem needs no assumption on it; draining needs it to be later
  than earlier attempts.
- Ordered dictionaries are sequences with the dictionary's insertion rule; sets visited in no particular order are visited in
  an arbitrary one.
- Every lemma carries `{:induction false}`: nothing is proved by automatic induction, each proof is what its body says.
- A method proved equal to a specification function carries the loops of the code; the theorems are about the function.

## Where the code and its comments differ

The model follows the code.

- `src/entsoe_pipeline/fms_metadata/core/fms_metadata_delta.py` lines 524 to 525 and 552 say that a folder with a failed leaf is revisited because its crawl time stays empty.
  That holds for folders never crawled (`DeltaRecovery.NeverCrawledStaysDirty`). A folder crawled before keeps its old crawl
  time and can be forgotten (`DeltaForgotten.FailedLeafForgotten`); `DeltaRecovery.UnfinishedFolderRetriedExactly` is the exact
  condition. The same happens to a folder that a run with a narrower choice of domains leaves out.
- A log row counts for the first active folder whose name occurs in its file name. In the shipped overview
  `EnergyPrices_12.1.D_r3` comes just before `EnergyPrices_12.1.D_r3.1`, as do most such pairs, so the rows of the second
  count for the first. Once crawled, the second is never refreshed (`DeltaLimits.UncountedIsNeverRefreshed`,
  `DeltaShadowedExample.ShippedNamesMissUpdate`).
- The delta crawls an active folder that is really a root-level file with an empty root listing, stores nothing and stamps it
  crawled (`DeltaLimits.RootFileNeverStored`); a full crawl stores it.
- The size guard on the log files reads a `sizes` entry that raw listing records do not have, so it sees zero bytes. The model
  keeps the ending it would cause, together with a failed root listing, as one outcome that is re-raised.
- The hash comment promises that any change of name, size or time changes the hash. The hashed text is ambiguous for some
  names and times (`Fingerprint.AmbiguousExactly`).
- The throttler's attribute is called monotonic, but the code reads the wall clock. The bounds here relate only the readings
  within one pass through the lock, so they hold for it.
- The README and ADR-004 say that CSV objects are deleted after the load. No code deletes them, so S3 objects are never
  removed in `Protocol`.
- `ls_fms` calls its result sorted; it is in server order.

## Model

| member | source | states |
|---|---|---|
| `DeltaHistory.DeltaRefinesFullCrawl` | src/entsoe_pipeline/fms_metadata/core/fms_metadata_delta.py:195-546 | Main theorem. Start from any catalogue in order, with other environments, archives and folders in it, and take any history of remote additions and updates and of runs, each under its own configuration. If every run has this flat folder active, gets to it and crawls it successfully when it is marked, lists nothing from the future in any folder and finds this folder's files in the log, whatever else fails, then after each run a full crawl of the folder would be accepted and would change nothing but its crawl time: the three-match stop misses no update |
| `DeltaHistory.HistoryUpToDateExactly` | src/entsoe_pipeline/fms_metadata/core/fms_metadata_delta.py:195-546 | The exact condition. In any history, whatever failed or was left out before, a run that has a flat folder active and serves it leaves the folder as a full crawl would if and only if it was so already, was never crawled, or a log scan finds a dirty record of it before three clean ones in a row |
| `DeltaHistory.UpToDateAfterRunExactly` | src/entsoe_pipeline/fms_metadata/core/fms_metadata_delta.py:195-546 | ... for a single run from any catalogue |
| `DeltaHistory.CurrentExactlyWhenAttributed` | src/entsoe_pipeline/fms_metadata/core/fms_metadata_delta.py:246-318 | End to end: a crawled flat folder is current after a run that serves it if and only if none of its files changed since the cutoff, or some newer log row counts for it, its name occurring in the row's file name and no earlier active folder's |
| `DeltaHistory.RunStepEstablishes` | src/entsoe_pipeline/fms_metadata/core/fms_metadata_delta.py:237-533 | After one run that serves the folder it holds exactly its remote listing with a right summary, everything stored is dated no later than the run, and everything the folder may still miss is logged after it |
| `DeltaHistory.RemoteStepKeeps` | src/entsoe_pipeline/fms_metadata/core/fms_metadata_delta.py:269-318 | Remote additions and updates keep that invariant: what a crawled folder misses is always newer than the cutoff the last run left |
| `DeltaHistory.ProgramRunIsRunStep` | src/entsoe_pipeline/fms_metadata/core/fms_metadata_delta.py:409-533 | What the imperative run does to the tables is a run of the history theorems, in any environment without interrupts where this folder's steps succeed and its crawl lists what is there; steps and crawls of other folders may fail |
| `DeltaHistory.ProgramRunServes` | src/entsoe_pipeline/fms_metadata/core/fms_metadata_delta.py:409-533 | ... so it makes the folder up to date if it is marked and leaves it untouched if not |
| `DeltaHistory.ChangedFolderIsDirty` | src/entsoe_pipeline/fms_metadata/core/fms_metadata_delta.py:237-318 | A folder never crawled, or with a file logged after the cutoff under a name that counts for it, is in the dirty map, wherever the scan stops |
| `DeltaHistory.UpToDateNeedsNoCrawl` | src/entsoe_pipeline/fms_metadata/core/metadata_crawlers_common.py:87-135 | A full-crawl transaction over an up-to-date folder is accepted and changes only the crawl time |
| `DeltaHistory.DeltaSeesWhatFullCrawlSees` | src/entsoe_pipeline/fms_metadata/utils/crawler.py:52-74 | The delta, which passes no root listing, and the full crawl see the same records of a folder if and only if it is not an existing root-level file |
| `DeltaHistory.RootFileExactly` | src/entsoe_pipeline/fms_metadata/utils/crawler.py:52-54 | A name is taken for a root-level file if and only if it ends in one of the five configured extensions, as written |
| `DeltaLimits.RootFileNeverStored` | src/entsoe_pipeline/fms_metadata/core/fms_metadata_delta.py:447-533 | The failing side: an active folder that is a root-level file is stamped crawled by the delta with no row stored |
| `DeltaLimits.RootFileStoredByFullCrawl` | src/entsoe_pipeline/fms_metadata/utils/crawler.py:52-65 | ... while a full crawl of the same name stores its one record |
| `DeltaLimits.StaleTimesHideUpdates` | src/entsoe_pipeline/fms_metadata/core/fms_metadata_delta.py:275-311 | Logged updates no later than the stored dates, which whole-second log times allow, never mark a flat folder |
| `DeltaLimits.UncountedIsNeverRefreshed` | src/entsoe_pipeline/fms_metadata/core/fms_metadata_delta.py:246-268 | Once crawled, a folder that no log row can count for, because the name of an earlier active folder occurs in its own, is left as it is by every later run of any history, whatever changes remotely |
| `DeltaShadowedExample.ShippedNamesMissUpdate` | src/entsoe_pipeline/fms_metadata/core/fms_metadata_delta.py:254-259 | Two runs of the program at the shipped names EnergyPrices_12.1.D_r3 and _r3.1, nothing failing: the update of a _r3.1 file is in the log, counts for the other folder, and the old version stays |
| `DeltaForgotten.FailedLeafForgotten` | src/entsoe_pipeline/fms_metadata/core/fms_metadata_delta.py:524-533 | For any two flat folders, one crawled before: if its crawl fails, or the run leaves it out, while the other's newer files are stored, no run after that marks it, although its update is in the log and its record is dirty |
| `DeltaForgotten.UpdateForgotten` | src/entsoe_pipeline/fms_metadata/core/fms_metadata_delta.py:92-568 | Three runs of the program from empty tables that end with the old version of that update, in the last of which nothing fails |
| `DeltaForgotten.ExampleIsOk` | src/entsoe_pipeline/fms_metadata/core/fms_metadata_delta.py:275-311 | There are such folders, files and logs |
| `DeltaScan.EarlyStopAgainstFullScan` | src/entsoe_pipeline/fms_metadata/core/fms_metadata_delta.py:275-318 | The early-stopping scan marks a subset of what a full scan marks; the two are equal if and only if every dirty record has the leaf of some dirty record not preceded by three consecutive clean ones |
| `DeltaScan.ScanExact` | src/entsoe_pipeline/fms_metadata/core/fms_metadata_delta.py:275-318 | A leaf is marked if and only if a record of it is dirty and no three clean records in a row, at positions j, j + 1 and j + 2, come before it |
| `DeltaScan.ExaminedExactly` | src/entsoe_pipeline/fms_metadata/core/fms_metadata_delta.py:313-318 | The scan looks at every record up to and including the first three clean ones in a row, and at all of them if there are no such three |
| `DeltaScan.NewerThanCutoffIsMarked` | src/entsoe_pipeline/fms_metadata/core/fms_metadata_delta.py:270-318 | Newest first, if everything after a cutoff is dirty then everything after the cutoff is marked |
| `DeltaScan.ExaminedBound` | src/entsoe_pipeline/fms_metadata/core/fms_metadata_delta.py:275-318 | The number of records examined is at most three times (dirty records examined + 1) |
| `DeltaScan.SortNewestFirstSorts` | src/entsoe_pipeline/fms_metadata/core/fms_metadata_delta.py:270-270 | The records are put newest first, none lost and none invented |
| `DeltaScan.RecordsExact` | src/entsoe_pipeline/fms_metadata/core/fms_metadata_delta.py:248-269 | A record is considered if and only if some log row yields it: named, matched to an active folder, with a time that parses |
| `DeltaScan.AttributedExactly` | src/entsoe_pipeline/fms_metadata/core/fms_metadata_delta.py:254-268 | A dated row of the standard log yields a record of a folder if and only if the folder's name occurs in its file name and no earlier active folder's does |
| `DeltaScan.ShadowedExactly` | src/entsoe_pipeline/fms_metadata/core/fms_metadata_delta.py:254-259 | No file name at all counts for a folder if and only if the folder is inactive or the name of an earlier active folder occurs in its own |
| `DeltaScan.CollectRecords` | src/entsoe_pipeline/fms_metadata/core/fms_metadata_delta.py:248-269 | The collecting loop yields the records of the log, in log order |
| `DeltaScan.ScanLog` | src/entsoe_pipeline/fms_metadata/core/fms_metadata_delta.py:275-318 | The scanning loop with its counter and break adds exactly the marks of the specified scan and examines exactly its records |
| `DeltaScan.ExtensionComesOff` | src/entsoe_pipeline/fms_metadata/core/fms_metadata_delta.py:66-71 | A known extension comes off whatever its case, and only one |
| `DeltaScan.NoExtensionStays` | src/entsoe_pipeline/fms_metadata/core/fms_metadata_delta.py:66-71 | A name is its own base name if and only if it does not end in a known extension |
| `DeltaScan.EvolutionLeaf` | src/entsoe_pipeline/fms_metadata/core/fms_metadata_delta.py:74-89 | A file named by year, month, day and out area, with or without more after it, is looked for in that directory of an evolution folder, and in the folder itself otherwise |
| `DeltaRefresh.RunDelta` | src/entsoe_pipeline/fms_metadata/core/fms_metadata_delta.py:92-568 | The whole run: which of its endings is taken (full scan, nothing to monitor, re-raised error, crawl), no change to the catalogue unless it crawls, and otherwise a step that visits every dirty parent once and exactly its dirty leaves, in some order |
| `DeltaRefresh.DetectDirty` | src/entsoe_pipeline/fms_metadata/core/fms_metadata_delta.py:195-393 | Steps 3 to 6: both indexes read from the tables, never-crawled folders marked, both logs scanned; only active folders end up in the dirty map |
| `DeltaRefresh.BuildFileIndex` | src/entsoe_pipeline/fms_metadata/core/fms_metadata_delta.py:202-215 | The index from base names to update times covers exactly the environment's file rows, in any order of rows |
| `DeltaRefresh.BuildCrawlIndex` | src/entsoe_pipeline/fms_metadata/core/fms_metadata_delta.py:218-228 | The index from last path segments to crawl times covers exactly the environment's folder rows |
| `DeltaRefresh.CrawlLeaves` | src/entsoe_pipeline/fms_metadata/core/fms_metadata_delta.py:445-502 | Leaf by leaf: all records of a leaf in one upsert, a failing leaf skipped, an interrupt ending everything |
| `DeltaRefresh.CrawlDirty` | src/entsoe_pipeline/fms_metadata/core/fms_metadata_delta.py:409-557 | Parent by parent: folder row, leaves, checkpoint; a failed folder row skips the parent, a failed checkpoint does not, an interrupt stops the run |
| `DeltaRefresh.DirtyParentsAreActive` | src/entsoe_pipeline/fms_metadata/core/fms_metadata_delta.py:237-393 | Only active folders are ever marked, so every dirty parent has a domain |
| `DeltaRecovery.NeverCrawledStaysDirty` | src/entsoe_pipeline/fms_metadata/core/fms_metadata_delta.py:225-244 | Over any sequence of runs cut off or failing anywhere, an active folder never crawled is dirty in, and visited by, every run until one completes it |
| `DeltaRecovery.StampedExactlyWhenCompleted` | src/entsoe_pipeline/fms_metadata/core/fms_metadata_delta.py:504-546 | A run sets a folder's crawl time if and only if it gets as far as that folder, every leaf of it is stored without raising, and its checkpoint commits, even if it raises or is interrupted after that |
| `DeltaRecovery.InterruptEndsRun` | src/entsoe_pipeline/fms_metadata/core/fms_metadata_delta.py:409-557 | After an interrupt around a folder row, a leaf or a checkpoint nothing more of the run happens; without one the run goes through all of its work, whatever fails |
| `DeltaRecovery.UnfinishedFolderRetriedExactly` | src/entsoe_pipeline/fms_metadata/core/fms_metadata_delta.py:524-533 | A flat folder a run leaves unfinished is retried by the next run if and only if it was never crawled or a scan finds a dirty record of it before three clean ones in a row |
| `DeltaRecovery.FlatFolderIsDirtyExactly` | src/entsoe_pipeline/fms_metadata/core/fms_metadata_delta.py:225-318 | A flat active folder is marked in a run if and only if it was never crawled or a scan finds a dirty record of it before three clean ones in a row |
| `DeltaRecovery.RunAllOrNone` | src/entsoe_pipeline/fms_metadata/core/fms_metadata_delta.py:409-557 | Over a whole run, all records of a crawled leaf are stored under its parent's row, or none of their rows is touched, whatever happens to other parents and leaves and even if the upsert raises or is interrupted after it has landed; stored if and only if the run gets there and the upsert accepts them |
| `DeltaRecovery.LeafAllOrNone` | src/entsoe_pipeline/fms_metadata/core/fms_metadata_delta.py:444-502 | ... within one parent's pass |
| `DeltaRecovery.DeltaAggregates` | src/entsoe_pipeline/fms_metadata/core/fms_metadata_delta.py:504-533 | Whatever fails, after a run the summary of every folder it checkpointed, and of every folder it did not work on, agrees with the file rows, provided crawls list each file under one folder |
| `DeltaRecovery.NeverCrawledExactly` | src/entsoe_pipeline/fms_metadata/core/fms_metadata_delta.py:225-239 | The last-segment index says never crawled if and only if the folder's own row has no crawl time |
| `Catalog.FullCrawlKeepsAggregates` | src/entsoe_pipeline/fms_metadata/core/metadata_crawlers_common.py:87-135 | Every full-crawl transaction, committed or rolled back, keeps every folder's counts and byte totals equal to the count and sums over its file rows |
| `Catalog.SaveFolderStores` | src/entsoe_pipeline/fms_metadata/core/metadata_crawlers_common.py:87-135 | A committed transaction leaves exactly the crawled records under the folder, with their number and the sums of their original and compressed bytes |
| `Catalog.SaveFolderStamps` | src/entsoe_pipeline/fms_metadata/core/metadata_crawlers_common.py:87-118 | ... under the folder's old id and domain, or one new row with the given domain, and in either case stamped with the crawl time |
| `DeltaRecovery.FullCrawlIsSeen` | src/entsoe_pipeline/fms_metadata/core/fms_metadata_delta.py:218-239 | ... so that no crawl index the next delta run may read has the folder as never crawled |
| `Catalog.SaveFolderFrames` | src/entsoe_pipeline/fms_metadata/core/metadata_crawlers_common.py:121-135 | ... and every other folder, with its rows, as it was |
| `Catalog.CompiledMatchesRows` | src/entsoe_pipeline/fms_metadata/utils/transformer.py:97-108 | The sums over the crawled list are the sums over the rows stored for it |
| `Catalog.CompiledColumns` | src/entsoe_pipeline/fms_metadata/utils/transformer.py:97-108 | The compiled summary is the number of records, the sum of their original sizes and the sum of their compressed sizes |
| `Catalog.TotalColumns` | src/entsoe_pipeline/fms_metadata/core/fms_metadata_delta.py:507-517 | ... and so are the totals the checkpoint takes over the rows |
| `Catalog.UpsertBreaksExactlyRehomed` | src/entsoe_pipeline/fms_metadata/core/fms_metadata_delta.py:480-493 | An upsert leaves another folder's summary right if and only if it takes over none of that folder's file identifiers |
| `Catalog.CheckpointKeepsTables` | src/entsoe_pipeline/fms_metadata/core/fms_metadata_delta.py:505-533 | A committed checkpoint makes its folder's summary right, stamps it only when every leaf succeeded, keeps its id and domain, every other row and the table constraints |
| `Catalog.EnsureFolderAdds` | src/entsoe_pipeline/fms_metadata/core/fms_metadata_delta.py:413-436 | A parent with a row keeps it; otherwise it gets a new one with the given domain, never crawled and with the right summary of no files |
| `Catalog.Database.SaveCrawledFolderMetadata` | src/entsoe_pipeline/fms_metadata/core/metadata_crawlers_common.py:65-135 | The transaction in place: update or insert the folder row, delete then insert its files, roll everything back on a repeated or foreign identifier |
| `Catalog.Database.Aggregate` | src/entsoe_pipeline/fms_metadata/core/fms_metadata_delta.py:507-517 | The aggregate query returns count and both byte sums of the folder's rows |
| `Catalog.Database.EnsureFolderRow` | src/entsoe_pipeline/fms_metadata/core/fms_metadata_delta.py:415-436 | Finds the parent's row or inserts an empty, never crawled one |
| `Catalog.Database.UpsertFiles` | src/entsoe_pipeline/fms_metadata/core/fms_metadata_delta.py:480-493 | One statement stores all records of a leaf, overriding rows of the same identifier, or nothing |
| `Catalog.Database.SaveCheckpoint` | src/entsoe_pipeline/fms_metadata/core/fms_metadata_delta.py:505-533 | The checkpoint writes the recounted summary, and the crawl time only when every leaf succeeded |
| `Protocol.NoRegisteredVersionLost` | src/entsoe_pipeline/db/core/query_for_landing_files_pending_integration.py:46-66 | Over every interleaving of sync and staging steps, with a failure possible between any two, a landing row the pending query may leave out has been merged at its registered version or a newer one |
| `Protocol.RegistryNeverAhead` | src/entsoe_pipeline/io/sync.py:125-187 | In every reachable state a landing row's version, or a newer one, is in S3 under that key |
| `Protocol.TableNeverRegresses` | jobs/staging/ingest_landing_csv_to_lakehouse.py:89-148 | Whatever the interleaving, no table ever goes back to an older version of a file |
| `Protocol.StepKeepsInv` | src/entsoe_pipeline/io/sync.py:125-187 | Every single step of either side keeps the invariant behind both claims |
| `Protocol.PendingOrNot` | src/entsoe_pipeline/db/core/query_for_landing_files_pending_integration.py:46-66 | Every landing row is returned or left out, and only equal attempt times leave both open |
| `Sync.LandingZone.SyncActiveDomains` | src/entsoe_pipeline/io/sync.py:89-190 | The loops over mappings and files, with errors caught per mapping, compute the specified zone and metrics wherever a file's transfer raises |
| `Sync.LandingZone.Transfer` | src/entsoe_pipeline/io/sync.py:146-179 | Which of upload and registration have taken effect, for each place a transfer may raise |
| `Sync.SyncAccounting` | src/entsoe_pipeline/io/sync.py:89-187 | In every run processed equals downloaded and errors is the number of mappings that err; downloaded plus skipped over the error-free mappings is exactly the number of files they select, and over all mappings at most the number selected |
| `Sync.FileOutcomeExactly` | src/entsoe_pipeline/io/sync.py:121-179 | One file: skipped without an id or when already synced, raised on a full disk, a failing check or any failure of its transfer, transferred otherwise; its object and its row change exactly when the upload and the registration land |
| `Sync.MappingErrs` | src/entsoe_pipeline/io/sync.py:91-187 | A mapping counts one error if and only if listing its folder raises or one of its files does; a failed listing changes nothing else |
| `Sync.SecondSyncSkipsExactly` | src/entsoe_pipeline/io/sync.py:124-144 | After an error-free sync a repeat against an unchanged remote downloads nothing, skips everything and changes nothing, if and only if no two selected files share an S3 key under different hashes |
| `Sync.S3KeyInjective` | src/entsoe_pipeline/io/sync.py:128-128 | S3 keys are equal if and only if stripped schema path and slash-free file name are |
| `Sync.KeysClashExactly` | src/entsoe_pipeline/io/sync.py:124-144 | For slash-free file names, two selected files share an S3 key under different hashes if and only if two files of one stripped schema path share a name under different hashes |
| `Sync.SecondSyncDownloadsNothing` | src/entsoe_pipeline/io/sync.py:124-144 | So where mappings go to distinct directories and list distinct names, repeating an error-free sync against an unchanged remote downloads nothing, skips every selected file and changes nothing |
| `Sync.SyncIsProtocolRun` | src/entsoe_pipeline/io/sync.py:91-187 | A whole sync, while the remote moves on between any two of its steps and whatever raises, is a run of the protocol with the same S3 and registry |
| `Sync.SyncFileIsProtocolRun` | src/entsoe_pipeline/io/sync.py:121-179 | So is the transfer of one file whose content has moved on since it was listed |
| `IcebergMerge.MergeRefinesOverride` | src/entsoe_pipeline/lakehouse/core/merge_to_iseberg.py:57-80 | With NULL-free unique keys on both sides the relational MERGE is accepted, keeps keys unique and is map override |
| `IcebergMerge.MergeExactly` | src/entsoe_pipeline/lakehouse/core/merge_to_iseberg.py:57-80 | On any rows: the statement is refused if and only if two source rows match one target row; otherwise each target row becomes the source row that matches it or stays, and exactly the source rows without a match are added |
| `IcebergMerge.MatchesExactly` | src/entsoe_pipeline/lakehouse/core/merge_to_iseberg.py:57-66 | Two rows match if and only if both have the same value, not NULL, in every key column |
| `IcebergMerge.RetryIsExactlyOnce` | jobs/staging/ingest_landing_csv_to_lakehouse.py:89-148 | Merging a failed batch and then a later one leaves the same rows as the later one alone, if and only if every row of the first is replaced by the later batch or was in the table already |
| `IcebergMerge.RetryOfContainedBatch` | jobs/staging/ingest_landing_csv_to_lakehouse.py:89-148 | In particular when the later batch contains the failed one: retries have exactly-once effect |
| `IcebergMerge.RetryStableExactlyWhenKeyed` | src/entsoe_pipeline/lakehouse/core/merge_to_iseberg.py:57-80 | Merging a batch twice succeeds and adds nothing if and only if its keys are NULL-free and unique |
| `IcebergMerge.RepeatedKeyPoisons` | src/entsoe_pipeline/lakehouse/core/merge_to_iseberg.py:66-74 | Once a batch with a repeated key has been inserted, every retry of it is refused |
| `IcebergMerge.RepeatedWriteExactly` | src/entsoe_pipeline/lakehouse/add_csv_to_iceberg.py:75-107 | Writing a batch twice succeeds and changes nothing the second time if and only if the batch is empty, for a table without business keys, which appends, and if and only if its keys are NULL-free and unique, for one with them |
| `IcebergMerge.SameMapSameRows` | src/entsoe_pipeline/lakehouse/core/merge_to_iseberg.py:66-74 | Keyed tables have equal maps if and only if they hold the same rows |
| `IcebergMerge.BusinessKeysExact` | src/entsoe_pipeline/lakehouse/core/get_domain_business_keys.py:39-51 | A column is a business key if and only if it is mandatory, text or time, and not the update time |
| `IcebergMerge.Session.MergeDataframeIntoTable` | src/entsoe_pipeline/lakehouse/core/merge_to_iseberg.py:30-80 | Empty keys refused; otherwise the table becomes the merged one or is untouched, and the temporary view is gone in every case |
| `IcebergMerge.Session.AddCsv` | src/entsoe_pipeline/lakehouse/add_csv_to_iceberg.py:63-107 | Creates the table if needed, then merges by business keys or appends when there are none |
| `Staging.DrainLeavesOnlyDropped` | jobs/staging/ingest_landing_csv_to_lakehouse.py:78-148 | After a run in which every group succeeds, with nothing newly registered, the next query returns exactly the rows the gates dropped |
| `Staging.EachFileLoggedOnceExactly` | jobs/staging/ingest_landing_csv_to_lakehouse.py:103-148 | In a run that completes, processed plus failed is the number of grouped files, and each grouped file has exactly one log entry, in order, if and only if no success commit raised after it had landed |
| `Staging.CountsExactly` | jobs/staging/ingest_landing_csv_to_lakehouse.py:78-148 | However the groups turn out, processed is the number of files in the groups that succeed and failed the number in the others, up to the group whose failure log cannot be committed; the run completes if and only if there is none |
| `Staging.GroupingConserves` | src/entsoe_pipeline/lakehouse/get_files_to_ingest.py:79-146 | Every pending row is dropped by a gate or placed in exactly one group: groups have distinct contracts, hold the rows of their contract in query order, and their sizes plus the dropped rows add up |
| `Staging.GroupsExactly` | src/entsoe_pipeline/lakehouse/get_files_to_ingest.py:79-146 | Each group holds, in query order, the key, hash, size and domain of exactly the rows the router sends to its contract |
| `Staging.GroupsInOrder` | src/entsoe_pipeline/lakehouse/get_files_to_ingest.py:146-146 | There is a group for each contract some row is routed to, in the order in which they first come up |
| `Staging.GroupedExactly` | src/entsoe_pipeline/lakehouse/get_files_to_ingest.py:79-146 | A key and hash are processed if and only if they are those of a pending row that passes the gates |
| `Staging.GetIncrementalFilesToIngest` | src/entsoe_pipeline/lakehouse/get_files_to_ingest.py:57-154 | The loop with its gates computes that grouping |
| `Staging.LakehouseRegistry.IngestLandingCsvToLakehouse` | jobs/staging/ingest_landing_csv_to_lakehouse.py:78-148 | The job loop: log, counters and early end as specified, group after group |
| `Staging.LakehouseRegistry.IngestBatch` | jobs/staging/ingest_landing_csv_to_lakehouse.py:85-148 | One group's turn: success log, or failure log when anything raised; a failure log that raises ends the job |
| `Staging.StagingRunIsProtocolRun` | jobs/staging/ingest_landing_csv_to_lakehouse.py:57-148 | A staging run from the pending query on is a run of the protocol with the same attempt log |
| `Staging.JobIsProtocolRun` | jobs/staging/ingest_landing_csv_to_lakehouse.py:78-148 | So is the loop alone, from any state between two groups, wherever a load raises, before its merge has taken effect or after |
| `Throttle.WindowBound` | src/entsoe_pipeline/api/client_side_throttler.py:89-105 | For any order of threads and any clock between passes, a closed window holds at most as many recorded requests as intervals fit into it, plus one |
| `Throttle.WindowBoundAttained` | src/entsoe_pipeline/api/client_side_throttler.py:89-105 | The bound is reached for every interval and window |
| `Throttle.DefaultsKeepTheLimit` | src/entsoe_pipeline/config/core/pipeline.py:193-198 | At 0.637 s a minute never holds more than 95 requests, and can hold 95 |
| `Throttle.BareQuotientOverruns` | src/entsoe_pipeline/api/client_side_throttler.py:63-66 | Without the jitter buffer, at 60/95 s, a minute can hold 96 |
| `Throttle.DispatchesAreSpaced` | src/entsoe_pipeline/api/client_side_throttler.py:89-105 | Recorded dispatches are at least the interval apart |
| `Throttle.ServedAtLatestDue` | src/entsoe_pipeline/api/client_side_throttler.py:89-105 | With exact sleeps, request i goes out at the latest of a_j + (i-j) intervals over j up to i, counting the last earlier dispatch as one of them |
| `Throttle.ServedIsOptimal` | src/entsoe_pipeline/api/client_side_throttler.py:40-48 | The throttler's schedule respects arrivals and spacing, and no schedule that does is earlier for any request |
| `Throttle.FreshSessionNeverDelays` | src/entsoe_pipeline/api/client_side_throttler.py:73-75 | A new session used after its first interval is never delayed by the initial 0.0 |
| `Throttle.ThrottledSession.WaitIfNeeded` | src/entsoe_pipeline/api/client_side_throttler.py:81-105 | One pass through the lock appends exactly the specified dispatch |
| `Listing.ListRecursive` | src/entsoe_pipeline/api/ls_fms.py:200-279 | The recursive walk over any finite tree: the sorted permutation of the files below, named by path; fetches as many pages as the sum over visited folders of entries div 1000 + 1, all counted; succeeds if and only if none of those requests raises, and stops at the first that does |
| `Listing.ListingIsExact` | src/entsoe_pipeline/api/ls_fms.py:248-279 | Such a list has one item for each file leaf and only those, each under its slash-joined path, no name twice, and is the only such list |
| `Listing.NamesAreDistinct` | src/entsoe_pipeline/api/ls_fms.py:268-272 | Distinct leaves get distinct names |
| `Listing.ListFolderRawItems` | src/entsoe_pipeline/api/ls_fms.py:142-197 | One directory: exactly its records, sorted, with entries div 1000 + 1 counted requests |
| `Listing.LsFms` | src/entsoe_pipeline/api/ls_fms.py:100-139 | All names in server order, with entries div page size + 1 requests, for any positive page size |
| `Listing.RequestPath` | src/entsoe_pipeline/api/ls_fms.py:222-227 | The path built with collapsed slashes names root, folder and subfolder, whatever empty parts it has |
| `Listing.Client.FetchFolderPage` | src/entsoe_pipeline/api/ls_fms.py:53-92 | One page of the directory the path names, or an error |
| `Fingerprint.SignatureInjective` | src/entsoe_pipeline/api/xxhash.py:49-50 | States whose times have equally many underscores have equal signature texts only if they are equal |
| `Fingerprint.DecodeSignature` | src/entsoe_pipeline/api/xxhash.py:49-50 | With an underscore-free time the state can be read back from the text, whatever the name |
| `Fingerprint.DecimalCanonical` | src/entsoe_pipeline/api/xxhash.py:49-50 | The size is written as the usual decimal numeral, without leading zeros |
| `Fingerprint.AmbiguousExactly` | src/entsoe_pipeline/api/xxhash.py:37-39 | Another state has the same text if and only if an inner part of the text other than the size is a decimal numeral |
| `Fingerprint.UnderscoredTimesCollide` | src/entsoe_pipeline/api/xxhash.py:37-39 | Two different states with one text |
| `Fingerprint.ChangeForcesTransferAndStaging` | src/entsoe_pipeline/io/core/idempotency.py:65-84 | With a collision-free hash a file in a new state is not taken for synced, and under its new hash the pending query cannot leave it out, however many of its earlier states the attempt log has as merged |
| `Routing.ClassifierAndRouterAgree` | src/entsoe_pipeline/fms_metadata/core/domain_classifier.py:44-60 | A folder classified by a non-empty name it starts with, case and all, has landing keys that route back to the same domain: to its own name if that is a contract there, otherwise to the very item that classified it |
| `Routing.RoutedWithinDomainExactly` | src/entsoe_pipeline/lakehouse/get_files_to_ingest.py:100-122 | A classified folder routes to a contract of its domain that it starts with if and only if the domain has one; otherwise only the flat lookup of the domain name is left |
| `Routing.CaseOnlyMatchIsDropped` | src/entsoe_pipeline/lakehouse/get_files_to_ingest.py:100-132 | A folder matched only up to case is classified but its files are dropped |
| `Routing.FlatMatchFinds` | src/entsoe_pipeline/lakehouse/get_files_to_ingest.py:117-122 | The flat lookup takes the contract of a publication with that key, and finds nothing when no group has it |
| `Routing.FlatMatchExactly` | src/entsoe_pipeline/lakehouse/get_files_to_ingest.py:117-122 | ... namely of the first such publication in the first group that has one |
| `Routing.ContractExactly` | src/entsoe_pipeline/lakehouse/get_files_to_ingest.py:92-122 | The contract of a key, for any classifier: the fourth segment itself if it is a contract of the group the third one names, else the first contract of that group it starts with, else what the flat lookup finds |
| `Routing.VerdictExactly` | src/entsoe_pipeline/lakehouse/get_files_to_ingest.py:79-136 | A key is malformed if and only if it has fewer than four segments, unclassified if and only if it has no contract, and left out if and only if that is the giant one |
| `Routing.KeySegments` | src/entsoe_pipeline/lakehouse/get_files_to_ingest.py:84-96 | Whatever the file is called, the first four segments of its key are those of the landing path |
| `Routing.SchemaExact` | src/entsoe_pipeline/fms_metadata/ingestion/landing_bucket_schema.py:57-80 | A path is in the schema if and only if a catalogued folder with two or more segments yields it |
| `Routing.LandingFoldersSchema.Build` | src/entsoe_pipeline/fms_metadata/ingestion/landing_bucket_schema.py:35-91 | The table is replaced by the schema as a whole, or left alone when the schema is empty or the transaction rolls back |
| `Selection.SelectorsAgreeExactly` | src/entsoe_pipeline/lakehouse/generate_tree_for_my_entsoe_domains.py:77-87 | For any checklist, the directories created for an environment are, in order and once per schema entry, those sync resolves if and only if every schema path with a folder enabled under any key equal up to case also has one enabled under the first such key |
| `Selection.SelectorsAgree` | src/entsoe_pipeline/lakehouse/generate_tree_for_my_entsoe_domains.py:77-87 | So for environment keys distinct up to case they always agree |
| `Selection.TargetIsMapped` | src/entsoe_pipeline/io/core/path_resolver.py:44-62 | A path is created if and only if it has a folder enabled under some key equal up to case, and synced if and only if it has one enabled under the first |
| `Selection.CaseTwinsDisagree` | src/entsoe_pipeline/io/core/config_parser.py:38-42 | Two keys that differ only in case at which the two disagree |
| `Selection.ResolverRaisesExactly` | src/entsoe_pipeline/io/core/path_resolver.py:49-62 | The resolver raises if and only if the bare environment name is a schema path and an active folder |
| `Selection.MappingsExact` | src/entsoe_pipeline/io/core/path_resolver.py:44-62 | Every mapping is of a path of the environment, by the first active folder among its segments and with that folder's own value; its top-level folder is the second segment |
| `Selection.EntriesInOrder` | src/entsoe_pipeline/io/core/config_parser.py:44-56 | Entries are read root by root, and within a root the domains in order and then its own folders |
| `Selection.LastValueWins` | src/entsoe_pipeline/io/core/config_parser.py:44-56 | Where a folder is listed twice, the last entry that is not false gives its value |
| `Selection.MappingRejoins` | src/entsoe_pipeline/io/core/path_resolver.py:51-61 | Environment, top-level folder and remote path of a mapping make up its schema path again |
| `Selection.GetActiveFolders` | src/entsoe_pipeline/lakehouse/generate_tree_for_my_entsoe_domains.py:36-56 | The nested loops collect exactly the enabled folders of every environment |
| `Selection.SelectTargetFolders` | src/entsoe_pipeline/lakehouse/generate_tree_for_my_entsoe_domains.py:77-87 | The target loop keeps exactly the matching paths, whatever order the set is visited in |
| `Selection.ExtractActiveFolders` | src/entsoe_pipeline/io/core/config_parser.py:26-58 | The nested loops fill the ordered dictionary of the first matching environment |
| `Selection.ResolveTargetMappings` | src/entsoe_pipeline/io/core/path_resolver.py:26-64 | The mappings of the matching paths in order, each with the first active folder in it, or the error |
| `Legacy.ArchivesCoverEverything` | src/entsoe_pipeline/fms_metadata/utils/overview_parser.py:143-169 | With an R1 rule and distinct archive names the three lists together are exactly the legacy folders |
| `Legacy.CoverageExactly` | src/entsoe_pipeline/fms_metadata/utils/overview_parser.py:134-169 | A folder is in some archive if and only if the R1 rule exists under its exact name or one of the three rules matches it |
| `Legacy.CoversExactly` | src/entsoe_pipeline/fms_metadata/utils/overview_parser.py:139-167 | A rule covers the folders in whose names one of its patterns occurs, ignoring case; R1 also those in which no pattern of the rules named R2_Archives and R3_Archives does |
| `Legacy.LegacyFoldersExactly` | src/entsoe_pipeline/fms_metadata/utils/overview_parser.py:104-132 | The legacy folders are those of the first TP_Legacy_Publications root of the first environment of that name; otherwise the error names what is missing |
| `Legacy.GetLegacyArchiveFolders` | src/entsoe_pipeline/fms_metadata/utils/overview_parser.py:87-169 | The errors in their order, otherwise the sorted, duplicate-free list of exactly the folders the rule covers, R1 with its fallback |
| `Legacy.SelectFolders` | src/entsoe_pipeline/fms_metadata/core/legacy_metadata_crawler.py:74-112 | A pass selects exactly the given folders of its archive, or the whole archive |
| `Legacy.SelectAll` | src/entsoe_pipeline/fms_metadata/core/legacy_metadata_crawler.py:184-205 | Three passes, newest first; a given legacy folder is selected by one of them if and only if the coverage condition holds |
| `Legacy.IngestLegacyFolders` | src/entsoe_pipeline/fms_metadata/core/legacy_metadata_crawler.py:135-171 | The crawl loop: failed crawls skipped, a save that raises, before it has taken effect or after, ends the pass |
| `Legacy.PassStoresExactly` | src/entsoe_pipeline/fms_metadata/core/legacy_metadata_crawler.py:135-171 | After a pass over distinct folders, each folder it got to, crawled and saved holds exactly its crawl under the time of the pass, and every other one is as before |
| `Legacy.LegacyKeySegments` | src/entsoe_pipeline/fms_metadata/core/legacy_metadata_crawler.py:153-158 | A legacy folder is stored under a path of two segments, the legacy root and its name |
| `Legacy.LegacyPassKeepsAggregates` | src/entsoe_pipeline/fms_metadata/core/legacy_metadata_crawler.py:135-171 | However the crawls and saves turn out, a pass keeps every folder's summary in agreement with its file rows |

## Left out

- The choice of active domains (test mode, target domain) and the reading of configuration files: active folders, classifier,
  overview and checklist are inputs.
- HTTP, tokens, retries with backoff, ZIP extraction, Spark, SQL and S3 internals: each is a step with its stated effect that
  may fail. The number of requests a retry adds is not counted.
- The hash function, and megabyte figures rounded for display. Byte counts and times are exact.
- Lower- and upper-casing outside ASCII.
- More than one sync or more than one staging job at a time: the protocol has one producer and one consumer, in any
  interleaving.
- Deletion of remote files: a full crawl drops their rows, the delta does not, so histories have additions and updates only.
- Nested evolution folders as the subject of the history theorems: full crawls and leaf crawls name those files relative to
  different roots. They may be active in the same runs, and detection, crawling and recovery cover them.
- DeltaHistory.DeltaRefinesFullCrawl: asks that every file of the folder has a log row that counts for it, with the file's last
  update, and that listed times are no older than the log's; where the log falls short, `DeltaHistory.HistoryUpToDateExactly`
  has the exact condition. No other folder row of the environment may end in the folder's name, since the code tells rows
  apart by that name.
- DeltaHistory.CurrentExactlyWhenAttributed: asks that file rows of the environment have distinct base names and that older
  records which count for the folder are of its own files; the code's index by base name has any of the rows that share one.
- DeltaHistory.ProgramRunIsRunStep: the environment of the method answers by folder and leaf and has no interrupt; the history
  theorems themselves allow interrupted runs.
- Listing.ListRecursive: asks for a remote tree with non-empty, slash-free names that are distinct within a directory; on
  other trees the server's answer to the paths it asks for is not known.
- Listing.ListFolderRawItems: a path that names a file is answered with an error, since the server's answer to one is not known.
- Protocol.NoRegisteredVersionLost: speaks of versions of whole files, not of the rows inside them; `IcebergMerge` has the rows.
- IcebergMerge.Session.AddCsv: a table has no column types, and the number of output partitions is not modelled.
- The request counter and the ANALYZE statement of the delta run, run tracking, reports and logging output.
- Selection of files within a mapping, and the matching of file lists in the checklist: the selected files are an input of `Sync`.
- The send after the throttler's lock is released: the bounds are about recorded dispatch times.
