# Verified model of the disk service's core protocols

This project models, in Dafny, the parts of the disk service whose correctness is decided by state,
arithmetic or interleaving, and proves what they promise. `dafny verify dfyconfig.toml` checks it all.

## What is modelled

**The final-blob migration** (`scripts/migrate-final-blobs.py`), the main part. It moves the content of
every `file_contents` row from local files to S3 and then switches all `storage_path` values at once.

- `ObjectKeys`, `Manifest`: prefixes, target keys and paths; the generator's and the reader's loops.
- `DatabaseSwitch`: the four counts, the classification, and the one transaction that moves the paths.
- `MigrationMachine`: every command as a process that makes one store call at a time, beside any number
  of other processes, with crashes between any two calls. `MigrationSafety` has the invariant and its
  proof; `MigrationGuarantees` states what an operator can rely on.
- `CopyBlobs`: the commands as loops over mutable stores. `CopyRefinement` and `SwitchRefinement` prove
  that an undisturbed process of the machine does exactly what the loop does.
- `MigrationHistory`: what a run explains: who uploaded an object, what a switch found, who holds a lock.
- `MigrationCompletion`: from any reachable state, whatever died before, one copy and one cutover finish
  the migration, and one rollback undoes it.
- `Pacing`, `Multipart`: the transfer limiter and the part size.

Environment assumptions of the migration: the API and worker processes are stopped, so local files do
not change and `file_contents` is written by the tool alone; the target keys are written by `copy` alone;
all processes use one checkpoint file and one manifest. MD5 and SHA-256 are arbitrary functions of the
bytes. Path resolution is a fixed map from locators to files below the root.

**Ranged downloads**: `RangeRequest` reads the header with the exact behaviour of `std::stoull`;
`DownloadStream` is the response callback under arbitrary short reads, and the reassembly of parts.

**Smaller cores**: `FixedWindow` (rate limiting), `InsertSql` (the generated model of `files`),
`LogDate` (calendar dates), `RequestSlots` (in-flight requests and shutdown), `RequestId` (UUIDs).

## Where the code departs from what one might expect

- A cutover repeated after success reports every row as changed again if each record's source locator
  already equals its target key, because the source count is consulted first. The table itself does
  not change. `SwitchIsIdempotent` gives the exact condition, `RepeatedCutoverMayReportRows` accepted
  manifests for which it happens.
- `bytes=-0` is answered with the whole file, where section 14.1.2 of RFC 9110 makes it unsatisfiable;
  text after the end's digits is ignored, so only the first of several ranges is read; `bytes=--1` is
  read as a suffix of 2^64 - 1 bytes. The lemmas state what the code does.
- A part request whose nominal end does not fit 64 bits is refused although the part exists;
  `PartsReassemble` has the condition.
- A suggested length of zero makes the stream callback report an interruption of a healthy reader.
- A window's counter lives for one window length from its first increment, not until the window's end.
  The limit is kept exactly for windows with too few requests to matter or whose increments all reach
  the counter within that time (`WindowAdmitsLimit`), which includes every increment that reaches it
  inside its own window (`PromptIsAlive`); `LateIncrementIsAdmitted` shows one that does not.

## Model

| member | source | states |
|---|---|---|
| ObjectKeys.NormalizeIsIdempotent | scripts/migrate-final-blobs.py:280-292 | normalising an already normalised object prefix changes nothing |
| ObjectKeys.NormalizesExactly | scripts/migrate-final-blobs.py:280-292 | a prefix is accepted exactly when, without the slashes around it, it is 1 to 1024 characters of safe, non-empty pieces |
| ObjectKeys.TargetKeyInjective | scripts/migrate-final-blobs.py:295-301 | under one prefix, equal target keys mean equal SHA-256 digests |
| ObjectKeys.KeyPieces | scripts/migrate-final-blobs.py:295-301 | the pieces of a target key: those of the prefix, "sha256", the first two digits, the digest with ".bin"; and its length |
| ObjectKeys.DigestIs | scripts/migrate-final-blobs.py:274-277 | a digest is so many characters, each one of the sixteen lower-case hex digits |
| ObjectKeys.SafePathStaysBelow | scripts/migrate-final-blobs.py:325-335 | an accepted relative path, walked as a file system does, stays below the root |
| ObjectKeys.UnsafePathsAre | scripts/migrate-final-blobs.py:325-335 | a relative path is refused exactly if it is absolute, steps up, or names nothing |
| ObjectKeys.RelativePathRoundTrip | scripts/migrate-final-blobs.py:325-335 | a resolved path written as text passes the safety check and is read back as the same path |
| Manifest.CheckRow | scripts/migrate-final-blobs.py:457-507 | one row is written exactly when it is well formed, resolvable, of the right size and shares no digest or locator |
| Manifest.WriteLines | scripts/migrate-final-blobs.py:448-511 | all rows are written, as their records and in order, exactly when every row passes |
| Manifest.PassingRowsAre | scripts/migrate-final-blobs.py:457-500 | a table is written exactly when its rows are well formed field by field and share no digest or locator |
| Manifest.WrittenLinesAre | scripts/migrate-final-blobs.py:489-500 | every line is its row field by field, under the canonical key |
| Manifest.GenerateManifest | scripts/migrate-final-blobs.py:396-537 | a manifest is published exactly when all conditions hold, with the normalised header and one record a row |
| Manifest.CheckLine | scripts/migrate-final-blobs.py:633-661 | a line is accepted exactly when it is canonical, in strict id order and repeats no target key |
| Manifest.ReadLines | scripts/migrate-final-blobs.py:610-664 | the records are accepted exactly when every line passes |
| Manifest.LoadManifest | scripts/migrate-final-blobs.py:559-607 | a manifest loads exactly when header, lines and count are acceptable, and yields header and records |
| Manifest.AcceptedManifestIs | scripts/migrate-final-blobs.py:559-664 | acceptance in terms of the fields' text: kind, version, roots, bucket, count, order, digests, key pieces, locators |
| Manifest.ScanExists | scripts/migrate-final-blobs.py:450-456 | every table has a scan in id order |
| Manifest.WriterReaderAgree | scripts/migrate-final-blobs.py:396-664 | whatever the generator publishes from a scan is accepted, with the same header and records |
| Manifest.AcceptedManifestIsKeyed | scripts/migrate-final-blobs.py:887-911 | every accepted manifest satisfies the temporary table's PRIMARY KEY and UNIQUE constraints, one row a record |
| Manifest.RecordsNameTheirSources | scripts/migrate-final-blobs.py:304-347 | copy and rollback open exactly the file the row's locator resolves to |
| Manifest.SourceIsBelowRoot | scripts/migrate-final-blobs.py:325-347 | a record's source is found exactly below the root, and what is read is that file |
| Manifest.FullDigestIsUntrimmed | scripts/migrate-final-blobs.py:459-460 | a digest that fills its column is the same for Python's strip and PostgreSQL's btrim |
| Manifest.PaddedDigestIsTrimmed | scripts/migrate-final-blobs.py:459-460 | a digest padded with blanks is the digest again for Python's strip and PostgreSQL's btrim |
| Manifest.FreshManifestIsAtSource | scripts/migrate-final-blobs.py:913-950 | a generated manifest classifies the table it came from as not yet moved |
| Manifest.RepeatedCutoverMayReportRows | scripts/migrate-final-blobs.py:944-947 | for any digests, an accepted manifest and its table for which a second cutover reports a moved row again |
| DatabaseSwitch.LoadManifestTempTable | scripts/migrate-final-blobs.py:887-911 | loading succeeds exactly when ids and target keys are distinct, and gives the keyed table |
| DatabaseSwitch.Database.SwitchDatabasePaths | scripts/migrate-final-blobs.py:953-1006 | the transaction's result and the new table, and that every failure leaves the table alone |
| DatabaseSwitch.JoinCountsContents | scripts/migrate-final-blobs.py:919-930 | COUNT(*) of the join of two keyed tables counts contents |
| DatabaseSwitch.FullCountIsAllAt | scripts/migrate-final-blobs.py:913-950 | a full join count means that every row matches its record, and conversely |
| DatabaseSwitch.CountsDecideTables | scripts/migrate-final-blobs.py:913-950 | each verdict of the classification holds exactly for the tables it describes, row by row |
| DatabaseSwitch.SwitchIsExact | scripts/migrate-final-blobs.py:958-1000 | the row-count check never fires, the expected rows move, only storage_path changes, an executed switch ends at one side |
| DatabaseSwitch.ReportedStateIsFound | scripts/migrate-final-blobs.py:958-1006 | dry or executed, success is exactly a table at one side, and the state reported is that of the table found, row by row |
| DatabaseSwitch.SwitchesCancel | scripts/migrate-final-blobs.py:969-1000 | cutover then rollback, and rollback then cutover, restore file_contents exactly |
| DatabaseSwitch.SwitchIsIdempotent | scripts/migrate-final-blobs.py:969-1000 | a repeated switch leaves the table and changes no row, exactly unless every locator of a non-empty manifest is its target key in a cutover |
| MigrationSafety.SwitchStaysReachable | scripts/migrate-final-blobs.py:953-1006 | from a reachable table the transaction always classifies and ends in the original or the moved table |
| MigrationSafety.OthersAreStable | scripts/migrate-final-blobs.py:112-147 | what a process has established survives every step of another process |
| MigrationSafety.CopyStepKeeps | scripts/migrate-final-blobs.py:813-852 | every call of a copy keeps the stores' invariant, its own, and the locks of others |
| MigrationSafety.CutoverStepKeeps | scripts/migrate-final-blobs.py:1009-1018 | every call of a cutover does |
| MigrationSafety.RollbackStepKeeps | scripts/migrate-final-blobs.py:1033-1046 | every call of a rollback does |
| MigrationSafety.NextKeeps | scripts/migrate-final-blobs.py:813-1057 | every event, including starts and crashes, keeps the invariant of all processes |
| MigrationSafety.RunsKeepInvariant | scripts/migrate-final-blobs.py:813-1057 | the invariant holds after every sequence of events |
| MigrationSafety.ReachableIsSound | scripts/migrate-final-blobs.py:813-1057 | so it holds in every reachable system |
| MigrationGuarantees.GeneratedJobIsFresh | scripts/migrate-final-blobs.py:396-607 | a manifest generated and read back satisfies the hypotheses of all guarantees |
| MigrationGuarantees.TableIsNeverMixed | scripts/migrate-final-blobs.py:953-1006 | every reachable table is entirely at one side, differs only in paths, and once moved every row names an object with its size, MD5 and SHA-256 |
| MigrationGuarantees.CommitsAreVerified | scripts/migrate-final-blobs.py:1009-1057 | a committed cutover leaves every row naming a matching object, a committed rollback a matching local file |
| MigrationGuarantees.ObjectsOnlyAccumulate | scripts/migrate-final-blobs.py:828-841 | from any reachable state on, no object is overwritten or lost |
| MigrationGuarantees.StoresAreEvidence | scripts/migrate-final-blobs.py:229-271 | every added object is a verified target, every checkpoint entry a record with a verified target |
| MigrationGuarantees.CopyAccountsForEveryRecord | scripts/migrate-final-blobs.py:825-868 | a finished copy handled every record, or exactly its cap if that is less; its counts add up, and all of them are verified and checkpointed |
| MigrationGuarantees.CutoverFailsOnlyForLocks | scripts/migrate-final-blobs.py:871-884 | after one complete copy a cutover fails exactly for a held checkpoint lock or a table in use |
| MigrationGuarantees.CopyFailsOnlyForObstacles | scripts/migrate-final-blobs.py:813-852 | a copy fails exactly for a lock, a foreign checkpoint, a bad source or a conflicting object that was there first |
| MigrationGuarantees.PresentObjectIsOriginalOrVerified | scripts/migrate-final-blobs.py:740-767 | an object under a target key is verified or the one from before the migration |
| MigrationGuarantees.DryRunsWriteNothing | scripts/migrate-final-blobs.py:831-837 | a command without --execute changes neither table, objects nor checkpoint |
| MigrationGuarantees.FinishedCopyRecorded | scripts/migrate-final-blobs.py:229-253 | a finished copy has recorded each record it handled, column by column |
| MigrationGuarantees.CutoverReadsEveryColumn | scripts/migrate-final-blobs.py:255-271 | a cutover refuses a record exactly when its checkpoint row is missing or differs in any column |
| MigrationHistory.ObjectsHaveUploads | scripts/migrate-final-blobs.py:827-838 | in every run an object that was not there at first was uploaded by an executing copy whose cap reaches its record |
| MigrationHistory.CappedRunsStayBelow | scripts/migrate-final-blobs.py:827-828 | however often copies capped at a limit run, crash and rerun, no record from the limit on gets an object |
| MigrationHistory.SwitchReportsWhatItFound | scripts/migrate-final-blobs.py:953-1057 | in every run a finished cutover or rollback, dry or not, reports the state its transaction found, row by row, and the rows it moved |
| MigrationHistory.LocksDieWithOwners | scripts/migrate-final-blobs.py:112-147 | in every run, crashes included, a lock is held by a running process |
| CopyBlobs.Stores.VerifyTarget | scripts/migrate-final-blobs.py:740-767 | a target is absent, verified or an error |
| CopyBlobs.Stores.RecordVerified | scripts/migrate-final-blobs.py:229-253 | the record's row is inserted or replaced, all others stay |
| CopyBlobs.Stores.CopyRecord | scripts/migrate-final-blobs.py:828-848 | one record succeeds exactly when copyable, and uploads and records exactly then |
| CopyBlobs.Stores.CopyBlobs | scripts/migrate-final-blobs.py:813-868 | the report, S3 and the checkpoint: everything before the first obstacle and nothing after, and nothing at or beyond the cap |
| CopyBlobs.Stores.VerifyAllTargets | scripts/migrate-final-blobs.py:871-884 | succeeds exactly when every record is checkpointed and every object verified |
| CopyBlobs.Stores.Cutover | scripts/migrate-final-blobs.py:1009-1018 | switches exactly when everything is verified and no lock is held; otherwise the table stays |
| CopyBlobs.RollbackPaths | scripts/migrate-final-blobs.py:1033-1046 | switches back exactly when every source is verified and the table is free |
| CopyBlobs.ProgressStep | scripts/migrate-final-blobs.py:825-849 | one turn of the copy loop, with its counters |
| CopyBlobs.CopyOnlyAdds | scripts/migrate-final-blobs.py:832-838 | copying keeps every object there was |
| CopyBlobs.CopiedRecordsVerified | scripts/migrate-final-blobs.py:838-843 | records copied without obstacle have verified targets |
| CopyBlobs.CompletedCopyPassesVerification | scripts/migrate-final-blobs.py:871-884 | one completed uncapped copy is all that cutover's check asks for |
| CopyBlobs.RerunConverges | scripts/migrate-final-blobs.py:828-849 | a rerun after any number of copied records ends in the same objects and uploads exactly the rest |
| CopyBlobs.UploadsAreNewObjects | scripts/migrate-final-blobs.py:832-843 | what a copy counts as uploaded is the number of objects S3 gained |
| CopyRefinement.UndisturbedCopyRefinesLoop | scripts/migrate-final-blobs.py:813-868 | a copy process alone, call by call, has exactly the loop's outcome |
| CopyRefinement.SoloRecord | scripts/migrate-final-blobs.py:828-849 | the calls of one record have the effect of one loop turn |
| SwitchRefinement.UndisturbedCutoverRefinesLoop | scripts/migrate-final-blobs.py:1009-1018 | a cutover process alone ends, with exactly the outcome of the sequential cutover |
| SwitchRefinement.UndisturbedRollbackRefinesLoop | scripts/migrate-final-blobs.py:1033-1046 | a rollback process alone ends, with exactly the outcome of the sequential rollback |
| MigrationCompletion.CallsAreSolo | scripts/migrate-final-blobs.py:813-1057 | the calls of one process, as events of the machine, change the stores as it would alone and no other process |
| MigrationCompletion.IdleIsUnlocked | scripts/migrate-final-blobs.py:112-147 | when every process has ended, however it ended, no lock is left |
| MigrationCompletion.CopyAloneFinishes | scripts/migrate-final-blobs.py:813-868 | a full copy over any reachable stores finishes exactly when sources are good, nothing conflicts and the checkpoint is its own; it uploads exactly what is missing |
| MigrationCompletion.MigrationCompletes | scripts/migrate-final-blobs.py:813-1018 | from every reachable state, crashed copies included, a copy and a cutover finish and leave every row naming its content |
| MigrationCompletion.MigrationRollsBack | scripts/migrate-final-blobs.py:1033-1057 | from every reachable state with good sources a rollback finishes and restores file_contents |
| Pacing.RateLimiter.constructor | scripts/migrate-final-blobs.py:95-98 | the budget in bytes and the start of the schedule |
| Pacing.RateLimiter.Consume | scripts/migrate-final-blobs.py:100-109 | the next allowed time and the delay |
| Pacing.BudgetHolds | scripts/migrate-final-blobs.py:92-109 | the bytes of all calls returned by a time fit the budget since the limiter began |
| Pacing.BurstIsOneCall | scripts/migrate-final-blobs.py:92-109 | the bytes of calls starting in an interval exceed its budget by at most one call |
| Pacing.FullRateWhileBusy | scripts/migrate-final-blobs.py:100-109 | the schedule always ends exactly when an unbroken stretch of calls is paid for at the full rate: no call is held back for more |
| Multipart.ChunkSizeIsLeastUsable | scripts/migrate-final-blobs.py:770-774 | whole MiB, at least 64 MiB, at most 10 000 parts, and the least such size |
| RangeRequest.Parse | src/dtos/FileDto.hpp:790-855 | the result structure: satisfiable exactly when the header has an interval, and then that interval |
| RangeRequest.AnswerLiesInFile | src/controllers/DownloadResponder.cpp:82-85 | what is sent is a non-empty interval inside the file, and its length does not wrap |
| RangeRequest.PrintedNumberParses | src/dtos/FileDto.hpp:822-843 | a printed number is read back whatever follows it; 2^64 and more throw |
| RangeRequest.PrintedRangeParses | src/dtos/FileDto.hpp:800-852 | the exact answer to bytes=s-e for all numbers and any trailing text |
| RangeRequest.OpenRangeParses | src/dtos/FileDto.hpp:831-839 | the exact answer to bytes=s- |
| RangeRequest.SuffixIsOpenRange | src/dtos/FileDto.hpp:817-829 | bytes=-k is bytes=(n-k)-, or the whole file for zero and for k > n |
| RangeRequest.NegativeSuffixIsRead | src/dtos/FileDto.hpp:822-829 | bytes=--k is read modulo 2^64 |
| RangeRequest.SignedNumberParses | src/dtos/FileDto.hpp:822-843 | leading blanks and one sign are read; a minus sign negates modulo 2^64 |
| RangeRequest.NoDigitsThrow | src/dtos/FileDto.hpp:822-851 | text without a number after blanks and sign throws |
| RangeRequest.MalformedIsRefused | src/dtos/FileDto.hpp:800-821 | another unit, no dash, or nothing around it is refused |
| RangeRequest.StatusFollowsHeader | src/controllers/DownloadResponder.cpp:56-85 | no header sends the whole file as such; a header sends its interval as a part, or is refused with the size |
| RangeRequest.FirstByteHeader | src/dtos/FileDto.hpp:800-852 | bytes=0-0 is the first byte |
| RangeRequest.PrintedRangeIsAnswered | src/controllers/DownloadResponder.cpp:56-85 | a range that begins inside the file is answered, clamped, if its end fits 64 bits, and is refused otherwise |
| DownloadStream.StreamResponse.constructor | src/controllers/DownloadResponder.cpp:175-177 | the state the closure starts with |
| DownloadStream.StreamResponse.Invoke | src/controllers/DownloadResponder.cpp:178-242 | the callback's new state, the number of bytes and which bytes it writes |
| DownloadStream.StreamConserves | src/controllers/DownloadResponder.cpp:178-242 | for all call sequences the body is the prefix delivered, nothing is lost or repeated, at most one interruption is reported |
| DownloadStream.InterruptedIffStarved | src/controllers/DownloadResponder.cpp:210-226 | an interruption is reported exactly when some call gets nothing while bytes are owed |
| DownloadStream.CallFillsItsBuffer | src/controllers/DownloadResponder.cpp:200-236 | a call writes at most the suggested length, 64 KiB and what is owed, and exactly the least of them if the reader can |
| DownloadStream.NullBufferEndsStream | src/controllers/DownloadResponder.cpp:190-193 | a call without a buffer closes the stream, and what is still owed is reported, not sent |
| DownloadStream.CallsMakeProgress | src/controllers/DownloadResponder.cpp:228-236 | remaining strictly decreases with every call that brings a buffer |
| DownloadStream.PatientStreamIsComplete | src/controllers/DownloadResponder.cpp:178-242 | with enough room and a reader that keeps giving, the body is exactly the requested bytes |
| DownloadStream.EmptySuggestionIsReported | src/controllers/DownloadResponder.cpp:201-221 | a suggested length of zero reports an interruption of a healthy reader |
| DownloadStream.PartIsAnswered | src/dtos/FileDto.hpp:830-847 | the answer to the k-th part request, clamped, or its refusal |
| DownloadStream.AllPartsAnswered | src/dtos/FileDto.hpp:830-847 | every part is answered exactly when the last nominal end fits 64 bits |
| DownloadStream.PartsReassemble | src/controllers/DownloadResponder.cpp:82-242 | the streamed bodies of all parts, in order, are the blob |
| FixedWindow.RedisCounter.IncrWithExpire | src/services/RedisService.cpp:241-263 | the counter script as one atomic step |
| FixedWindow.RedisCounter.DoFilter | src/filters/AdminRateLimitFilter.cpp:64-92 | the counters after a request and its verdict, with the clock read again for Retry-After |
| FixedWindow.RetryReachesNextWindow | src/filters/RateLimitHelper.hpp:37-64 | by the second clock reading, Retry-After is positive, at most a window, and leads at least into the next window |
| FixedWindow.KeysAreDistinct | src/filters/AdminRateLimitFilter.cpp:67-68 | distinct users or windows never share a key |
| FixedWindow.CounterIsExact | src/services/RedisService.cpp:246-247 | a window's counter equals its requests exactly while every increment came within one window length of the first |
| FixedWindow.AdmittedIffEarly | src/filters/AdminRateLimitFilter.cpp:79-92 | until the key runs out a request passes exactly when fewer than limit came before it in its window; the first one after that passes |
| FixedWindow.WindowAdmitsLimit | src/filters/AdminRateLimitFilter.cpp:79-92 | the first limit requests of a user's window are admitted, exactly if the key has not run out or no more than limit were made; otherwise more than limit |
| FixedWindow.PromptIsAlive | src/services/RedisService.cpp:246-247 | increments that reach the counter inside their window never find its key gone |
| FixedWindow.IntervalAdmitsTwiceLimit | src/filters/RateLimitHelper.hpp:28-40 | at most twice the limit in any interval of one window length over two such windows |
| FixedWindow.PromptHistoriesAreLimited | src/filters/AdminRateLimitFilter.cpp:64-92 | when increments reach the counter inside their windows, limit per window and twice the limit per interval always hold |
| FixedWindow.ConfigurationIsEnforced | src/filters/AdminRateLimitFilter.cpp:64-92 | positive settings are the ones enforced, others mean 60 seconds and 30 requests |
| FixedWindow.TwiceLimitIsReached | src/filters/RateLimitHelper.hpp:28-40 | and that bound is attained |
| FixedWindow.LateIncrementIsAdmitted | src/services/RedisService.cpp:246-247 | an increment after its window's key has run out can exceed the limit |
| InsertSql.Model.constructor | src/models/Files.hpp:302-302 | nothing is dirty at first |
| InsertSql.Model.Set | src/models/Files.cpp:898-901 | a setter stores the value and raises its own flag only |
| InsertSql.Model.SqlForInserting | src/models/Files.hpp:315-483 | the statement is the joined column and value lists, with no trailing comma |
| InsertSql.Model.OutputArgs | src/models/Files.cpp:1111-1204 | the binder receives the values of the set columns in order |
| InsertSql.Model.UpdateColumns | src/models/Files.cpp:1206-1249 | the names of the set columns in order |
| InsertSql.PrinterAgreesWithBinder | src/models/Files.hpp:315-483 | columns and values pair up, the k-th placeholder stands at the column bound k-th, and every bound value has one |
| InsertSql.PlaceholdersAre | src/models/Files.hpp:388-483 | a placeholder is a dollar sign and its number, and distinct numbers have distinct ones |
| InsertSql.ListedExactly | src/models/Files.hpp:315-386 | a column is listed exactly when it is the key, has a default, or was set, in schema order |
| InsertSql.SelectionMeansDefaults | src/models/Files.hpp:315-483 | the row is asked for exactly when some value is left to the database |
| InsertSql.StatementReads | src/models/Files.hpp:315-483 | one statement in full |
| InsertSql.SettersTrackLatest | src/models/Files.cpp:880-1098 | after any setter calls the flags and values are those of the latest calls |
| InsertSql.UpdateListsDenoteSetters | src/models/Files.cpp:1206-1341 | update columns and arguments line up and denote exactly the non-key columns set, with their latest values |
| InsertSql.FilesInsertReturnsRow | src/models/Files.hpp:315-386 | every insert into files asks for the row back and lists the key and all defaulted columns |
| LogDate.NextDayIsOneLater | src/dtos/AdminDto.hpp:96-104 | the day number goes up by one from each calendar date to the next |
| LogDate.EpochIsZero | src/dtos/AdminDto.hpp:104-104 | the count starts at 1970-01-01 |
| LogDate.SysDaysIncrease | src/dtos/AdminDto.hpp:96-104 | later dates have larger day numbers, across leap years and centuries |
| LogDate.DateTextOrder | src/dtos/AdminDto.hpp:77-96 | dates are ordered as their ten-character texts |
| LogDate.DaysOrderedAsText | src/dtos/AdminDto.hpp:75-105 | on accepted strings day order is lexicographic order, and distinct strings are distinct days |
| LogDate.ReadDateRange | src/dtos/AdminDto.hpp:605-637 | a date range is accepted exactly when both texts are dates or absent and the end is not before the start |
| LogDate.AcceptedDatesAre | src/dtos/AdminDto.hpp:75-105 | a text is accepted exactly when it has the shape and names a day of a month of a year from 1 on |
| LogDate.MonthLengths | src/dtos/AdminDto.hpp:96-104 | the twelve months' lengths |
| RequestSlots.ProcessRuntimeState.constructor | src/services/ProcessRuntime.hpp:97-102 | a new process is neither initialised nor draining and has no request in flight |
| RequestSlots.ProcessRuntimeState.TryAcquireBusinessRequest | src/services/ProcessRuntime.cpp:49-61 | a slot is taken exactly when accepted, and given back if the drain begins in between |
| RequestSlots.ProcessRuntimeState.ReleaseBusinessRequest | src/services/ProcessRuntime.cpp:63-70 | one slot is given back, never below zero |
| RequestSlots.ProcessRuntimeState.BeginDrain | src/services/ProcessRuntime.cpp:43-47 | true for the first caller only |
| RequestSlots.AdvanceRequestKeeps | src/services/ProcessRuntime.cpp:49-70 | each atomic operation changes the counter by exactly what its request gains or loses |
| RequestSlots.RunsKeepInvariant | src/main.cpp:62-240 | the invariant holds in every interleaving |
| RequestSlots.SlotsAreExact | src/main.cpp:85-115 | in-flight is the number of held slots; each request acquires and releases at most once, by its marker |
| RequestSlots.OperationalIsPassedOn | src/main.cpp:85-88 | in every run a request that arrives as operational is never rejected, and no event of it changes the counter |
| RequestSlots.BusinessIsNeverOperational | src/main.cpp:85-97 | and any other request never takes that way |
| RequestSlots.FlagsFollowEvents | src/services/ProcessRuntime.cpp:39-47 | the process is initialised and draining exactly when that has happened |
| RequestSlots.ReleaseNeverFindsZero | src/services/ProcessRuntime.cpp:63-70 | a successful release always takes one slot back; the floor is never reached |
| RequestSlots.DrainAdmitsNobody | src/services/ProcessRuntime.cpp:49-61 | no event of a draining process admits a request |
| RequestSlots.QuitIsSafe | src/main.cpp:200-236 | a drained quit leaves no admitted request unanswered, now or later |
| RequestSlots.QuitIsJustified | src/main.cpp:188-236 | in every run the loop quits only after a signal, by a check begun after it that found counter, worker and scheduler drained, or at or after signal time plus timeout |
| RequestSlots.QuitsAsSoonAsAllowed | src/main.cpp:200-236 | in every run the loop has quit exactly when some check found everything drained or the deadline passed |
| RequestSlots.UndisturbedAcquire | src/main.cpp:85-97 | an undisturbed business request, from its arrival: admitted, counted and marked exactly when requests are accepted, else rejected |
| RequestSlots.UndisturbedRelease | src/main.cpp:105-115 | its response gives the slot back, and a second callback nothing |
| RequestId.GenerateRequestId | src/filters/RequestTraceFilter.cpp:33-52 | the loop fills the buffer with the text of the masked bytes |
| RequestId.TextRoundTrip | src/filters/RequestTraceFilter.cpp:39-50 | the hex digits decode back to the bytes |
| RequestId.GeneratedIdIsUuid4 | src/filters/RequestTraceFilter.cpp:33-52 | hyphens, hex digits, version 4, the RFC variant, and validity as a request id |
| RequestId.IdKeepsRandomBits | src/filters/RequestTraceFilter.cpp:36-37 | two draws give one id exactly when they agree outside version and variant |
| RequestId.ResolveRequestId | src/filters/RequestTraceFilter.cpp:61-69 | a valid incoming id is kept, anything else replaced |
| RequestId.ValidIdsAre | src/filters/RequestTraceFilter.cpp:23-59 | a valid id is 1 to 128 letters, digits, dots, underscores, colons and dashes |
| RequestId.ResolvingIsIdempotent | src/filters/RequestTraceFilter.cpp:54-69 | resolving a resolved id changes nothing |
| Text.DecimalDenotes | src/filters/AdminRateLimitFilter.cpp:68-68 | decimal text denotes its number |

## Left out

- JSON encoding of the manifest: lines are records, because json.dumps and json.loads are library code.
- Publication of the manifest file by hard link: what the generator finds at its paths is an input, and other I/O errors are left out.
- Hashing in chunks (hash_stream): digests are functions of the whole content.
- Kind of failure: where several checks of one loop turn fail, the model returns one error for a group of messages.
- CopyBlobs.Stores.RecordVerified: without the ETag and timestamp columns, which no command reads back.
- S3, PostgreSQL, SQLite and file-lock internals, credentials and arguments: only their effects on the stores are modelled; any transport error is a crash of its process at that call.
- Progress of repeated capped copies: every run starts at the first record, so the code promises none.
- newFileResponse: the bytes are sent by the HTTP framework.
- RedisService errors: the filters let such requests pass; the bounds are for successful increments.
- AdminRateLimitFilter path and attribute checks: requests that are not administrative are not counted.
- InsertSql.Model.SqlForInserting: the generated code unrolls its columns; the model loops over a schema, to cover every schema.
- AppendColumns and AppendValues: the two halves of the statement builder, one function in the source.
- Dates, JSON and validators of the generated models, and their sibling models.
- Metrics, logging and response headers of the request lifecycle; worker and scheduler are two flags read by the drain check.
- RequestSlots.ProcessRuntimeState.constructor: without the instance id, whose length the original checks, and without the worker's and upload tasks' configuration.
- DownloadStream.StreamResponse.Invoke: the blob reader never returns more than it was asked for, so the clamp against that never bites.
- Pacing.RateLimiter.constructor: rates are exact reals, the source uses doubles.
- Pacing.RateLimiter.Consume: times are exact reals, the source uses doubles.
- Pacing.BudgetHolds: in the source up to the rounding of doubles.
- Pacing.BurstIsOneCall: in the source up to the rounding of doubles.
- Upload, share, folder, trash and token services, and the HTTP controllers.
- The plan checkers under scripts: mostly comparisons with constants.
