# Piwik archive store, in Dafny

This project models the archive store of Piwik, the web analytics platform,
and the helpers around it, and proves properties of that model.

The archive store holds the pre-computed statistics ("archives") in
monthly shards: a numeric table and a blob table per month. Each row is keyed
by `(idarchive, name)`.

The model covers four areas.

- **The write path.**
  - `ArchiveWriter` allocates a new archive id as `MAX(idarchive) + 1` under a named lock.
  - It flags the archive `DONE_ERROR` while processing, and stores its records with INSERT IGNORE. Numeric values go to the numeric shard, everything else to the blob shard, and zeros are never stored.
  - Finally it replaces the in-progress flag by `DONE_OK` or `DONE_OK_TEMPORARY`.
  - This path goes through the MySQL and PostgreSQL archive DAOs.
- **The read path.**
  - `ArchiveSelector` picks the newest done archive and its visit counts.
  - `Piwik_Archive` finds or launches archives month by month. It reads their rows into buckets by site, period and name, caches blobs, and expands subtables.
  - It shapes the result by the number of sites and periods.
- **The supporting logic.**
  - The segment's cleaning and join planner (`Segment`).
  - Action-id resolution in `TableLogAction`.
  - The chunked loops, the retrying lock and the batched delete of `Db` and the generic DAO.
  - Keyset paging in `RawLogDao`.
- **Small stateful caches and validators.**
  - The caches: `Option`, the DAO factory's cache, and the site-settings `Storage`.
  - The validators of the SegmentEditor API.

Code that changes state in place is modelled as classes with `modifies` clauses:

- the archive tables (`ArchiveDb.ArchiveTables`);
- the archive writer;
- the `Piwik_Archive` object;
- the PostgreSQL DAO;
- the option cache, the factory, the settings storage and the lock-privilege cache.

Loops are methods proved against specification functions, with lemmas about those functions. Pure code is modelled as functions.

The database, the named locks, the clock and the other foreign calls are parameters:

- the database is either an oracle function from a query to its rows, or the `ArchiveTables` object;
- a named lock is a boolean saying whether it was granted.

Some source methods appear twice in the source with the same body, and each is modelled once:

- `Db`'s and the generic DAO's `segmented*` loops, in module `Db`;
- `ArchiveWriter::makeLockName` and the MySQL DAO's `getProcessingLockName`, as `MysqlArchive.ProcessingLockName`;
- the MySQL and PostgreSQL `SiteSetting::upsert`, as one map update.

Behaviour kept as written:

- In `processIdsToInsert` the last matching row wins.
- A segment string `"0"` counts as empty.
- `deletePreviousArchiveStatus` uses `LIKE 'locked_%'`, so `_` matches any character.
- `insertBulkRecords` skips every `empty()` value, a wider set than `isRecordZero`.
- `Piwik_Archive::get` resets its archive ids before looking them up.
- `checkBlobCache` fills the result partially before it reports a miss.

## Model

| member | source | states |
|---|---|---|
| ArchiveDb.NumericTableIsNotBlob | core/Db/DAO/Mysql/Archive.php:469-473 | a numeric shard name of a month never counts as a blob table |
| ArchiveDb.BlobTableIsBlob | core/Db/DAO/Mysql/Archive.php:469-473 | a blob shard name always counts as a blob table |
| ArchiveDb.InsertIgnoreAllContents | core/Db/DAO/Mysql/Archive.php:403-407 | a batch insert that ignores duplicates keeps every existing row, and adds a new key with the row of its first record in the batch |
| ArchiveDb.InsertIgnoreAllKeys | core/Db/DAO/Mysql/Archive.php:403-407 | after the batch, a key is present exactly when it was before or some record of the batch has it |
| ArchiveDb.MaxIdarchiveExists | core/Db/DAO/Mysql/Archive.php:187 | `IFNULL(MAX(idarchive), 0)` is defined for every shard |
| ArchiveDb.MaxIdarchiveUnique | core/Db/DAO/Mysql/Archive.php:187 | helper for `SELECT MAX(idarchive)`: the maximum id of a shard is unique, so the value the query returns is well defined |
| ArchiveDb.ArchiveTables.CreateTableIfNotExists | core/Db/DAO/Mysql/Archive.php:358-362 | creating a shard adds an empty table only when it is missing; an existing one keeps its rows |
| ArchiveDb.ArchiveTables.SelectMaxIdarchive | core/Db/DAO/Mysql/Archive.php:187 | the largest idarchive of the shard, or 0 when it is empty |
| MysqlArchive.LoadNextIdarchive | core/Db/DAO/Mysql/Archive.php:176-199 | without the allocation lock it fails and writes nothing; with it, the sentinel row gets an id above every id of the table (1 for an empty table) and nothing else changes |
| MysqlArchive.GetIdByName | core/Db/DAO/Mysql/Archive.php:201-205 | the id found carries a row with that name; none is found only when no row has the name |
| MysqlArchive.DeletePreviousArchiveStatus | core/Db/DAO/Mysql/Archive.php:47-58 | without the lock it fails and deletes nothing; with it, exactly the status rows of that archive go |
| MysqlArchive.WithoutStatusRowsContents | core/Db/DAO/Mysql/Archive.php:425-431 | a row is kept exactly when it is not of the archive or is named neither `name1` nor `name2%`; rows of other archives all stay |
| MysqlArchive.LockedPatternMatches | core/Db/DAO/Mysql/Archive.php:429 | `LIKE 'locked_%'` matches every name of at least seven characters starting with `locked`, since `_` is a wildcard |
| MysqlArchive.DateConditions | core/Db/DAO/Mysql/Archive.php:63-67 | one pair of bound values per date, both the date |
| MysqlArchive.ConditionsCoverDates | core/Db/DAO/Mysql/Archive.php:63-71 | the OR of the per-date conditions selects exactly the rows whose date range covers one of the dates |
| MysqlArchive.DeleteByDates | core/Db/DAO/Mysql/Archive.php:60-73 | an empty date or site list makes the query fail with no change; otherwise exactly the rows of the listed sites covering a date are deleted |
| MysqlArchive.InsertRecord | core/Db/DAO/Mysql/Archive.php:409-415 | INSERT IGNORE into the shard, nothing else changes |
| MysqlArchive.InsertIgnoreKeepsFirst | core/Db/DAO/Mysql/Archive.php:409-415 | a second insert with the same idarchive and name leaves the first value in place |
| MysqlArchive.InsertIgnoreBatch | core/Db/DAO/Mysql/Archive.php:403-407 | every record of the batch goes in with INSERT IGNORE, in order |
| MysqlArchive.AddIdRowsLookup | core/Db/DAO/Mysql/Archive.php:272-279 | the ids under a name and a `date1,date2` key are those there before, then the ids of the matching rows in row order |
| MysqlArchive.AddIdRowsNames | core/Db/DAO/Mysql/Archive.php:272-279 | a name is a key of the result exactly when it was before or some row has it |
| MysqlArchive.AddIdRowsAppend | core/Db/DAO/Mysql/Archive.php:272-279 | grouping rows in two parts is grouping them in one go |
| MysqlArchive.StartDates | core/Db/DAO/Mysql/Archive.php:261-264 | the ISO start date of every period, in order |
| MysqlArchive.GroupIdRows | core/Db/DAO/Mysql/Archive.php:272-279 | the row loop groups exactly as the grouping function does |
| MysqlArchive.GetArchiveIds | core/Db/DAO/Mysql/Archive.php:240-283 | the ids of every month's own query, grouped by name and date range (the corrected query; see Findings) |
| MysqlArchive.ArchiveIdsLookup | core/Db/DAO/Mysql/Archive.php:240-283 | the ids under a name and date range are those of the matching rows of all months' queries, in order |
| MysqlArchive.AsWrittenTwoMonths | core/Db/DAO/Mysql/Archive.php:269 | as written, two months of the same period type run the first month's query twice and never read the second month's rows, which the intended lookup reads |
| MysqlArchive.TwoMonthsAsWritten | core/Db/DAO/Mysql/Archive.php:269 | as written, an archive of January is listed twice and February's archive is lost, where the corrected grouping gives one id for each month |
| MysqlArchive.SubtableNameSelected | core/Db/DAO/Mysql/Archive.php:299-308 | every subtable name `base_<id>` passes the "all subtables" filter |
| MysqlArchive.SubtableNameShape | core/Db/DAO/Mysql/Archive.php:299-308 | a name the filter lets through other than the base starts with the base and has a digit at position len(base)+2 |
| MysqlArchive.ArchiveDataFails | core/Db/DAO/Mysql/Archive.php:321-331 | reading archive data fails exactly when some period key has an empty id list or does not start with a date |
| MysqlArchive.ArchiveDataRows | core/Db/DAO/Mysql/Archive.php:319-337 | otherwise there is one row set per period key, each the selected rows of the ids in the shard of the key's month and data type |
| MysqlArchive.ArchiveDataStopsAtError | core/Db/DAO/Mysql/Archive.php:321-324 | the first failing period key ends the loop; what follows does not matter |
| MysqlArchive.GetArchiveData | core/Db/DAO/Mysql/Archive.php:295-340 | the loop returns exactly the result the period keys determine |
| MysqlArchive.PartitionTableSqlOfTemplate | core/Db/DAO/Mysql/Archive.php:433-442 | from a template's CREATE TABLE statement the generated shard is created with IF NOT EXISTS, so creating it twice is harmless |
| MysqlArchive.LockNameFields | core/Db/DAO/Mysql/Archive.php:452-467 | the first `/`-separated fields are the database and prefix, the site, then the segment hash for a non-empty segment or else the period id |
| MysqlArchive.LockNamesDistinctPerSite | core/DataAccess/ArchiveWriter.php:196-209 | two sites never share a processing lock name |
| MysqlArchive.ConfirmBlobTable | core/Db/DAO/Mysql/Archive.php:475-480 | passes exactly for a table whose name contains `archive_blob` |
| MysqlArchive.ConfirmBlobTableOfShards | core/Db/DAO/Mysql/Archive.php:469-480 | a blob shard passes and a numeric shard fails |
| ArchiveWriting.TableNameToInsert | core/DataAccess/ArchiveWriter.php:313-324 | the numeric or the blob shard of the month of the period's start, the blob one exactly for a non-numeric value |
| ArchiveWriting.RecordTableKind | core/DataAccess/ArchiveWriter.php:313-324 | a numeric value goes to the numeric shard and any other value to a blob table |
| ArchiveWriting.NonEmptyRecords | core/DataAccess/ArchiveWriter.php:250-260 | the records kept are exactly those whose value is not empty |
| ArchiveWriting.ZeroIsEmpty | core/DataAccess/ArchiveWriter.php:252 | every value `isRecordZero` drops is also empty, but `''` and null are empty without being zero, so the bulk path drops more |
| ArchiveWriting.BlobEntriesShape | core/DataAccess/ArchiveWriter.php:86-100 | entry 0 keeps the report's name, entry `id` becomes `name_<id>`, and every value is compressed |
| ArchiveWriting.SubtableReadBack | core/DataAccess/ArchiveWriter.php:92-96 | a subtable record written for a report is found again by the "all subtables" filter of that report |
| ArchiveWriting.ArchiveWriter.constructor | core/DataAccess/ArchiveWriter.php:66-78 | the writer starts without an archive id |
| ArchiveWriting.ArchiveWriter.GetIdArchive | core/DataAccess/ArchiveWriter.php:109-115 | an error until an id has been allocated, then that id |
| ArchiveWriting.ArchiveWriter.InsertRecord | core/DataAccess/ArchiveWriter.php:276-290 | a zero value returns false and writes nothing; without an id it fails; otherwise the record goes with INSERT IGNORE to the table its value selects |
| ArchiveWriting.ZeroNotWritten | core/DataAccess/ArchiveWriter.php:278-280 | writing a zero value leaves every table as it was |
| ArchiveWriting.InsertRecordStores | core/DataAccess/ArchiveWriter.php:282-289 | a non-zero record is present in its table afterwards, with its value when it is new; every other table and row is untouched |
| ArchiveWriting.ArchiveWriter.BulkValues | core/DataAccess/ArchiveWriter.php:247-260 | the bound rows of the non-empty records, and the last non-empty value seen |
| ArchiveWriting.ArchiveWriter.InsertBulkRecords | core/DataAccess/ArchiveWriter.php:235-266 | a single record is written as by `insertRecord`; otherwise the non-empty records all go to the table of the last one, and without an id it fails unless the batch is one zero record, because the id is read before empty records are dropped |
| ArchiveWriting.BulkStoresNonEmpty | core/DataAccess/ArchiveWriter.php:250-264 | every non-empty record of a bulk write is present afterwards, and a name whose records are all empty is not added |
| ArchiveWriting.ArchiveWriter.InsertBlobRecord | core/DataAccess/ArchiveWriter.php:84-107 | one value is compressed and written as one record; an array is written as a bulk of its entries |
| ArchiveWriting.ArchiveWriter.AllocateNewArchiveId | core/DataAccess/ArchiveWriter.php:168-183 | without the table lock it fails; with it the sentinel row is inserted and the writer takes its id, one above the table's largest |
| ArchiveWriting.ArchiveWriter.InitNewArchive | core/DataAccess/ArchiveWriter.php:117-122 | the processing lock is taken when granted and a refusal does not stop it; a new id is allocated and its done flag written with status DONE_ERROR |
| ArchiveWriting.ArchiveWriter.ClaimNewArchive | core/DataAccess/ArchiveWriter.php:120-121 | without the allocation lock nothing is written; otherwise the next id of the numeric shard is claimed under `locked_<uniqId>` and its done flag written with status DONE_ERROR, locks untouched |
| ArchiveWriting.InitializedShard | core/DataAccess/ArchiveWriter.php:117-122 | after initialisation the new id exceeds every earlier id, the sentinel row is present and the done flag reads DONE_ERROR |
| ArchiveWriting.ArchiveWriter.FinalizeArchive | core/DataAccess/ArchiveWriter.php:124-129 | succeeds exactly with an id and the table lock; the archive's old status rows go, the done flag is written as DONE_OK (DONE_OK_TEMPORARY for a temporary archive) and the processing lock is released |
| ArchiveWriting.FinalizedShard | core/DataAccess/ArchiveWriter.php:211-233 | after finalising, the done flag holds the final status, no `locked` row of the archive is left and other archives' rows are untouched |
| PgsqlArchive.ClassRuns | core/Db/DAO/Pgsql/Archive.php:421-426 | every match of the class-name pattern starts with its lead and, trimmed, holds no quote |
| PgsqlArchive.NamespaceToUnderscoreWithoutRun | core/Db/DAO/Pgsql/Archive.php:420-432 | text without a `Piwik\` run is stored unchanged |
| PgsqlArchive.UnderscoreToNamespaceWithoutRun | core/Db/DAO/Pgsql/Archive.php:437-451 | text without a `Piwik_` run is read back unchanged |
| PgsqlArchive.NamespaceStored | core/Db/DAO/Pgsql/Archive.php:420-432 | a single `Piwik\A\B"` run is stored as `Piwik_A_B"`, the rest of the text untouched |
| PgsqlArchive.NamespaceRead | core/Db/DAO/Pgsql/Archive.php:437-451 | the intended read-back (see Findings): a single `Piwik_A_B"` run is read back as `Piwik\A\B"`, the rest of the text untouched |
| PgsqlArchive.NamespaceRoundTrip | core/Db/DAO/Pgsql/Archive.php:420-451 | with the intended read-back (see Findings), reading back what was stored gives the original class name when its parts hold no underscore |
| PgsqlArchive.NamespaceReadAsWritten | core/Db/DAO/Pgsql/Archive.php:437-451 | as written, the by-value loop searches each run with its closing quote and replaces it by the converted run without one: `Piwik_A_B"` reads back as `Piwik\A\B`, the rest of the text untouched |
| PgsqlArchive.NamespaceRoundTripAsWritten | core/Db/DAO/Pgsql/Archive.php:420-451 | as written, storing then reading a class name gives the text one character short, without the closing quote, where the intended read-back restores it exactly |
| PgsqlArchive.SerializedRowAsWritten | core/Db/DAO/Pgsql/Archive.php:437-451 | as written, the serialized `O:19:"Piwik\DataTable\Row":0:{}` comes back as `O:19:"Piwik\DataTable\Row:0:{}` |
| PgsqlArchive.ChunksOfFlatten | core/Db/DAO/Pgsql/Archive.php:396-413 | the statements of a batch carry every row exactly once, in order |
| PgsqlArchive.ChunksOfSizes | core/Db/DAO/Pgsql/Archive.php:396-413 | every statement carries between 1 and 100 rows and all but the last carry 100, so no empty statement is sent |
| PgsqlArchive.ChunksOfAppend | core/Db/DAO/Pgsql/Archive.php:401-407 | after a whole number of full statements, the rest of the rows are cut as if they came alone |
| PgsqlArchive.RunStatementsStopped | core/Db/DAO/Pgsql/Archive.php:403-412 | once a statement has failed, no later statement changes the table |
| PgsqlArchive.InsertBatchOfFreshKeys | core/Db/DAO/Pgsql/Archive.php:387-414 | rows with distinct keys new to the table are all stored, as an INSERT IGNORE would store them |
| PgsqlArchive.SendBatches | core/Db/DAO/Pgsql/Archive.php:396-413 | the loop sends exactly the statements of the batch, a statement at every 100 rows and one for the remainder |
| PgsqlArchive.PgsqlArchiveDao.InsertBatch | core/Db/DAO/Pgsql/Archive.php:387-414 | the table afterwards is the result of running the batch's statements in order, and the outcome is theirs |
| PgsqlArchive.PgsqlArchiveDao.InsertIgnoreBatch | core/Db/DAO/Pgsql/Archive.php:191-229 | blob values are stored converted; with duplicates ignored only rows whose key is new go in, otherwise all rows go through the batch |
| PgsqlArchive.NewKeyRows | core/Db/DAO/Pgsql/Archive.php:217-220 | the rows copied from the temporary table are exactly those whose key is not in the table |
| PgsqlArchive.InsertNewKeysIsInsertIgnore | core/Db/DAO/Pgsql/Archive.php:211-225 | for a batch without repeated keys, ignoring duplicates gives the same table as MySQL's INSERT IGNORE |
| PgsqlArchive.BlobRecords | core/Db/DAO/Pgsql/Archive.php:203-208 | every value of a blob batch is converted with `bin2db` and its class names rewritten, in order |
| PgsqlArchive.PgsqlArchiveDao.InsertRecord | core/Db/DAO/Pgsql/Archive.php:176-189 | one row with insert-ignore semantics; a blob table's set value is stored converted |
| PgsqlArchive.LoadNextIdarchive | core/Db/DAO/Pgsql/Archive.php:54-76 | without the lock it fails and writes nothing; with it the sentinel row gets an id above every id of the table |
| PgsqlArchive.CreatePartitionTable | core/Db/DAO/Pgsql/Archive.php:40-52 | the shard exists afterwards with its rows kept; the statements are the CREATE TABLE IF NOT EXISTS, then each index statement of that table kind with `#table#` replaced |
| PgsqlArchive.IndexStatementOfTemplate | core/Db/DAO/Pgsql/Archive.php:48-51 | an index template mentioning `#table#` once names the generated table there |
| PgsqlArchive.BinaryShard | core/Db/DAO/Pgsql/Archive.php:357-375 | every row of a blob table keeps its key, and a set value is converted back with `db2bin` and class names restored by the intended read-back (see Findings) |
| PgsqlArchive.TableOfRangeKind | core/Db/DAO/Pgsql/Archive.php:158-164 | the table of a period key counts as a blob table exactly when blob data is asked for |
| PgsqlArchive.PrepareForBinary | core/Db/DAO/Pgsql/Archive.php:344-355 | the DAO remembers whether the table last prepared is a blob table |
| PgsqlArchive.BinaryOutput | core/Db/DAO/Pgsql/Archive.php:357-375 | rows of a blob table are converted back with `db2bin` and class names restored by the intended read-back (see Findings); numeric rows pass unchanged |
| PgsqlArchive.GetArchiveData | core/Db/DAO/Pgsql/Archive.php:127-174 | the MySQL result, failures included, with the rows of blob tables converted back by the intended read-back (see Findings) |
| PgsqlArchive.BinaryOutputs | core/Db/DAO/Pgsql/Archive.php:157-171 | each period's rows come out in order, converted back from binary, with the intended read-back of class names (see Findings), exactly when the archive table is a blob table |
| ArchiveSelection.MostRecent | core/DataAccess/ArchiveSelector.php:118-133 | no archive exactly when no row carries one of the done flags; otherwise the idarchive of the first such row in result order |
| ArchiveSelection.GetMostRecentIdArchiveFromResults | core/DataAccess/ArchiveSelector.php:118-133 | the loop with its early exit finds the first row with a done flag |
| ArchiveSelection.MostRecentIsNewest | core/DataAccess/ArchiveSelector.php:118-133 | with rows ordered by idarchive descending, the archive found is at least as new as every archive with a done flag |
| ArchiveSelection.FirstNonZero | core/DataAccess/ArchiveSelector.php:99-113 | the int value of the first row of a chosen archive with the metric's name that is non-zero, or none when all such values are zero |
| ArchiveSelection.MetricFirstNonZero | core/DataAccess/ArchiveSelector.php:95-113 | starting from an empty metric, the first non-zero value wins; when all chosen rows are zero the metric is 0, and without chosen rows it keeps its start |
| ArchiveSelection.FirstNonZeroPrefix | core/DataAccess/ArchiveSelector.php:102-111 | once a non-zero value has been found, later rows do not change the metric |
| ArchiveSelection.FirstNonZeroSkip | core/DataAccess/ArchiveSelector.php:102-111 | rows with no non-zero value for the metric leave the choice to the rows after them |
| ArchiveSelection.MetricUnchosen | core/DataAccess/ArchiveSelector.php:100 | when neither archive was found, no row is considered and the metrics keep their start |
| ArchiveSelection.GetVisitsMetricsFromResults | core/DataAccess/ArchiveSelector.php:90-116 | visits and converted visits start as false, or 0 once a VisitsSummary archive was found, and are then filled from the rows of the two chosen archives |
| ArchiveSelection.GetArchiveIdAndVisits | core/DataAccess/ArchiveSelector.php:49-88 | VisitsSummary is always queried with the requested plugin on the numeric table of the period's first month; the two archives are picked by their own done flags |
| ArchiveSelection.IdAndVisitsNotFound | core/DataAccess/ArchiveSelector.php:73-87 | false exactly for no rows, or when neither the plugin's nor the VisitsSummary archive was found; a VisitsSummary archive always brings a visits count |
| ArchiveSelection.IntCasts | core/DataAccess/ArchiveSelector.php:156-158 | every site id is cast to int, in place |
| ArchiveSelection.GetArchiveIds | core/DataAccess/ArchiveSelector.php:150-172 | an empty site list is an error; otherwise the grouping of ids by the corrected DAO lookup `MysqlArchive.GetArchiveIds` (see Findings), for the int site ids, the periods grouped by numeric table of their first day, and the done-flag condition |
| ArchiveSelection.Quoted | core/DataAccess/ArchiveSelector.php:217 | every done flag is put in single quotes |
| ArchiveSelection.QuotedList | core/DataAccess/ArchiveSelector.php:217 | joining with `','` between quotes is the comma-separated list of the quoted flags |
| ArchiveSelection.AppendIdSubtableSelected | core/DataAccess/ArchiveSelector.php:194-197 | the name `name_<id>` of a subtable is selected when all subtables of `name` are asked for |
| ArchiveQuery.AsList | core/Archive.php:232-237 | a single site or period becomes a one-element list; a list is kept |
| ArchiveQuery.LastWithRange | core/Archive.php:249-253 | the period kept for a range string is the last one given with it, and none exactly when no period has it |
| ArchiveQuery.KeyByRangeFind | core/Archive.php:249-253 | keying the periods by range string leaves each range string once, holding the last period given with it |
| ArchiveReading.KeyPeriods | core/Archive.php:249-253 | the constructor's loop builds exactly the keyed period list |
| ArchiveReading.KeyedByOwnRange | core/Archive.php:249-253 | every period sits under its own range string, and a non-empty list stays non-empty |
| ArchiveReading.NewArchive | core/Archive.php:229-258 | the construction fails exactly when the list of sites or of periods is empty; otherwise the archive holds those sites and the keyed periods |
| ArchiveReading.Archive.constructor | core/Archive.php:247-257 | the fields start as the given sites, the keyed periods and flags, with no cached ids and an empty blob cache |
| ArchiveReading.CheckNamesLoop | core/Archive.php:540-546 | true exactly when every name of the site and period is cached; what is copied comes from the cache and what was copied before stays |
| ArchiveReading.CheckPeriodsLoop | core/Archive.php:538-547 | true exactly when every name of every period of the site is cached, and then all of them are copied |
| ArchiveReading.CheckSitesLoop | core/Archive.php:537-549 | true exactly when every requested blob of every site and period is cached, and then every one is copied |
| ArchiveReading.Archive.CheckBlobCache | core/Archive.php:535-550 | true exactly when every requested blob is cached, every copied value is the cached blob, and on success all are copied |
| ArchiveReading.Archive.GetPeriodsByTableMonth | core/Archive.php:871-879 | the periods grouped by the year and month of their first day, in order |
| ArchiveReading.PeriodJobsStep | core/Archive.php:715-743 | a period ending more than two days before the site's creation, or starting more than two days after today, adds no job; any other adds one job per requested report |
| ArchiveReading.LaunchedExactly | core/Archive.php:748-752 | archiving is launched for exactly the jobs for which no archive could be loaded |
| ArchiveReading.RunJob | core/Archive.php:748-759 | one job loads its archive or launches the archiving, appends the id to its month and caches the visits flag and id |
| ArchiveReading.LaunchReports | core/Archive.php:743-760 | the report loop runs exactly the jobs of one site and period |
| ArchiveReading.LaunchPeriods | core/Archive.php:715-761 | the period loop runs the jobs of every period that is not skipped |
| ArchiveReading.LaunchSites | core/Archive.php:712-762 | the site loop runs the jobs of every site of the month |
| ArchiveReading.LaunchMonths | core/Archive.php:711-763 | the month loop runs the jobs of every month, starting from the cache given |
| ArchiveReading.LaunchFoldAfter | core/Archive.php:711-765 | running the jobs from an empty result gives the ids by month, the launched jobs and the cache after them |
| ArchiveReading.Archive.GetArchiveIdsAfterLaunching | core/Archive.php:705-766 | the ids by month and the launched jobs are those of the job list, the id cache is extended by every job, and the blob cache is untouched |
| ArchiveReading.LatestOfMonth | core/Archive.php:826-833 | the ids of one month are the rows' ids, in order, each cached under "all" as having visits |
| ArchiveReading.LatestMonths | core/Archive.php:799-838 | months whose table is missing or whose query finds nothing are left out; the others give their ids |
| ArchiveReading.Archive.GetArchiveIdsWithoutLaunching | core/Archive.php:785-841 | the result is the latest done archive ids by month and the id cache is extended with every row read |
| ArchiveReading.Archive.GetArchiveIds | core/Archive.php:690-694 | without cached ids: the launched archives' ids, or the latest done ones when archiving is disabled |
| ArchiveReading.ReadMonth | core/Archive.php:618-637 | the row loop of one month adds each row's value under its site, period and name, starting the bucket from zeros |
| ArchiveReading.ReadMonths | core/Archive.php:614-638 | reading every month in turn is reading all fetched rows in one go |
| ArchiveReading.Archive.Get | core/Archive.php:556-641 | a fully cached blob request is answered from the cache alone; otherwise no archive ids give an empty result, and some give the rows of every month read on top of what the cache check copied; the defaults and the query use every requested name, as evidently intended (see Findings) |
| ArchiveReading.DefaultsLoopAsWritten | core/Archive.php:567-591 | as written, once the by-reference loop has appended a subtable id, the defaults loop leaves the last slot holding the name before it, and changes nothing else |
| ArchiveReading.SubtableNameLostAsWritten | core/Archive.php:567-600 | as written, the last of two or more requested subtable names, when it differs from the others, is missing from the names the defaults and the `IN (...)` list are built from |
| ArchiveReading.TwoSubtableNamesAsWritten | core/Archive.php:567-591 | as written, names `a` and `b` with a subtable id go on as `a_<id>` twice |
| ArchiveQuery.RequestedReport | core/Archive.php:912-933 | core metrics and max_actions map to the core metrics report, `_returning` names outside goals to visit frequency, `Goal_` names to goals, and any other name to itself |
| ArchiveQuery.ReportNameMarkers | core/Archive.php:921-928 | a name with a single underscore, not followed by `r` and not closing `Goal_`, carries neither marker |
| ArchiveQuery.RequestedReportIdempotent | core/Archive.php:912-933 | classifying a report name again gives the same report |
| ArchiveQuery.Unique | core/Archive.php:906 | `array_unique` keeps exactly the values of the list, each once |
| ArchiveQuery.GetRequestedReports | core/Archive.php:900-907 | the reports are distinct and are exactly the reports of the requested names, first occurrences in order |
| ArchiveQuery.MultipleSitesOfIds | core/Archive.php:1146-1149 | a comma-joined list of ids names several sites exactly when it has more than one id |
| ArchiveQuery.NamesFor | core/Archive.php:566-571 | with a subtable id each name gets `_<id>` appended; otherwise the names are kept |
| ArchiveQuery.FetchSubTables | core/Archive.php:503-530 | each row keeps its columns and subtable id; a row without a subtable id, or without a cached blob, is unchanged; without metadata the stored id is unchanged |
| ArchiveQuery.SubtableAttached | core/Archive.php:511-527 | a row with a cached blob gets that blob, decoded and expanded, as its subtable, and records its id in the metadata when asked |
| ArchiveQuery.RekeySiteUntouched | core/Archive.php:960-978 | re-keying one site leaves other sites' buckets, and keys no period names, as they were |
| ArchiveQuery.RekeySiteDropsRange | core/Archive.php:970-976 | no bucket of the site is left under a range string |
| ArchiveQuery.RekeySiteMovesBucket | core/Archive.php:970-976 | each period's bucket ends under its pretty string: the bucket that was under its range string, or an empty one |
| ArchiveReading.Archive.RekeyOneSite | core/Archive.php:960-978 | the site loop body re-keys exactly as the re-keying function does |
| ArchiveQuery.ZeroBucketFind | core/Archive.php:1014-1020 | the zero bucket holds 0 under each requested name and nothing else |
| ArchiveQuery.Shape | core/Archive.php:996-1062 | one site and one period give a single bucket, unwrapped to its bare first value exactly when no DataTable is wanted and one name was asked for; one site gives buckets by date, one period gives buckets by site, and otherwise both, with the force flags overriding the counts |
| ArchiveQuery.NumericOneNameUnwrapped | core/Archive.php:1011-1058 | `getNumeric` of one name for one site and one period gives the bare value: 0 when nothing was read, and the name's own value when the bucket holds it first |
| ArchiveReading.Archive.CreateSimpleGetResult | core/Archive.php:953-1062 | every site and period gets a bucket under its pretty string and the result has the shape the counts, the flags and the number of names select, a single value unwrapped when no DataTable is wanted |
| ArchiveReading.ReadRowsAppend | core/Archive.php:618-637 | reading rows in two parts is reading them in one go, so the month loop may read each month's rows in turn |
| ArchiveReading.LaunchFoldAppend | core/Archive.php:711-763 | running two lists of jobs one after the other is running their concatenation, so each loop level may run its part in turn |
| Periods.TableMonthOfRangeString | core/Archive.php:891-894 | the month taken from a period's range string is the `Y_m` of its first day |
| Segments.Truncate | core/Segment.php:100-105 | the segment string is cut to its first 8192 bytes, and a shorter one is kept whole |
| Segments.FirstNamed | core/Segment.php:147-150 | the first available segment with the requested name, or none when no segment has it |
| Segments.GetCleanedExpression | core/Segment.php:136-188 | the loop with its `break` computes exactly the cleaned operand or error the segment metadata determines |
| Segments.UnknownSegmentRejected | core/Segment.php:183-185 | a name no available segment has is rejected as not supported |
| Segments.PermissionRequired | core/Segment.php:154-159 | a segment whose permission is set and is not 1 is refused for lack of permission |
| Segments.CleanedOperand | core/Segment.php:147-187 | a cleaned operand names the first matching segment's SQL column with permission granted; the null/empty match types keep the raw value, and a filter returning a sub-SQL turns the match into "actions contains" |
| Segments.CleanAllStops | core/Segment.php:117-122 | the first condition that cannot be cleaned fails the whole segment |
| Segments.CleanAllEach | core/Segment.php:117-123 | cleaning succeeds exactly when every condition cleans, and then each condition is replaced by its cleaned operand, in order |
| Segments.InitializeSegment | core/Segment.php:100-124 | the string is truncated, parsed, and every operand cleaned; a parse or clean failure is the result |
| Segments.InitializedShape | core/Segment.php:103-106 | a segment that initialises keeps the truncated string and the site ids |
| Segments.NewSegment | core/Segment.php:77-93 | with segmentation disabled a non-empty trimmed condition is refused; otherwise the url-decoded condition is tried first and the raw one when it fails |
| Segments.Hash | core/Segment.php:206-214 | `''` exactly for an empty segment string (`''` or `'0'`), otherwise the md5 of the url-decoded string |
| Segments.SearchIndex | core/Segment.php:287-296 | the first index holding the table, or none when it is absent |
| Segments.PutBeforePermutes | core/Segment.php:287-300 | the reordering is a permutation that keeps the first table and every table it does not swap |
| Segments.PutBeforeOrders | core/Segment.php:287-300 | when both tables are found after the first position, the first one named ends up before the second |
| Segments.OrderedKeeps | core/Segment.php:284-300 | the table order used is a permutation of the tables with the first table and the conversion items in place |
| Segments.OrderTables | core/Segment.php:284-300 | the two swaps give exactly that order |
| Segments.GenerateJoins | core/Segment.php:277-374 | the loop builds exactly the join SQL and sub-select flag of the ordered tables, or their first error |
| Segments.JoinTable | core/Segment.php:302-367 | one pass of the loop: an explicit join appended as given, an unknown log table refused, the first table added bare, a later one joined by the first applicable rule or refused, and the table joined becomes available |
| Segments.JoinAllStops | core/Segment.php:302-373 | the first table that cannot be joined fails the whole plan |
| Segments.UnknownTableRejected | core/Segment.php:302-373 | a table outside the four known log tables is rejected |
| Segments.ConversionItemOnlyFirst | core/Segment.php:302-373 | conversion items at any position but the first cannot be joined |
| Segments.FirstTableNotJoined | core/Segment.php:302-373 | the first table appears as itself, with no join condition |
| Segments.JoinAllExtends | core/Segment.php:302-373 | each table only appends to the SQL built so far |
| Segments.JoinStepFlags | core/Segment.php:302-373 | each table marks itself available, and the sub-select flag is set when actions follow visits, or conversions follow visits without actions |
| Segments.JoinAllFlags | core/Segment.php:302-373 | after all tables a table is available exactly when it is listed, and the sub-select flag is set exactly when some position calls for it |
| Segments.SubSelectExactly | core/Segment.php:277-374 | the flag `generateJoins` returns is set exactly when some position of the ordered tables calls for a sub-select |
| Segments.VisitConversionAction | core/Segment.php:284-373 | visits, conversions and actions are reordered to visits, actions, conversions, joined on the visit id and on `idlink_va`, with a sub-select |
| Segments.BuildSelectQuery | core/Segment.php:385-412 | the query starts with SELECT and FROM, and is only those when no WHERE, GROUP BY or ORDER BY is given |
| Segments.SelectQueryEnds | core/Segment.php:385-412 | the query ends with the last clause given |
| Segments.SelectClauseOrder | core/Segment.php:385-412 | with all three given, WHERE, GROUP BY and ORDER BY follow each other in that order |
| Segments.BuildWrappedSelectQuery | core/Segment.php:425-450 | fails without needed fields; otherwise selects from the distinct needed fields of the inner query |
| Segments.CombineWhere | core/Segment.php:242-251 | an empty segment WHERE keeps the caller's; an empty caller WHERE takes the segment's; otherwise `( where ) AND (segmentWhere)` |
| Segments.GetSelectQuery | core/Segment.php:228-269 | a join error is the result; otherwise the plain or wrapped query over the joins with the combined WHERE, and the segment's binds after the caller's |
| TableLogAction.Pad | core/Tracker/TableLogAction.php:45-49 | a (name, type) entry gets a null URL prefix; a full entry is kept |
| TableLogAction.PadEntries | core/Tracker/TableLogAction.php:45-49 | the loop pads every entry, keeping the field names and order |
| TableLogAction.LastMatch | core/Tracker/TableLogAction.php:90-99 | the id of the last row with the same name and type, since the inner `continue` lets later rows overwrite; none exactly when no row matches |
| TableLogAction.ProcessIdsToInsert | core/Tracker/TableLogAction.php:77-105 | the loop computes exactly the id map and insertion queue of the entries |
| TableLogAction.ProcessedFind | core/Tracker/TableLogAction.php:77-105 | key by key: false for an empty name, the last matching id for a found one; a name is queued exactly when it has a non-empty name and no matching row |
| TableLogAction.ProcessedQueue | core/Tracker/TableLogAction.php:100-102 | every queued name is a field of the request and is queued once |
| TableLogAction.InsertNewIdsAction | core/Tracker/TableLogAction.php:61-75 | the loop adds exactly one action per queued name, with consecutive new ids |
| TableLogAction.InsertedRows | core/Tracker/TableLogAction.php:67-71 | the j-th added action carries the name, type and URL prefix of the j-th queued field and id `nextId + j` |
| TableLogAction.InsertedFindAt | core/Tracker/TableLogAction.php:70 | each queued field maps to the id of its added action |
| TableLogAction.InsertedFindAbsent | core/Tracker/TableLogAction.php:66-74 | a field that was not queued gets no inserted id |
| TableLogAction.PadAllKeys | core/Tracker/TableLogAction.php:45-49 | padding keeps the field names unique and the same, and pads the entry under each name |
| TableLogAction.PadResolves | core/Tracker/TableLogAction.php:83-99 | the URL prefix added by padding does not change how an entry is matched |
| TableLogAction.PaddedResolution | core/Tracker/TableLogAction.php:45-52 | matching the padded entries gives the same ids and queue as the entries themselves |
| TableLogAction.LoadIdsAction | core/Tracker/TableLogAction.php:40-59 | a field not requested gets nothing; a found field keeps the queried id (false for an empty name); a queued field gets the id of the action added for it, and every added action is one for a queued field |
| TableLogAction.LoadIdsResult | core/Tracker/TableLogAction.php:52-58 | the union of the queried ids with the inserted ones, queried first, gives every requested key its resolution, every queued key the id of its inserted row, and each inserted row belongs to a queued key |
| TableLogAction.GuessActionType | core/Tracker/TableLogAction.php:160-183 | the three event names map exactly; otherwise `pageurl`, then `pagetitle`, then `sitesearch` anywhere in the name in any case, and an error when none occurs |
| TableLogAction.StripUrlSchemeSuffix | core/Tracker/TableLogAction.php:126-129 | stripping the scheme and `www.` leaves a suffix of the value, removes at most twelve characters, and leaves a value without `http://` or `https://` unchanged |
| TableLogAction.IdActionFromSegment | core/Tracker/TableLogAction.php:122-153 | an unguessable segment name fails; `==` and `!=` give the action's id, or -100 when it is not found; other match types give the DAO's sub-SQL with the cleaned value bound |
| Db.ChunkStarts | core/Db.php:500-513 | the chunk starts are `first`, then one step further each time, every one passing the loop test for the step's direction, and the next one failing it |
| Db.ChunkStartsExample | core/Db.php:405-418 | helper example for the loops of both step signs: 0..20 in steps of 10 gives chunks at 0, 10, 20; 20..0 in steps of -10 gives 20, 10, 0; a start already past the end gives none |
| Db.ChunkBindsAt | core/Db/DAO/Generic.php:50-64 | one query per chunk, the j-th bound to the caller's parameters followed by the chunk's start and start plus step |
| Db.FetchFirst | core/Db/DAO/Generic.php:80-94 | false exactly when every chunk fetches false; otherwise the value fetched by the first chunk that returns one |
| Db.FetchEachAt | core/Db/DAO/Generic.php:110-123 | one fetched value per chunk, the j-th fetched with the j-th chunk's binds |
| Db.FetchConcatAppend | core/Db/DAO/Generic.php:139-154 | the rows of two runs of chunks are the first run's rows followed by the second's |
| Db.FetchConcatChunk | core/Db/DAO/Generic.php:144-151 | the rows of the j-th chunk sit in the result right after those of all earlier chunks |
| Db.SegmentedQuery | core/Db.php:500-513 | the loop sends exactly the chunk queries, in order |
| Db.SegmentedFetchFirst | core/Db.php:405-418 | the loop stops at the first chunk that fetches a value and returns it, or false when none does |
| Db.SegmentedFetchOne | core/Db.php:438-451 | the loop returns one fetched value per chunk, in chunk order |
| Db.SegmentedFetchAll | core/Db.php:472-487 | the loop returns the rows of every chunk, concatenated in chunk order |
| Db.GetDbLock | core/Db.php:523-542 | the lock is obtained exactly when one of the first `maxRetries` attempts is granted; it stops at the first granted attempt, and a failure has made every attempt (none for a non-positive limit) |
| Db.PassesCount | core/Db.php:257-262 | the delete loop makes one pass more than the number of full batches: `(passes - 1) * limit <= rows < passes * limit` |
| Db.DeleteAllRows | core/Db.php:248-265 | the DELETE carries the ORDER BY only for a non-empty column and the integer limit; the loop deletes every matching row and returns their count, in the number of passes `PassesCount` states |
| Db.TableList | core/Db.php:336-341 | a single table name becomes a one-element list; a list is kept |
| Db.LockExprs | core/Db.php:343-349 | one lock expression per table: the write locks first, each table followed by ` WRITE`, then the read locks, each followed by ` READ` |
| Db.LockTables | core/Db.php:334-352 | the statement is `LOCK TABLES` followed by the lock expressions joined by commas |
| Db.NonInnoDbTables | core/Db.php:291-299 | a table is kept exactly when the table status lists it with an engine other than InnoDB (in any case) and it was requested |
| Db.OptimizeTables | core/Db.php:277-307 | nothing when optimisation is disabled; false for no tables or when every requested table is InnoDB; otherwise one `OPTIMIZE TABLE` over the remaining tables |
| Db.LockPrivilegeCache.constructor | core/Db.php:566 | the privilege is not known yet |
| Db.LockPrivilegeCache.IsLockPrivilegeGranted | core/Db.php:573-581 | the first call asks the database and remembers the answer; later calls return the remembered answer |
| Db.LockPrivilegeAskedTwice | core/Db.php:573-581 | asked twice, both answers are the first probe's |
| GenericDao.KeysValuesAt | core/Db/DAO/Generic.php:34-35 | the j-th key and the j-th value both come from the j-th condition, so keys and binds stay in step |
| GenericDao.CountFromWhereQuery | core/Db/DAO/Generic.php:32-36 | the query starts with `SELECT COUNT(*) FROM <table> WHERE ` and binds the conditions' values in their order |
| GenericDao.CountFromWhereCondition | core/Db/DAO/Generic.php:34 | the j-th condition appears in the query at its place in the ` AND `-joined list |
| GenericDao.CountFromWhereSeparator | core/Db/DAO/Generic.php:34 | ` AND ` follows each condition but the last, and the next condition starts right after it |
| RawLogDao.IdFieldForLogTable | core/DataAccess/RawLogDao.php:197-213 | an id column exactly for the five log tables, and the unknown-table error otherwise |
| RawLogDao.BinaryColumns | core/DataAccess/RawLogDao.php:215-231 | binary columns exactly for the five log tables, and the same unknown-table error otherwise |
| RawLogDao.LogTableColumns | core/DataAccess/RawLogDao.php:197-231 | both lookups accept the same tables; no binary column is listed twice and the id column is never a binary one |
| RawLogDao.ConvertRowOthers | core/DataAccess/RawLogDao.php:103-109 | converting a row keeps its columns and leaves every non-binary column unchanged |
| RawLogDao.ConvertRowBinary | core/DataAccess/RawLogDao.php:104-108 | a binary column is converted exactly when it holds a non-empty value |
| RawLogDao.ConvertRowId | core/DataAccess/RawLogDao.php:101-109 | conversion never changes the id the next page starts after |
| RawLogDao.ConvertChunk | core/DataAccess/RawLogDao.php:103-109 | the loop converts every row of the chunk, keeping the rows in order |
| RawLogDao.ConditionsBindsAppend | core/DataAccess/RawLogDao.php:244-256 | the binds follow the conditions' order |
| RawLogDao.CreateLogIterationQuery | core/DataAccess/RawLogDao.php:235-258 | the loop builds exactly the iteration query: the fields, the table, `id > ?`, one clause and its binds per condition in order (an `IN` list for an array value), then the ordering and the integer limit |
| RawLogDao.IterationQueryPlaceholders | core/DataAccess/RawLogDao.php:235-258 | the query has exactly one placeholder more than binds, the first one being the last id the paging passes in |
| RawLogDao.AboveSplit | core/DataAccess/RawLogDao.php:99 | on rows in id order, `id > lastId` keeps exactly the rows after the last one read |
| RawLogDao.AboveOfSorted | core/DataAccess/RawLogDao.php:99 | on rows in `ORDER BY id ASC` order, `id > lastId` keeps exactly the rows after those whose id is at most `lastId` |
| RawLogDao.PagesSizes | core/DataAccess/RawLogDao.php:97-113 | every chunk handed to the callback is non-empty and at most `iterationStep` rows, and every chunk but the last is full |
| RawLogDao.PagesRowsMatch | core/DataAccess/RawLogDao.php:99-111 | every row handed to the callback is a matching row whose id lies above the id paging started after |
| RawLogDao.FullPageOfAscending | core/DataAccess/RawLogDao.php:99-102 | on a unique id, the rows above the last id are a full page followed by the rows above that page's last id, so the next page starts right after it |
| RawLogDao.PagesEveryRowAbove | core/DataAccess/RawLogDao.php:97-113 | on a unique id, the pages after a last id hand over exactly the rows above it, once each and in order |
| RawLogDao.PagesEveryRow | core/DataAccess/RawLogDao.php:97-113 | the intended paging of the fourth Findings row: on a unique, positive id, as `log_visit`, `log_link_visit_action` and `log_action` have, the callback receives every matching row once, in id order |
| RawLogDao.UniqueIdDelivered | core/DataAccess/RawLogDao.php:97-113 | on an id that may repeat, a matching row above the start whose id no other row shares always reaches the callback, so only rows sharing an id can be missed |
| RawLogDao.RepeatedIdLost | core/DataAccess/RawLogDao.php:99-113 | as written: two rows with the same positive id, paged one at a time, give one page holding the first row, and the second row never reaches the callback |
| RawLogDao.PagingStep | core/DataAccess/RawLogDao.php:98-113 | a page shorter than the step is the last page handed on; a full page is followed by the pages after its last row's id |
| RawLogDao.PagingRoundFull | core/DataAccess/RawLogDao.php:98-113 | a full page keeps the loop invariant (pages handed on plus pages to come are all the pages) and leaves fewer pages to come |
| RawLogDao.PagingRoundLast | core/DataAccess/RawLogDao.php:98-113 | a short page ends the loop with every page handed on |
| RawLogDao.PageThrough | core/DataAccess/RawLogDao.php:97-113 | the chunks handed to the callback are the paging query's pages after last id 0, in order, each with its binary columns converted |
| RawLogDao.ForAllLogs | core/DataAccess/RawLogDao.php:90-114 | an unknown table fails with its error; otherwise the callback receives the query's pages, converted, each non-empty and full but the last; on a unique, positive id these are every matching row once, in id order (on the conversion tables' `idvisit` rows can be skipped, see Findings) |
| RawLogDao.IntStrings | core/DataAccess/RawLogDao.php:271 | each id is written as its integer cast |
| RawLogDao.InFieldExpressionWithInts | core/DataAccess/RawLogDao.php:260-278 | the loop builds the ids' integer casts separated by `, ` in parentheses |
| RawLogDao.InListRoundTrip | core/DataAccess/RawLogDao.php:260-278 | splitting the list on commas and casting each part gives back the ids' integer casts |
| Factory.UcFirstAll | core/Db/Factory.php:176-178 | every part is capitalised in place, keeping the count and order |
| Factory.ClassFromTable | core/Db/Factory.php:172-180 | the loop gives exactly the table's parts, split at `_`, capitalised and joined |
| Factory.JoinLength | core/Db/Factory.php:179 | a join is as long as its parts plus one separator between each two |
| Factory.JoinCount | core/Db/Factory.php:174 | joining parts free of a character with that character puts it exactly between the parts |
| Factory.UcFirstAllLengths | core/Db/Factory.php:176-178 | capitalising keeps every part's length |
| Factory.JoinWithoutChar | core/Db/Factory.php:179 | joining without a separator adds no character the parts lack |
| Factory.ClassNameHasNoUnderscore | core/Db/Factory.php:172-180 | a class name never contains `_` |
| Factory.ClassNameLength | core/Db/Factory.php:172-180 | the class name is the table name less its underscores: its length plus their count is the table's length |
| Factory.SplitLength | core/Db/Factory.php:174 | splitting on `_` drops exactly the underscores |
| Factory.FolderName | core/Db/Factory.php:185-200 | `Pgsql` exactly for the PostgreSQL PDO adapter, in any case; `Mysql` for every other adapter |
| Factory.FolderNameIgnoresCase | core/Db/Factory.php:187 | two adapter names that differ only in case choose the same folder |
| Factory.GetClassNameFromTableName | core/Db/Factory.php:156-167 | the adapter folder's DAO class when its file exists, otherwise the MySQL DAO class of the same name |
| Factory.Factory.constructor | core/Db/Factory.php:22-24 | no DAO cached, not in test mode, no instance yet |
| Factory.Factory.SetInstance | core/Db/Factory.php:29-34 | an instance, with the adapter's folder, is created only when there is none; the cache is untouched |
| Factory.Factory.RefreshInstance | core/Db/Factory.php:41-45 | a new instance with the adapter's folder, and an empty DAO cache |
| Factory.Factory.SetTest | core/Db/Factory.php:65-70 | a boolean sets the test flag; any other value leaves it |
| Factory.Factory.GetDao | core/Db/Factory.php:87-103 | outside test mode a cached DAO is returned unchanged; otherwise a new DAO of the class for the table is built, cached under the table and returned |
| Factory.Factory.GetDAO | core/Db/Factory.php:47-51 | creates the instance if needed, then behaves as `dao` |
| Factory.DaoAskedTwice | core/Db/Factory.php:87-103 | asking twice for one table gives the same object outside test mode and two objects of the same class in test mode |
| Factory.DaoAfterRefresh | core/Db/Factory.php:41-45 | after a refresh the same table gets a new DAO object |
| Options.LoadRowsUntouched | core/Option.php:133-146 | autoloading leaves the cached value of a name no autoloaded row mentions |
| Options.LoadRowsLast | core/Option.php:140-142 | a name the autoloaded rows mention is cached with the value of its last row |
| Options.OptionCache.constructor | core/Option.php:28-33 | the cache starts empty and not loaded |
| Options.OptionCache.Autoload | core/Option.php:133-146 | nothing once loaded; otherwise the autoloaded rows are fetched once and copied over the cache in order, and the cache is marked loaded |
| Options.OptionCache.Get | core/Option.php:68-82 | after autoloading, a cached value is returned without asking the table; otherwise the table's value is returned and cached, and a missing option is returned as false without being cached |
| Options.OptionCache.Set | core/Option.php:91-97 | the value is cached under its name, nothing else changes |
| Options.OptionCache.ClearCache | core/Option.php:154-158 | the cache is empty and no longer loaded |
| Options.OptionCache.Delete | core/Option.php:105-111 | deleting an option clears the whole cache |
| Options.OptionCache.DeleteLike | core/Option.php:120-126 | deleting by pattern clears the whole cache |
| Options.SetThenGet | core/Option.php:68-97 | a value just set is what the next read returns, when the autoloaded rows hold no other value for it |
| Options.LastRowFor | core/Option.php:140-142 | a name with some autoloaded row has a last such row |
| Options.GetTwice | core/Option.php:68-82 | a value found on the first read comes back from the cache on the second; after false the table is asked again |
| Options.GetAfterDelete | core/Option.php:105-111 | after a delete the next read loads the autoloaded rows afresh and ignores everything cached before |
| SiteSettings.WithoutSite | core/Db/DAO/Mysql/SiteSetting.php:27-32 | the rows left are exactly those of other sites, with their values |
| SiteSettings.SiteSettingTable.constructor | core/Db/DAO/Mysql/SiteSetting.php:22-25 | the table holds the given rows |
| SiteSettings.SiteSettingTable.DeleteByIdsite | core/Db/DAO/Mysql/SiteSetting.php:27-32 | every row of the site goes, nothing else changes |
| SiteSettings.SiteSettingTable.DeleteByIdsiteAndSettingName | core/Db/DAO/Mysql/SiteSetting.php:34-39 | exactly the one row of the site and name goes |
| SiteSettings.SiteSettingTable.Upsert | core/Db/DAO/Mysql/SiteSetting.php:41-46 | the site and name map to the new value, whether or not a row existed |
| SiteSettings.DeletedAt | core/Measurable/Settings/Storage.php:62-66 | a row goes exactly when it belongs to the site and its name is flagged for deletion; other rows keep their values |
| SiteSettings.UpsertedAt | core/Measurable/Settings/Storage.php:70-73 | each value of the site is stored serialised; every other row is unchanged |
| SiteSettings.SavedAt | core/Measurable/Settings/Storage.php:58-74 | after a save, a name with a value holds its serialised value, a name only flagged for deletion is gone, and every other row is unchanged |
| SiteSettings.FlatFind | core/Measurable/Settings/Storage.php:76-87 | each stored name maps to its unserialised value, and no other name appears |
| SiteSettings.ListsSiteFind | core/Db/DAO/Mysql/SiteSetting.php:48-54 | a listing of the site's rows finds a name exactly when the table holds it for the site, with its value |
| SiteSettings.LoadAfterSave | core/Measurable/Settings/Storage.php:58-87 | loading after a save gives back every value saved, and nothing for a name only deleted |
| SiteSettings.SetAfterDelete | core/Measurable/Settings/Storage.php:43-53 | deleting then setting a value stores it: the later `setValue` clears the deletion flag |
| SiteSettings.DeleteAfterSet | core/Measurable/Settings/Storage.php:43-53 | setting then deleting a value leaves no row for it |
| SiteSettings.Storage.constructor | core/Measurable/Settings/Storage.php:31-35 | a storage for the site, with nothing flagged for deletion and the given values |
| SiteSettings.Storage.DeleteSettingsFromStorage | core/Measurable/Settings/Storage.php:37-41 | every row of the site goes from the table |
| SiteSettings.Storage.DeleteValue | core/Measurable/Settings/Storage.php:43-47 | the name is flagged for deletion and its value dropped |
| SiteSettings.Storage.SetValue | core/Measurable/Settings/Storage.php:49-53 | the name is flagged to be kept and holds the new value |
| SiteSettings.Storage.Save | core/Measurable/Settings/Storage.php:58-74 | the flagged rows are deleted, then every value is stored serialised; the flags are cleared and the values kept |
| SiteSettings.Storage.LoadSettings | core/Measurable/Settings/Storage.php:76-87 | the loop builds exactly the name to unserialised value list of the site's rows |
| SegmentEditorApi.CheckSegmentName | plugins/SegmentEditor/API.php:42-47 | any name but an empty one passes; an empty one fails with the invalid-name error |
| SegmentEditorApi.CheckEnabledAllUsers | plugins/SegmentEditor/API.php:49-58 | the flag cast to int passes when it is zero or the user is a Super User, and fails with the Super User error otherwise |
| SegmentEditorApi.CheckIdSite | plugins/SegmentEditor/API.php:65-77 | no site passes only for a Super User; a non-numeric site fails; a numeric site passes exactly when the user may view it |
| SegmentEditorApi.CheckAutoArchive | plugins/SegmentEditor/API.php:79-95 | the flag cast to int passes when zero, or with no site for a Super User, or with admin access to the given site; the abuse error otherwise |
| SegmentEditorApi.CheckArguments | plugins/SegmentEditor/API.php:107-111 | an invalid definition fails with the parser's error behind `The specified segment is invalid: ` (the wrapping of `checkSegmentValue`, lines 32-40); arguments that pass have a name, a valid definition, a viewable site (or none, for a Super User), and flags that are the int casts carrying the privileges they need; a Super User with view and admin access gets every named, valid segment through |
| SegmentEditorApi.CheckAdd | plugins/SegmentEditor/API.php:128-135 | an anonymous user fails with the anonymous check's error; otherwise the shared argument checks decide |
| SegmentEditorApi.Get | plugins/SegmentEditor/API.php:160-182 | the stored segment, or false when there is none, exactly when the user has some view access, the id is numeric, and a stored segment is the user's own (or the user is a Super User) and not deleted; each failing check gives its own error |
| SegmentEditorApi.GetSegmentOrFail | plugins/SegmentEditor/API.php:188-196 | `get`, with a missing segment turned into the not-found error; a segment returned (and so one `delete` removes) is stored, asked for by a numeric id, owned by the user or a Super User's, and not deleted |
| SegmentEditorApi.CheckUpdate | plugins/SegmentEditor/API.php:105-112 | an update passes exactly when its arguments pass and the segment can be fetched; the argument error comes first; what passes carries the flags and an owned, undeleted stored segment |

## Left out

- The pure SQL-text DAOs are left out because their behaviour is whatever the database does with the query. These are the LogVisit, LogAction, LogLinkVisitAction, LogConversion and LogConversionItem DAOs; the Segment, Sequence, Session, Site and UserLanguage DAOs; LoggerApiCall; the tracker, goals, session and plugin `Model`/`PgModel` classes; PgDuplicateActionRemover; and DataAccess/Actions.php. The SiteSetting DAO is modelled only as the map its statements update.
- Schema DDL (core/Db/Schema/Pgsql.php, the marker interface core/Db/FactoryCreated.php), controllers, views and event hooks, and the integration tests that need a live database are left out.
- MD5, zlib compression, PHP `serialize`/`unserialize`, `urldecode`, `bin2db`/`db2bin`, input sanitising and the segment expression parser and SQL generator are foreign code. They are function parameters with no properties assumed, except where a lemma states the round trip it needs as a precondition.
- Periods, dates and sites are records: a period id, a label, first and last days as `Y-m-d` with a day number, and the pretty string. The Period, Date and Site classes are not part of this model.
- Floating point is left out: `md5_to_64bit`, the PostgreSQL `getProcessingLockName` and `lockNameForNextIdarchive` (float sums printed with `%0.0f`), and `Piwik_Archive::formatNumericValue`. The float cast of numeric values is a parameter.
- Concurrency is left out. A named lock (`GET_LOCK`, the table-allocation lock, the processing lock) is a boolean saying whether it was granted, and nothing interleaves between processes. The PostgreSQL upsert's transaction is the same single map update as the MySQL upsert.
- Access checks (`Piwik::checkUser*`, `isUserIsSuperUser`) and configuration lookups (`enable_sql_optimize_queries`, database name, table prefix, salt, adapter name) are parameters.
- PgsqlArchive.BinaryOutput, PgsqlArchive.GetArchiveData, PgsqlArchive.BinaryOutputs, PgsqlArchive.BinaryShard: they restore class names with the intended read-back of the second Findings row (`UnderscoreToNamespace`). As written, `binaryOutput` calls the by-value `underscoreToNamespace`, so every class name read back from a blob row loses its closing quote (`UnderscoreToNamespaceAsWritten`, `NamespaceRoundTripAsWritten`).
- PgsqlArchive: `insertAll` is left out; it builds literal multi-row SQL for test fixtures and has no archive semantics.
- MysqlArchive.GetArchiveIds: the range branch (core/Db/DAO/Mysql/Archive.php:256-259) is not modelled. `Range` is not imported in that namespace, so the `instanceof` test is always false and every period takes the `date1 IN (...)` branch, as modelled.
- ArchiveSelection.GetArchiveIdAndVisits: the rows come from `getArchiveIdAndVisits` of the DataAccess model (`self::getModel()`), which is not part of this model; they are the `fetch` oracle's answer. The model assumes they arrive in `idarchive DESC` order, as the MySQL DAO's query of the same name orders them (core/Db/DAO/Mysql/Archive.php:236); that order is an assumption about code outside this model.
- ArchiveReading.Archive.CreateSimpleGetResult: the DataTable and Map objects and their metadata are left out. When a DataTable is wanted the result is modelled as the nested keyed rows it would be built from.
- `Piwik_Archive::build` and `makePeriodFromQueryParams` parse request strings into sites and periods and are left out; the constructor takes the parsed lists.
- SiteSettings.Storage.SetValue and SiteSettings.Storage.DeleteValue model only the effect of the parent `Piwik\Settings\Storage` on the values: put and unset. The parent class is not part of this model.
- SegmentEditorApi: the outcome of building the segment inside `checkSegmentValue` is a parameter (it runs the segment parser); the model adds the `The specified segment is invalid: ` prefix to its error as the source does. The DAO writes of `add`, `update` and `delete` are left out, and so are `getAll` and `getSegmentsToAutoArchive`; the model keeps their checks.
- Factory: `helper` and `generic` only build class names from the folder and are left out. `getAdapter` is the adapter parameter.
- ArchiveWriting.ArchiveWriter.InitNewArchive: the id read back by `getIdByName` is stated only when no earlier row in the shard carries the same `locked_<uniqId>` name. `uniqid()` makes a clash practically impossible, but the model does not assume it.
- ArchiveWriting.ArchiveWriter.ClaimNewArchive: the same condition on the `locked_<uniqId>` name as `InitNewArchive`, for the same reason.
- ArchiveSelection.GetArchiveIds: composes the corrected DAO lookup of the first Findings row. As written, the DAO it calls answers periods spanning two month tables with the first month's ids twice and none of the second month's (`MysqlArchive.TwoMonthsAsWritten`).
- Db.SegmentedQuery, Db.SegmentedFetchFirst, Db.SegmentedFetchOne and Db.SegmentedFetchAll require a non-zero step or an empty range. A step of 0 takes the `$i >= $last` loop, which runs zero times when `first < last` and never ends when `first >= last`.
- Db.ChunkStarts: the same requirement as the `Segmented*` methods, for the same reason.
- Db.DeleteAllRows requires `maxRowsPerQuery > 0`. A limit of 0 deletes nothing and repeats for ever, since `0 >= 0`.
- Db.Passes and Db.PassesCount: the same `maxRowsPerQuery > 0` requirement as `DeleteAllRows`.
- RawLogDao.ForAllLogs requires `iterationStep > 0` for the same reason: `LIMIT 0` returns no rows, `0 == 0` holds, and the loop repeats for ever.
- RawLogDao.PageThrough: the same `iterationStep > 0` requirement as `ForAllLogs`.
- RawLogDao.PagesEveryRow: every matching row reaches the callback only when the ids strictly ascend and are positive. That holds for the three tables paged on a unique auto-increment id, not for `log_conversion` and `log_conversion_item`, which page on `idvisit` (fourth Findings row, `RepeatedIdLost`, `UniqueIdDelivered`).
- RawLogDao: the rows stand for the selected columns, and the id the paging continues from is read from them, so `fields` is taken to include the id column. When it does not, the source binds null and the next query returns nothing; the model reads the missing id as 0.
- MysqlArchive.DeleteByDates, MysqlArchive.InsertRecord and MysqlArchive.InsertIgnoreBatch: a shard missing from the database is treated as empty and created by the write, where the SQL statement would fail on a missing table.
- MysqlArchive.GetArchiveData: `IsPeriodKey` accepts any period key of ten or more characters, where `Date::factory` throws on a first ten characters that are not a date; date parsing is not modelled.
- Db.GetDbLock: the `GET_LOCK` answers are an oracle indexed by attempt. `releaseDbLock` is left out.
- Strings stand for PHP byte strings: a `seq<char>` element is one byte, so `Segments.Truncate` cuts at byte 8192 as `substr` does, possibly inside a multibyte UTF-8 character; no member relies on Unicode, and `Php.ToLower` is ASCII-only like `strtolower`.
- Options.OptionCache: the writes of `set`, `delete` and `deleteLike` to the option table are left out, and `$autoLoad` is ignored; only the cache is modelled.
- Sql.Like and Sql.MatchesLiteral compare characters exactly. MySQL's default `_ci` collations compare case-insensitively, so a pattern such as `done%` would also match `DONE…` there. The same collations make `=` and `IN` ignore case and trailing spaces, and MysqlArchive.GetIdByName (`name = ?`, core/Db/DAO/Mysql/Archive.php:203), MysqlArchive.DeletePreviousArchiveStatus (`name = '$name1'`, line 428) and MysqlArchive.GetArchiveData (`name IN (...)`) compare names exactly as well.
- ArchiveQuery.FetchSubTables and ArchiveQuery.ExpandRow take a `fuel` depth bound so that expansion terminates; the recursion at core/Archive.php:503-530 has no bound (a cycle of subtable ids would not end there). Rows deeper than the fuel are left unexpanded.
- ArchiveReading.Skipped compares day numbers. The source's `isEarlier`/`isLater` compare timestamps; the time of day is not modelled.
- Segments.BuildSelectQuery, Segments.JoinClause, Segments.CombineWhere and Db.DeleteAllRowsSql write the SQL with single spaces where the source has newlines and indentation; only the words and their order are modelled.
- Segments.BuildWrappedSelectQuery and Segments.GetSelectQuery take `neededFields` and `toInner` as parameters. They stand for `getNeededFields` (core/Segment.php:481-514) and the `preg_replace` that points the select list at `log_inner` (core/Segment.php:434-436), which are not modelled.
- MysqlArchive.InsertIgnoreBatch: the `$ignoreWhenDuplicate` argument (core/Db/DAO/Mysql/Archive.php:403-407) is left out; only the `INSERT IGNORE` mode is modelled, which is what the only caller (core/DataAccess/ArchiveWriter.php:264) asks for.
- Segments.GetCleanedExpression and Segments.FirstNamed compare segment names with exact string inequality, where core/Segment.php:148 uses PHP's loose `!=`; the two differ only for two numeric strings of the same number, which no segment name is.
- TableLogAction.MatchesRow compares names and types with exact equality. The source's loose `==` also equates two numeric strings of the same number (`'1e1' == '10'`); names are taken as compared exactly.

## Findings

| source | as written | input that shows it | evidently intended | confidence | as-written member | corrected member |
|---|---|---|---|---|---|---|
| core/Db/DAO/Mysql/Archive.php:269 | `$sql = sprintf($sql, $table, $dateCondition)` overwrites the statement template, so from the second month on the loop reruns the first month's statement (its table and start dates) with only the period id rebound | two day periods of site 1, 2012-01-01 (archive 5 in archive_numeric_2012_01) and 2012-02-01 (archive 7 in archive_numeric_2012_02): the result lists 5 twice for January and nothing for February | format a fresh statement for every month, so each month's shard is queried with its own dates, giving 5 for January and 7 for February | not executed | MysqlArchive.TwoMonthsAsWritten | MysqlArchive.GetArchiveIds |
| core/Db/DAO/Pgsql/Archive.php:441-447 | `underscoreToNamespace` loops over `$find` by value (`foreach ($find as $f)`), so `trim($f, '"')` changes only the copy: each search string keeps its closing quote while its replacement has none, and every class name read back loses the quote that closes it | the blob value `O:19:"Piwik\DataTable\Row":0:{}`, stored as `O:19:"Piwik_DataTable_Row":0:{}`, reads back as `O:19:"Piwik\DataTable\Row:0:{}`, which `unserialize` refuses | loop by reference as `namespaceToUnderscore` does, so the quote stays and the stored value reads back exactly | not executed | PgsqlArchive.NamespaceRoundTripAsWritten | PgsqlArchive.NamespaceRoundTrip |
| core/Archive.php:568-591 | `foreach ($archiveNames as &$name)` leaves `$name` a reference to the last name; the next `foreach ($archiveNames as $name)` then writes every name into that slot, so the last requested subtable name is replaced by the one before it before the defaults, the `IN (...)` list and its binds are built | `get(['a', 'b'], 'archive_blob', 5)`: the names go on as `['a_5', 'a_5']`, so `b_5` is never fetched | unset the reference after the first loop (or loop by value), so the query and the defaults cover every requested name | not executed | ArchiveReading.SubtableNameLostAsWritten | ArchiveReading.Archive.Get |
| core/DataAccess/RawLogDao.php:99-113 | `forAllLogs` pages with `WHERE idField > lastId ORDER BY idField LIMIT step`, but `log_conversion` and `log_conversion_item` page on `idvisit` (lines 204-207), which several rows share; after a full page ending inside a visit, the next query asks for `idvisit > v`, so the visit's remaining rows never reach the callback | two conversion rows of visit 7 and `iterationStep` 1: the first page is the first row, the next query `idvisit > 7` returns nothing, and the second row is never handed over | page on a key that is unique in the table, as the other three tables do, so every matching row reaches the callback once | not executed | RawLogDao.RepeatedIdLost | RawLogDao.PagesEveryRow |
