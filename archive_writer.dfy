/**
 * The archive writer: it allocates a new archive id in the numeric shard of
 * the period's first month, marks the archive as in progress, stores its
 * records (numeric values in the numeric shard, everything else in the blob
 * shard, zero values never), and finally replaces the in-progress flag by
 * the done flag and releases the processing lock.
 *
 * The writer talks to the MySQL archive DAO. The clock (`now`), the unique
 * id generator (`uniqId`), the compression of blobs and the granting of
 * named locks are parameters.
 */
module ArchiveWriting {
  import opened Wrappers
  import opened Php
  import opened Periods
  import opened Sql
  import opened ArchiveDb
  import MysqlArchive

  /** Flag stored when the archive is complete. */
  const DoneOk := 1
  /** Flag stored while the archive is being processed. */
  const DoneError := 2
  /** Flag of a complete archive over a period that has not ended yet. */
  const DoneOkTemporary := 3

  /** Prefix of the claim row that reserves a new archive id. */
  const PrefixSqlLock := "locked_"

  /** What a writer is created with: the archive's site, period, segment, flag name, and the configuration. */
  datatype Context = Context(
    idSite: int,
    period: Period,
    doneFlag: string,
    isArchiveTemporary: bool,
    segmentEmpty: bool,
    segmentHash: string,
    dbname: string,
    tablesPrefix: string,
    salt: string)

  /** `isRecordZero`: the string "0", false, the integer 0 or the float 0.0. */
  predicate IsRecordZero(v: Value) {
    v == Str("0") || v == Bool(false) || v == Int(0) || v == Float(0.0)
  }

  /** The numeric shard of the month of the period's first day. */
  function NumericTableOf(ctx: Context): string {
    NumericTable(YearMonth(ctx.period.start))
  }

  /** `getTableNameToInsert`: numeric values go to the numeric shard, any other value to the blob shard. */
  function TableNameToInsert(v: Value, start: Date): (t: string)
    ensures t == NumericTable(YearMonth(start)) || t == BlobTable(YearMonth(start))
    ensures IsBlob(t) <==> !IsNumeric(v)
  {
    BlobTableIsBlob(YearMonth(start));
    NumericTableIsNotBlob(YearMonth(start));
    if IsNumeric(v) then NumericTable(YearMonth(start)) else BlobTable(YearMonth(start))
  }

  /** The row the writer stores for `name = value` in archive `id`. */
  function RecordFor(ctx: Context, id: int, now: string, name: string, value: Value): Record {
    Record(Key(id, name), Row(ctx.idSite, Iso(ctx.period.start), Iso(ctx.period.end), ctx.period.id, now, value))
  }

  /** The tables after `insertRecord(name, value)`. */
  function InsertRecordEffect(tables: map<string, Shard>, ctx: Context, id: int, now: string, name: string, value: Value)
    : map<string, Shard>
  {
    if IsRecordZero(value) then tables
    else
      var t := TableNameToInsert(value, ctx.period.start);
      tables[t := InsertIgnore(ShardIn(tables, t), RecordFor(ctx, id, now, name, value))]
  }

  /** The records `insertBulkRecords` keeps: those whose value is not `empty()`, in order. */
  function NonEmptyRecords(records: seq<(string, Value)>): (r: seq<(string, Value)>)
    ensures |r| <= |records|
    ensures forall i :: 0 <= i < |r| ==> !IsEmpty(r[i].1) && r[i] in records
    ensures forall i :: 0 <= i < |records| && !IsEmpty(records[i].1) ==> records[i] in r
    decreases |records|
  {
    if records == [] then []
    else
      var init := NonEmptyRecords(records[..|records| - 1]);
      var last := records[|records| - 1];
      assert forall i :: 0 <= i < |records| - 1 ==> records[..|records| - 1][i] == records[i];
      if IsEmpty(last.1) then init else init + [last]
  }

  function RecordsFor(ctx: Context, id: int, now: string, records: seq<(string, Value)>): (r: seq<Record>)
    ensures |r| == |records|
    ensures forall i :: 0 <= i < |records| ==> r[i] == RecordFor(ctx, id, now, records[i].0, records[i].1)
    decreases |records|
  {
    if records == [] then []
    else RecordsFor(ctx, id, now, records[..|records| - 1]) + [RecordFor(ctx, id, now, records[|records| - 1].0, records[|records| - 1].1)]
  }

  /**
   * The tables after `insertBulkRecords`: a single record goes through
   * `insertRecord`; otherwise the non-empty records all go, in one
   * INSERT IGNORE batch, to the table the last of them selects.
   */
  function BulkEffect(tables: map<string, Shard>, ctx: Context, id: int, now: string, records: seq<(string, Value)>)
    : map<string, Shard>
  {
    if |records| == 1 then InsertRecordEffect(tables, ctx, id, now, records[0].0, records[0].1)
    else
      var kept := NonEmptyRecords(records);
      if kept == [] then tables
      else
        var t := TableNameToInsert(kept[|kept| - 1].1, ctx.period.start);
        tables[t := InsertIgnoreAll(ShardIn(tables, t), RecordsFor(ctx, id, now, kept))]
  }

  /** Whether storing these records reads the archive id (and so fails before one is allocated). */
  predicate BulkNeedsId(records: seq<(string, Value)>) {
    |records| != 1 || !IsRecordZero(records[0].1)
  }

  /** The value `insertBlobRecord` is given: one blob, or a report and its subtables keyed by subtable id. */
  datatype BlobValues = Single(value: Value) | Keyed(entries: seq<(int, Value)>)

  /** The stored name of entry `id` of report `name`: the report keeps its name, subtable `id` becomes `name_<id>`. */
  function EntryName(name: string, id: int): string {
    if id != 0 then AppendIdSubtable(name, id) else name
  }

  /** The records `insertBlobRecord` builds from the entries of a report, values compressed. */
  function BlobEntries(name: string, entries: seq<(int, Value)>, compress: Value -> Value): (r: seq<(string, Value)>)
    ensures |r| == |entries|
    decreases |entries|
  {
    if entries == [] then []
    else
      var e := entries[|entries| - 1];
      BlobEntries(name, entries[..|entries| - 1], compress) + [(EntryName(name, e.0), compress(e.1))]
  }

  lemma NonEmptyStep(records: seq<(string, Value)>, i: nat)
    requires i < |records|
    ensures NonEmptyRecords(records[..i + 1])
            == if IsEmpty(records[i].1) then NonEmptyRecords(records[..i]) else NonEmptyRecords(records[..i]) + [records[i]]
  {
    assert records[..i + 1][..i] == records[..i];
  }

  lemma RecordsForSnoc(ctx: Context, id: int, now: string, records: seq<(string, Value)>, x: (string, Value))
    ensures RecordsFor(ctx, id, now, records + [x]) == RecordsFor(ctx, id, now, records) + [RecordFor(ctx, id, now, x.0, x.1)]
  {
    assert (records + [x])[..|records|] == records;
  }

  /** A writer of one archive. `idArchive` is `None` (PHP false) until an id is allocated. */
  class ArchiveWriter {
    var idArchive: Option<int>
    const ctx: Context
    const db: ArchiveTables
    const md5: string -> string

    constructor (db: ArchiveTables, ctx: Context, md5: string -> string)
      ensures idArchive == None && this.ctx == ctx && this.db == db && this.md5 == md5
    {
      idArchive := None;
      this.ctx := ctx;
      this.db := db;
      this.md5 := md5;
    }

    /** `makeLockName`, the name of the processing lock of this archive. */
    function LockName(): string {
      MysqlArchive.ProcessingLockName(ctx.dbname, ctx.tablesPrefix, ctx.idSite, ctx.segmentEmpty, ctx.segmentHash,
                                      ctx.period, ctx.salt, md5)
    }

    /** `getIdArchive`: the allocated id, or an error before allocation. */
    method GetIdArchive() returns (r: Result<int>)
      ensures r.Ok? <==> idArchive.Some?
      ensures r.Ok? ==> r.value == idArchive.value
    {
      if idArchive.None? {
        return Err("Must call allocateNewArchiveId() first");
      }
      r := Ok(idArchive.value);
    }

    /**
     * `insertRecord`: a zero value is not written and gives false; any
     * other value is INSERT IGNOREd into the table its type selects.
     */
    method InsertRecord(name: string, value: Value, now: string) returns (r: Result<bool>)
      modifies db
      ensures db.locks == old(db.locks)
      ensures IsRecordZero(value) ==> r == Ok(false) && db.tables == old(db.tables)
      ensures !IsRecordZero(value) && idArchive.None? ==> r.Err? && db.tables == old(db.tables)
      ensures !IsRecordZero(value) && idArchive.Some? ==>
                r == Ok(true) && db.tables == InsertRecordEffect(old(db.tables), ctx, idArchive.value, now, name, value)
    {
      if IsRecordZero(value) {
        return Ok(false);
      }
      var table := TableNameToInsert(value, ctx.period.start);
      var id := GetIdArchive();
      if id.Err? {
        return Err(id.error);
      }
      MysqlArchive.InsertRecord(db, table, RecordFor(ctx, id.value, now, name, value));
      r := Ok(true);
    }

    /**
     * `insertBulkRecords`. One record goes through `insertRecord`. Otherwise
     * the archive id is read first; the records with an `empty()` value are
     * skipped and the others go in one batch to the table the last of them
     * selects; nothing is written when none is left.
     */
    method InsertBulkRecords(records: seq<(string, Value)>, now: string) returns (r: Outcome)
      modifies db
      ensures db.locks == old(db.locks)
      ensures r.Failure? <==> idArchive.None? && BulkNeedsId(records)
      ensures r.Failure? ==> db.tables == old(db.tables)
      ensures idArchive.Some? ==> db.tables == BulkEffect(old(db.tables), ctx, idArchive.value, now, records)
      ensures idArchive.None? && !BulkNeedsId(records) ==> db.tables == old(db.tables)
    {
      if |records| == 1 {
        var w := InsertRecord(records[0].0, records[0].1, now);
        if w.Err? {
          return Failure(w.error);
        }
        return Success;
      }
      var id := GetIdArchive();
      if id.Err? {
        return Failure(id.error);
      }
      var values, valueSeen := BulkValues(records, id.value, now);
      if values == [] {
        return Success;
      }
      var table := TableNameToInsert(valueSeen, ctx.period.start);
      MysqlArchive.InsertIgnoreBatch(db, table, values);
      r := Success;
    }

    /**
     * The loop of `insertBulkRecords`: the rows of the records whose value
     * is not `empty()`, and the last such value (false when there is none).
     */
    method BulkValues(records: seq<(string, Value)>, id: int, now: string) returns (values: seq<Record>, valueSeen: Value)
      ensures values == RecordsFor(ctx, id, now, NonEmptyRecords(records))
      ensures NonEmptyRecords(records) != [] ==> valueSeen == NonEmptyRecords(records)[|NonEmptyRecords(records)| - 1].1
    {
      values := [];
      valueSeen := Bool(false);
      ghost var kept: seq<(string, Value)> := [];
      var i := 0;
      while i < |records|
        invariant 0 <= i <= |records|
        invariant kept == NonEmptyRecords(records[..i])
        invariant values == RecordsFor(ctx, id, now, kept)
        invariant kept != [] ==> valueSeen == kept[|kept| - 1].1
      {
        NonEmptyStep(records, i);
        if !IsEmpty(records[i].1) {
          RecordsForSnoc(ctx, id, now, kept, records[i]);
          values := values + [RecordFor(ctx, id, now, records[i].0, records[i].1)];
          valueSeen := records[i].1;
          kept := kept + [records[i]];
        }
        i := i + 1;
      }
      assert records[..i] == records;
    }

    /**
     * `insertBlobRecord`: a single blob is compressed and stored through
     * `insertRecord`; a report with subtables becomes one record per entry,
     * stored through `insertBulkRecords`.
     */
    method InsertBlobRecord(name: string, values: BlobValues, compress: Value -> Value, now: string) returns (r: Outcome)
      modifies db
      ensures db.locks == old(db.locks)
      ensures values.Single? ==>
                (r.Failure? <==> idArchive.None? && !IsRecordZero(compress(values.value)))
                && (r.Success? && idArchive.Some? ==>
                      db.tables == InsertRecordEffect(old(db.tables), ctx, idArchive.value, now, name, compress(values.value)))
                && (r.Failure? || idArchive.None? ==> db.tables == old(db.tables))
      ensures values.Keyed? ==>
                var records := BlobEntries(name, values.entries, compress);
                (r.Failure? <==> idArchive.None? && BulkNeedsId(records))
                && (idArchive.Some? ==> db.tables == BulkEffect(old(db.tables), ctx, idArchive.value, now, records))
                && (idArchive.None? ==> db.tables == old(db.tables))
    {
      match values {
        case Single(v) =>
          var w := InsertRecord(name, compress(v), now);
          if w.Err? {
            return Failure(w.error);
          }
          r := Success;
        case Keyed(entries) =>
          var clean: seq<(string, Value)> := [];
          var i := 0;
          while i < |entries|
            invariant 0 <= i <= |entries|
            invariant clean == BlobEntries(name, entries[..i], compress)
          {
            assert entries[..i + 1][..i] == entries[..i];
            var newName := name;
            if entries[i].0 != 0 {
              newName := name + "_" + IntToString(entries[i].0);
            }
            clean := clean + [(newName, compress(entries[i].1))];
            i := i + 1;
          }
          assert entries[..i] == entries;
          r := InsertBulkRecords(clean, now);
      }
    }

    /**
     * `initNewArchive`. The processing lock is requested, and a refusal is
     * only logged. Then, under the allocation lock of the numeric shard, a
     * claim row `locked_<uniqId>` takes the next id, the id is read back by
     * that name, and the done flag is written with `DONE_ERROR`. Without
     * the allocation lock the call fails and no id is allocated.
     */
    method InitNewArchive(uniqId: string, now: string, processingLockGranted: bool, tableLockGranted: bool)
      returns (r: Outcome)
      modifies this, db
      ensures db.locks == old(db.locks) + (if processingLockGranted then {LockName()} else {})
      ensures !tableLockGranted ==> r.Failure? && idArchive == old(idArchive) && db.tables == old(db.tables)
      ensures tableLockGranted && (forall k :: k in old(db.ShardOf(NumericTableOf(ctx))) ==> k.name != PrefixSqlLock + uniqId) ==>
                var before := old(db.ShardOf(NumericTableOf(ctx)));
                var id := MaxIdarchive(before.Keys) + 1;
                var claimed := before[Key(id, PrefixSqlLock + uniqId) := MysqlArchive.ClaimRow(ctx.idSite, now)];
                r.Success? && idArchive == Some(id)
                && db.tables == old(db.tables)[NumericTableOf(ctx) :=
                     InsertIgnore(claimed, RecordFor(ctx, id, now, ctx.doneFlag, Int(DoneError)))]
    {
      if processingLockGranted {
        db.locks := db.locks + {LockName()};
      }
      r := ClaimNewArchive(uniqId, now, tableLockGranted);
    }

    /** The part of `initNewArchive` after the processing lock: allocate an id, then write its done flag. */
    method ClaimNewArchive(uniqId: string, now: string, tableLockGranted: bool) returns (r: Outcome)
      modifies this, db
      ensures db.locks == old(db.locks)
      ensures !tableLockGranted ==> r.Failure? && idArchive == old(idArchive) && db.tables == old(db.tables)
      ensures tableLockGranted && (forall k :: k in old(db.ShardOf(NumericTableOf(ctx))) ==> k.name != PrefixSqlLock + uniqId) ==>
                var before := old(db.ShardOf(NumericTableOf(ctx)));
                var id := MaxIdarchive(before.Keys) + 1;
                var claimed := before[Key(id, PrefixSqlLock + uniqId) := MysqlArchive.ClaimRow(ctx.idSite, now)];
                r.Success? && idArchive == Some(id)
                && db.tables == old(db.tables)[NumericTableOf(ctx) :=
                     InsertIgnore(claimed, RecordFor(ctx, id, now, ctx.doneFlag, Int(DoneError)))]
    {
      ghost var tables0 := db.tables;
      ghost var before := db.ShardOf(NumericTableOf(ctx));
      ghost var claimed := before[Key(MaxIdarchive(before.Keys) + 1, PrefixSqlLock + uniqId) := MysqlArchive.ClaimRow(ctx.idSite, now)];
      var o := AllocateNewArchiveId(uniqId, now, tableLockGranted);
      if o.Failure? {
        return o;
      }
      assert db.tables == tables0[NumericTableOf(ctx) := claimed];
      var w := InsertRecord(ctx.doneFlag, Int(DoneError), now);
      if w.Err? {
        return Failure(w.error);
      }
      FlagInNumericShard(tables0, ctx, idArchive.value, now, claimed, DoneError);
      r := Success;
    }

    /**
     * A non-zero status is written under the done flag into the numeric
     * shard, whatever that shard holds at the time.
     */
    static lemma FlagInNumericShard(tables: map<string, Shard>, ctx: Context, id: int, now: string, shard: Shard, status: int)
      requires status != 0
      ensures !IsRecordZero(Int(status))
      ensures InsertRecordEffect(tables[NumericTableOf(ctx) := shard], ctx, id, now, ctx.doneFlag, Int(status))
           == tables[NumericTableOf(ctx) := InsertIgnore(shard, RecordFor(ctx, id, now, ctx.doneFlag, Int(status)))]
    {
      assert TableNameToInsert(Int(status), ctx.period.start) == NumericTableOf(ctx);
    }

    /**
     * `allocateNewArchiveId`: a claim row `locked_<uniqId>` takes the next id
     * of the numeric shard, and the id is read back by that name. Without
     * the allocation lock nothing is written and the id is unchanged.
     */
    method AllocateNewArchiveId(uniqId: string, now: string, tableLockGranted: bool) returns (r: Outcome)
      modifies this, db
      ensures r.Success? <==> tableLockGranted
      ensures db.locks == old(db.locks)
      ensures !tableLockGranted ==> idArchive == old(idArchive) && db.tables == old(db.tables)
      ensures tableLockGranted ==>
                var before := old(db.ShardOf(NumericTableOf(ctx)));
                var id := MaxIdarchive(before.Keys) + 1;
                db.tables == old(db.tables)[NumericTableOf(ctx) := before[Key(id, PrefixSqlLock + uniqId) := MysqlArchive.ClaimRow(ctx.idSite, now)]]
                && ((forall k :: k in before ==> k.name != PrefixSqlLock + uniqId) ==> idArchive == Some(id))
    {
      var numericTable := NumericTableOf(ctx);
      var locked := PrefixSqlLock + uniqId;
      ghost var before := db.ShardOf(numericTable);
      r := MysqlArchive.LoadNextIdarchive(db, numericTable, locked, ctx.idSite, now, tableLockGranted);
      if r.Failure? {
        return;
      }
      ghost var id := MaxIdarchive(before.Keys) + 1;
      assert db.ShardOf(numericTable) == before[Key(id, locked) := MysqlArchive.ClaimRow(ctx.idSite, now)];
      idArchive := MysqlArchive.GetIdByName(db, numericTable, locked);
      if (forall k :: k in before ==> k.name != locked) && idArchive.Some? {
        assert Key(idArchive.value, locked) in db.ShardOf(numericTable);
        assert idArchive.value == id;
      }
    }

    /**
     * `finalizeArchive`. Under the allocation lock, the archive's done flag
     * and claim rows (`locked_%`) are deleted; then the done flag is
     * written with `DONE_OK`, or `DONE_OK_TEMPORARY` for a period that has
     * not ended; then the processing lock is released. Before an id is
     * allocated, or without the allocation lock, nothing changes.
     */
    method FinalizeArchive(now: string, tableLockGranted: bool) returns (r: Outcome)
      modifies db
      ensures r.Success? <==> idArchive.Some? && tableLockGranted
      ensures r.Failure? ==> db.tables == old(db.tables) && db.locks == old(db.locks)
      ensures r.Success? ==>
                var id := idArchive.value;
                var status := if ctx.isArchiveTemporary then DoneOkTemporary else DoneOk;
                var cleared := MysqlArchive.WithoutStatusRows(old(db.ShardOf(NumericTableOf(ctx))), id, ctx.doneFlag, PrefixSqlLock);
                db.tables == old(db.tables)[NumericTableOf(ctx) := InsertIgnore(cleared, RecordFor(ctx, id, now, ctx.doneFlag, Int(status)))]
                && db.locks == old(db.locks) - {LockName()}
    {
      var id := GetIdArchive();
      if id.Err? {
        return Failure(id.error);
      }
      var numericTable := NumericTableOf(ctx);
      ghost var tables0 := db.tables;
      ghost var cleared := MysqlArchive.WithoutStatusRows(db.ShardOf(numericTable), id.value, ctx.doneFlag, PrefixSqlLock);
      var d := MysqlArchive.DeletePreviousArchiveStatus(db, numericTable, id.value, ctx.doneFlag, PrefixSqlLock, tableLockGranted);
      if d.Failure? {
        return d;
      }
      var status := DoneOk;
      if ctx.isArchiveTemporary {
        status := DoneOkTemporary;
      }
      var w := InsertRecord(ctx.doneFlag, Int(status), now);
      FlagInNumericShard(tables0, ctx, id.value, now, cleared, status);
      db.locks := db.locks - {LockName()};
      r := Success;
    }
  }

  // ---------------------------------------------------------------------
  // Properties
  // ---------------------------------------------------------------------

  /** A zero value leaves every table as it was. */
  lemma ZeroNotWritten(tables: map<string, Shard>, ctx: Context, id: int, now: string, name: string, value: Value)
    requires IsRecordZero(value)
    ensures InsertRecordEffect(tables, ctx, id, now, name, value) == tables
  {
  }

  /**
   * A non-zero value is stored under its name in the table its type
   * selects, unless that key was already there; every other table and
   * every other key stays as it was.
   */
  lemma InsertRecordStores(tables: map<string, Shard>, ctx: Context, id: int, now: string, name: string, value: Value,
                           t: string, k: Key)
    requires !IsRecordZero(value)
    ensures var after := InsertRecordEffect(tables, ctx, id, now, name, value);
            var target := TableNameToInsert(value, ctx.period.start);
            (t != target ==> ShardIn(after, t) == ShardIn(tables, t))
            && Key(id, name) in ShardIn(after, target)
            && (Key(id, name) !in ShardIn(tables, target) ==> ShardIn(after, target)[Key(id, name)].value == value)
            && (k in ShardIn(tables, target) ==> k in ShardIn(after, target) && ShardIn(after, target)[k] == ShardIn(tables, target)[k])
  {
  }

  /** Numeric values land in the numeric shard and any other value in the blob shard of the period's month. */
  lemma RecordTableKind(v: Value, start: Date)
    ensures IsNumeric(v) ==> TableNameToInsert(v, start) == NumericTable(YearMonth(start))
    ensures !IsNumeric(v) ==> IsBlob(TableNameToInsert(v, start))
  {
  }

  /**
   * `insertBulkRecords` skips every value `insertRecord` skips and more:
   * every zero value is `empty()`, but an empty string or null is empty
   * without being zero.
   */
  lemma ZeroIsEmpty(v: Value)
    ensures IsRecordZero(v) ==> IsEmpty(v)
    ensures IsEmpty(Str("")) && !IsRecordZero(Str(""))
    ensures IsEmpty(Null) && !IsRecordZero(Null)
  {
  }

  /**
   * With more than one record, every record with a non-empty value is
   * stored in the table chosen by the last such value, and a name that
   * comes only with empty values and was not stored before stays absent.
   */
  lemma {:induction false} BulkStoresNonEmpty(tables: map<string, Shard>, ctx: Context, id: int, now: string,
                                              records: seq<(string, Value)>, i: nat)
    requires |records| != 1 && i < |records|
    ensures var kept := NonEmptyRecords(records);
            var after := BulkEffect(tables, ctx, id, now, records);
            kept != [] ==>
              var t := TableNameToInsert(kept[|kept| - 1].1, ctx.period.start);
              (!IsEmpty(records[i].1) ==> Key(id, records[i].0) in ShardIn(after, t))
              && (Key(id, records[i].0) !in ShardIn(tables, t)
                  && (forall j :: 0 <= j < |records| && records[j].0 == records[i].0 ==> IsEmpty(records[j].1))
                  ==> Key(id, records[i].0) !in ShardIn(after, t))
  {
    var kept := NonEmptyRecords(records);
    if kept != [] {
      var t := TableNameToInsert(kept[|kept| - 1].1, ctx.period.start);
      var recs := RecordsFor(ctx, id, now, kept);
      var k := Key(id, records[i].0);
      InsertIgnoreAllKeys(ShardIn(tables, t), recs, k);
      if !IsEmpty(records[i].1) {
        var j :| 0 <= j < |kept| && kept[j] == records[i];
        assert recs[j].key == k;
      }
      if forall j :: 0 <= j < |records| && records[j].0 == records[i].0 ==> IsEmpty(records[j].1) {
        forall j | 0 <= j < |recs| ensures recs[j].key != k {
          assert kept[j] in records;
        }
      }
    }
  }

  /**
   * Each entry of a report becomes one record: the entry with id 0 keeps
   * the report's name, entry `id` is named `name_<id>`, and each value is
   * the compressed entry value.
   */
  lemma {:induction false} BlobEntriesShape(name: string, entries: seq<(int, Value)>, compress: Value -> Value, i: nat)
    requires i < |entries|
    ensures var r := BlobEntries(name, entries, compress);
            r[i].1 == compress(entries[i].1)
            && (entries[i].0 == 0 ==> r[i].0 == name)
            && (entries[i].0 != 0 ==> r[i].0 == name + "_" + IntToString(entries[i].0))
    decreases |entries|
  {
    if i < |entries| - 1 {
      assert entries[..|entries| - 1][i] == entries[i];
      BlobEntriesShape(name, entries[..|entries| - 1], compress, i);
    }
  }

  /**
   * A subtable stored by the writer under a positive id is found again by
   * the "all subtables" filter of `getArchiveData` for its report.
   */
  lemma SubtableReadBack(name: string, entries: seq<(int, Value)>, compress: Value -> Value, i: nat)
    requires i < |entries| && entries[i].0 > 0 && '%' !in name
    ensures MysqlArchive.SubtableNameMatch(name, BlobEntries(name, entries, compress)[i].0)
  {
    BlobEntriesShape(name, entries, compress, i);
    MysqlArchive.SubtableNameSelected(name, entries[i].0);
  }

  /**
   * After `finalizeArchive` the archive's done flag holds the final status,
   * no claim row of the archive is left, and the rows of other archives are
   * untouched.
   */
  lemma FinalizedShard(shard: Shard, id: int, doneFlag: string, row: Row, k: Key)
    ensures var after := InsertIgnore(MysqlArchive.WithoutStatusRows(shard, id, doneFlag, PrefixSqlLock), Record(Key(id, doneFlag), row));
            after[Key(id, doneFlag)] == row
            && (k in after && k.idarchive == id && k.name != doneFlag ==> !(|k.name| >= 7 && k.name[..6] == "locked"))
            && (k in shard && k.idarchive != id ==> k in after && after[k] == shard[k])
  {
    MysqlArchive.LockedPatternMatches(k.name);
  }

  /**
   * After `initNewArchive` on a shard with no row named like the claim, the
   * new id is above every id the shard had, and both the claim row and the
   * in-progress flag `DONE_ERROR` are stored under it.
   */
  lemma InitializedShard(before: Shard, ctx: Context, now: string, locked: string)
    requires locked != ctx.doneFlag
    ensures var id := MaxIdarchive(before.Keys) + 1;
            var after := InsertIgnore(before[Key(id, locked) := MysqlArchive.ClaimRow(ctx.idSite, now)],
                                      RecordFor(ctx, id, now, ctx.doneFlag, Int(DoneError)));
            (forall k :: k in before ==> k.idarchive < id)
            && Key(id, locked) in after
            && after[Key(id, ctx.doneFlag)].value == Int(DoneError)
  {
    var id := MaxIdarchive(before.Keys) + 1;
    assert Key(id, ctx.doneFlag) !in before;
  }
}
