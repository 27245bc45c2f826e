/**
 * The MySQL archive DAO: allocation of new archive ids under a named lock,
 * the status rows of an archive, INSERT IGNORE of records, the id lookup
 * across month shards, the data lookup by archive ids, deletion by dates,
 * the shard creation statement and the processing lock name.
 *
 * The database is an `ArchiveTables` object; a named lock is a boolean the
 * caller passes in (granted or not), and the rows a SELECT returns through
 * a driver are given by an oracle function where their order matters.
 */
module MysqlArchive {
  import opened Wrappers
  import opened Php
  import opened Periods
  import opened Sql
  import opened ArchiveDb

  /** The row `loadNextIdarchive` inserts to claim a new id. */
  function ClaimRow(idsite: int, date: string): Row {
    Row(idsite, date, date, 0, date, Int(0))
  }

  /**
   * `loadNextIdarchive`: under the table's allocation lock, insert a row named
   * `locked` whose idarchive is one more than the largest id of the table
   * (1 for an empty table). Without the lock nothing is written.
   */
  method LoadNextIdarchive(db: ArchiveTables, table: string, locked: string, idsite: int, date: string, lockGranted: bool)
    returns (r: Outcome)
    modifies db
    ensures r.Success? <==> lockGranted
    ensures db.locks == old(db.locks)
    ensures !lockGranted ==> db.tables == old(db.tables)
    ensures lockGranted ==>
      var before := old(db.ShardOf(table));
      var id := MaxIdarchive(before.Keys) + 1;
      (before == map[] ==> id == 1)
      && (forall k :: k in before ==> k.idarchive < id)
      && db.tables == old(db.tables)[table := before[Key(id, locked) := ClaimRow(idsite, date)]]
  {
    if !lockGranted {
      return Failure("loadNextIdArchive: Cannot get named lock for table " + table);
    }
    var m := db.SelectMaxIdarchive(table);
    db.tables := db.tables[table := db.ShardOf(table)[Key(m + 1, locked) := ClaimRow(idsite, date)]];
    r := Success;
  }

  /** `getIdByName`: the idarchive of some row with that name, or false when there is none. */
  method GetIdByName(db: ArchiveTables, table: string, name: string) returns (r: Option<int>)
    ensures r.Some? ==> Key(r.value, name) in db.ShardOf(table)
    ensures r.None? ==> forall k :: k in db.ShardOf(table) ==> k.name != name
  {
    var shard := db.ShardOf(table);
    if k :| k in shard && k.name == name {
      r := Some(k.idarchive);
    } else {
      r := None;
    }
  }

  /** The rows `deleteByIdarchiveName` removes: `idarchive = id AND (name = name1 OR name LIKE 'name2%')`. */
  predicate IsStatusRow(k: Key, id: int, name1: string, name2: string) {
    k.idarchive == id && (k.name == name1 || Like(k.name, name2 + "%"))
  }

  function WithoutStatusRows(shard: Shard, id: int, name1: string, name2: string): Shard {
    map k | k in shard && !IsStatusRow(k, id, name1, name2) :: shard[k]
  }

  /**
   * `deletePreviousArchiveStatus`: under the allocation lock, delete the
   * rows of archive `id` named `name1` or starting with `name2`; every other
   * row stays. Without the lock nothing is deleted.
   */
  method DeletePreviousArchiveStatus(db: ArchiveTables, table: string, id: int, name1: string, name2: string, lockGranted: bool)
    returns (r: Outcome)
    modifies db
    ensures r.Success? <==> lockGranted
    ensures db.locks == old(db.locks)
    ensures !lockGranted ==> db.tables == old(db.tables)
    ensures lockGranted ==> db.tables == old(db.tables)[table := WithoutStatusRows(old(db.ShardOf(table)), id, name1, name2)]
  {
    if !lockGranted {
      return Failure("loadNextIdArchive: Cannot get named lock for table " + table);
    }
    db.tables := db.tables[table := WithoutStatusRows(db.ShardOf(table), id, name1, name2)];
    r := Success;
  }

  /**
   * The deletion keeps exactly the rows that are not status rows of the
   * archive, with their values.
   */
  lemma WithoutStatusRowsContents(shard: Shard, id: int, name1: string, name2: string, k: Key)
    ensures k in WithoutStatusRows(shard, id, name1, name2) <==> k in shard && !IsStatusRow(k, id, name1, name2)
    ensures k in WithoutStatusRows(shard, id, name1, name2) ==> WithoutStatusRows(shard, id, name1, name2)[k] == shard[k]
    ensures k in shard && k.idarchive != id ==> k in WithoutStatusRows(shard, id, name1, name2)
  {
  }

  /**
   * The pattern `'locked_%'` used for the claim rows reads `_` as a
   * wildcard: it matches every name of at least seven characters that
   * starts with "locked".
   */
  lemma {:induction false} LockedPatternMatches(name: string)
    ensures Like(name, "locked_" + "%") <==> |name| >= 7 && name[..6] == "locked"
  {
    LikeLiteralPrefix(name, "locked_");
    if |name| >= 7 && name[..6] == "locked" {
      assert forall i :: 0 <= i < 6 ==> name[i] == name[..6][i];
    }
    if MatchesLiteral(name, "locked_") {
      assert forall i :: 0 <= i < 6 ==> "locked_"[i] == name[i];
    }
  }

  /** A row covers a date when `date1 <= date <= date2`. */
  predicate Covers(row: Row, date: string) {
    LexLe(row.date1, date) && LexLe(date, row.date2)
  }

  /** The rows `deleteByDates` keeps: not of a listed site, or covering none of the dates. */
  function WithoutDates(shard: Shard, idSites: seq<int>, dates: seq<string>): Shard {
    map k | k in shard && !(shard[k].idsite in idSites && exists d :: d in dates && Covers(shard[k], d)) :: shard[k]
  }

  /** The values bound to the two placeholders of each date's condition. */
  method DateConditions(dates: seq<string>) returns (conditions: seq<(string, string)>)
    ensures |conditions| == |dates|
    ensures forall j :: 0 <= j < |dates| ==> conditions[j] == (dates[j], dates[j])
  {
    conditions := [];
    var i := 0;
    while i < |dates|
      invariant 0 <= i <= |dates|
      invariant |conditions| == i
      invariant forall j :: 0 <= j < i ==> conditions[j] == (dates[j], dates[j])
    {
      conditions := conditions + [(dates[i], dates[i])];
      i := i + 1;
    }
  }

  /** Some `(date1 <= ? AND ? <= date2)` condition holds for the row. */
  predicate MatchesCondition(row: Row, conditions: seq<(string, string)>) {
    exists c :: c in conditions && LexLe(row.date1, c.0) && LexLe(c.1, row.date2)
  }

  /** The OR of the per-date conditions selects exactly the rows covering some date. */
  lemma ConditionsCoverDates(shard: Shard, idSites: seq<int>, dates: seq<string>, conditions: seq<(string, string)>)
    requires |conditions| == |dates|
    requires forall j :: 0 <= j < |dates| ==> conditions[j] == (dates[j], dates[j])
    ensures (map k | k in shard && !(shard[k].idsite in idSites && MatchesCondition(shard[k], conditions)) :: shard[k])
            == WithoutDates(shard, idSites, dates)
  {
    forall k | k in shard
      ensures MatchesCondition(shard[k], conditions) <==> (exists d :: d in dates && Covers(shard[k], d))
    {
      if c :| c in conditions && LexLe(shard[k].date1, c.0) && LexLe(c.1, shard[k].date2) {
        var j :| 0 <= j < |conditions| && conditions[j] == c;
        assert dates[j] in dates && Covers(shard[k], dates[j]);
      }
      if d :| d in dates && Covers(shard[k], d) {
        var j :| 0 <= j < |dates| && dates[j] == d;
        assert conditions[j] in conditions;
      }
    }
  }

  /**
   * `deleteByDates`: one `(date1 <= ? AND ? <= date2)` condition per date,
   * OR-ed, restricted to the listed sites. An empty date or site list makes
   * the statement syntactically invalid and nothing is deleted.
   */
  method DeleteByDates(db: ArchiveTables, table: string, idSites: seq<int>, dates: seq<string>) returns (r: Outcome)
    modifies db
    ensures r.Failure? <==> dates == [] || idSites == []
    ensures db.locks == old(db.locks)
    ensures r.Failure? ==> db.tables == old(db.tables)
    ensures r.Success? ==> db.tables == old(db.tables)[table := WithoutDates(old(db.ShardOf(table)), idSites, dates)]
  {
    var conditions := DateConditions(dates);
    if conditions == [] || idSites == [] {
      return Failure("SQL syntax error in DELETE FROM " + table);
    }
    var shard := db.ShardOf(table);
    var kept := map k | k in shard && !(shard[k].idsite in idSites && MatchesCondition(shard[k], conditions)) :: shard[k];
    ConditionsCoverDates(shard, idSites, dates, conditions);
    db.tables := db.tables[table := kept];
    r := Success;
  }

  /** `insertRecord`: INSERT IGNORE of one row. */
  method InsertRecord(db: ArchiveTables, table: string, rec: Record)
    modifies db
    ensures db.locks == old(db.locks)
    ensures db.tables == old(db.tables)[table := InsertIgnore(old(db.ShardOf(table)), rec)]
  {
    db.tables := db.tables[table := InsertIgnore(db.ShardOf(table), rec)];
  }

  /** A second insert under a key already present leaves the first value in place. */
  lemma InsertIgnoreKeepsFirst(shard: Shard, rec: Record, rec2: Record)
    requires rec2.key == rec.key
    ensures InsertIgnore(InsertIgnore(shard, rec), rec2) == InsertIgnore(shard, rec)
    ensures rec.key !in shard ==> InsertIgnore(InsertIgnore(shard, rec), rec2)[rec.key] == rec.row
  {
  }

  /** `insertIgnoreBatch` with duplicates ignored: the rows are INSERT IGNOREd in order. */
  method InsertIgnoreBatch(db: ArchiveTables, table: string, recs: seq<Record>)
    modifies db
    ensures db.locks == old(db.locks)
    ensures db.tables == old(db.tables)[table := InsertIgnoreAll(old(db.ShardOf(table)), recs)]
  {
    db.tables := db.tables[table := InsertIgnoreAll(db.ShardOf(table), recs)];
  }

  // ---------------------------------------------------------------------
  // getArchiveIds
  // ---------------------------------------------------------------------

  /** One row of the `getArchiveIds` query: the newest archive of a site, name and date pair. */
  datatype IdRow = IdRow(idsite: int, name: string, date1: string, date2: string, idarchive: int)

  /**
   * What the per-month query asks for: the shard, the period type, the
   * start dates (`date1 IN (...)`), the sites and the done-flag condition.
   */
  datatype IdQuery = IdQuery(table: string, periodId: int, startDates: seq<string>, siteIds: seq<int>, nameCondition: string)

  /** `result[name]["date1,date2"]` is the list of archive ids found. */
  type ArchiveIdMap = map<string, map<string, seq<int>>>

  function IdsAt(m: ArchiveIdMap, name: string, range: string): seq<int> {
    if name in m && range in m[name] then m[name][range] else []
  }

  /** `$result[$name][$date1 . ',' . $date2][] = $idarchive`. */
  function AddIdRow(m: ArchiveIdMap, row: IdRow): ArchiveIdMap {
    var range := row.date1 + "," + row.date2;
    var inner := if row.name in m then m[row.name] else map[];
    m[row.name := inner[range := IdsAt(m, row.name, range) + [row.idarchive]]]
  }

  function AddIdRows(m: ArchiveIdMap, rows: seq<IdRow>): ArchiveIdMap
    decreases |rows|
  {
    if rows == [] then m else AddIdRow(AddIdRows(m, rows[..|rows| - 1]), rows[|rows| - 1])
  }

  /** The ids of the rows with that name and range, in row order. */
  function IdsMatching(rows: seq<IdRow>, name: string, range: string): seq<int>
    decreases |rows|
  {
    if rows == [] then []
    else
      var last := rows[|rows| - 1];
      IdsMatching(rows[..|rows| - 1], name, range)
      + (if last.name == name && last.date1 + "," + last.date2 == range then [last.idarchive] else [])
  }

  /** Grouping appends, for each name and range, the ids of the matching rows in row order. */
  lemma {:induction false} AddIdRowsLookup(m: ArchiveIdMap, rows: seq<IdRow>, name: string, range: string)
    ensures IdsAt(AddIdRows(m, rows), name, range) == IdsAt(m, name, range) + IdsMatching(rows, name, range)
    decreases |rows|
  {
    if rows != [] {
      AddIdRowsLookup(m, rows[..|rows| - 1], name, range);
    }
  }

  /** A name is a key of the grouping exactly when it was one already or some row carries it. */
  lemma {:induction false} AddIdRowsNames(m: ArchiveIdMap, rows: seq<IdRow>, name: string)
    ensures name in AddIdRows(m, rows) <==> name in m || exists i :: 0 <= i < |rows| && rows[i].name == name
    decreases |rows|
  {
    if rows != [] {
      var init := rows[..|rows| - 1];
      AddIdRowsNames(m, init, name);
      if name in AddIdRows(m, rows) && name !in m && rows[|rows| - 1].name != name {
        var i :| 0 <= i < |init| && init[i].name == name;
        assert rows[i].name == name;
      }
      if i :| 0 <= i < |rows| && rows[i].name == name {
        if i < |rows| - 1 {
          assert init[i].name == name;
        }
      }
    }
  }

  lemma {:induction false} AddIdRowsAppend(m: ArchiveIdMap, a: seq<IdRow>, b: seq<IdRow>)
    ensures AddIdRows(m, a + b) == AddIdRows(AddIdRows(m, a), b)
    decreases |b|
  {
    if b == [] {
      assert a + b == a;
    } else {
      assert (a + b)[..|a + b| - 1] == a + b[..|b| - 1];
      AddIdRowsAppend(m, a, b[..|b| - 1]);
    }
  }

  /** The start dates of the periods, formatted `Y-m-d`. */
  function StartDates(periods: seq<Period>): (r: seq<string>)
    ensures |r| == |periods|
    ensures forall i :: 0 <= i < |periods| ==> r[i] == Iso(periods[i].start)
  {
    seq(|periods|, i requires 0 <= i < |periods| => Iso(periods[i].start))
  }

  /** The query for one month: the period id of its first period and every start date. */
  function MonthQuery(month: (string, seq<Period>), siteIds: seq<int>, nameCondition: string): IdQuery
    requires month.1 != []
  {
    IdQuery(month.0, month.1[0].id, StartDates(month.1), siteIds, nameCondition)
  }

  predicate NonEmptyMonths(months: seq<(string, seq<Period>)>) {
    forall i :: 0 <= i < |months| ==> months[i].1 != []
  }

  /** All rows the months' own queries return, month after month. */
  function FetchedRows(months: seq<(string, seq<Period>)>, siteIds: seq<int>, nameCondition: string,
                       fetch: IdQuery -> seq<IdRow>): seq<IdRow>
    requires NonEmptyMonths(months)
    decreases |months|
  {
    if months == [] then []
    else FetchedRows(months[..|months| - 1], siteIds, nameCondition, fetch)
         + fetch(MonthQuery(months[|months| - 1], siteIds, nameCondition))
  }

  /** `getArchiveIds` as intended: each month's rows come from that month's own query. */
  function ArchiveIds(months: seq<(string, seq<Period>)>, siteIds: seq<int>, nameCondition: string,
                      fetch: IdQuery -> seq<IdRow>): ArchiveIdMap
    requires NonEmptyMonths(months)
  {
    AddIdRows(map[], FetchedRows(months, siteIds, nameCondition, fetch))
  }

  /**
   * `getArchiveIds`, with the query built afresh for every month. For each
   * month the rows of its query are grouped into `result[name]["date1,date2"]`.
   */
  method GetArchiveIds(siteIds: seq<int>, months: seq<(string, seq<Period>)>, nameCondition: string,
                       fetch: IdQuery -> seq<IdRow>) returns (result: ArchiveIdMap)
    requires NonEmptyMonths(months)
    ensures result == ArchiveIds(months, siteIds, nameCondition, fetch)
  {
    result := map[];
    var i := 0;
    while i < |months|
      invariant 0 <= i <= |months|
      invariant result == AddIdRows(map[], FetchedRows(months[..i], siteIds, nameCondition, fetch))
    {
      var rows := fetch(MonthQuery(months[i], siteIds, nameCondition));
      result := GroupIdRows(result, rows);
      assert months[..i + 1][..i] == months[..i];
      AddIdRowsAppend(map[], FetchedRows(months[..i], siteIds, nameCondition, fetch), rows);
      i := i + 1;
    }
    assert months[..i] == months;
  }

  /** The inner loop of `getArchiveIds`: one month's rows added to the grouping. */
  method GroupIdRows(m: ArchiveIdMap, rows: seq<IdRow>) returns (result: ArchiveIdMap)
    ensures result == AddIdRows(m, rows)
  {
    result := m;
    var j := 0;
    while j < |rows|
      invariant 0 <= j <= |rows|
      invariant result == AddIdRows(m, rows[..j])
    {
      assert rows[..j + 1][..j] == rows[..j];
      result := AddIdRow(result, rows[j]);
      j := j + 1;
    }
    assert rows[..j] == rows;
  }

  /**
   * The query a later month runs as written: the statement text, with the
   * first month's table and start dates, and the later month's own bind.
   */
  function StaleQuery(first: (string, seq<Period>), month: (string, seq<Period>), siteIds: seq<int>,
                      nameCondition: string): IdQuery
    requires first.1 != [] && month.1 != []
  {
    IdQuery(first.0, month.1[0].id, StartDates(first.1), siteIds, nameCondition)
  }

  /**
   * `getArchiveIds` as written: the statement template is overwritten by its
   * first `sprintf`, so every month runs the first month's statement, bound
   * to its own period id.
   */
  function ArchiveIdsAsWritten(months: seq<(string, seq<Period>)>, siteIds: seq<int>, nameCondition: string,
                               fetch: IdQuery -> seq<IdRow>): ArchiveIdMap
    requires NonEmptyMonths(months)
    decreases |months|
  {
    if months == [] then map[]
    else AddIdRows(ArchiveIdsAsWritten(months[..|months| - 1], siteIds, nameCondition, fetch),
                   fetch(StaleQuery(months[0], months[|months| - 1], siteIds, nameCondition)))
  }

  /** Two days used to exhibit the difference. */
  const Jan1: Date := Date(2012, 1, 1, 15340)
  const Feb1: Date := Date(2012, 2, 1, 15371)

  /** A shard that holds one done-flag row per month queried. */
  function TwoMonthFetch(q: IdQuery): seq<IdRow> {
    if q.table == "archive_numeric_2012_01" then [IdRow(1, "done", "2012-01-01", "2012-01-01", 5)]
    else if q.table == "archive_numeric_2012_02" then [IdRow(1, "done", "2012-02-01", "2012-02-01", 7)]
    else []
  }

  /**
   * With two months of the same period type, the code as written runs the
   * first month's query twice, where the intended code runs each month's own.
   */
  lemma AsWrittenTwoMonths(months: seq<(string, seq<Period>)>, siteIds: seq<int>, nameCondition: string,
                           fetch: IdQuery -> seq<IdRow>)
    requires NonEmptyMonths(months) && |months| == 2
    requires months[1].1[0].id == months[0].1[0].id
    ensures var first := fetch(MonthQuery(months[0], siteIds, nameCondition));
            ArchiveIdsAsWritten(months, siteIds, nameCondition, fetch) == AddIdRows(AddIdRows(map[], first), first)
            && FetchedRows(months, siteIds, nameCondition, fetch)
               == first + fetch(MonthQuery(months[1], siteIds, nameCondition))
  {
    var m1 := months[..1];
    var first := fetch(MonthQuery(months[0], siteIds, nameCondition));
    assert m1[..0] == [] && m1[0] == months[0];
    assert months[..|months| - 1] == m1;
    assert ArchiveIdsAsWritten(m1[..0], siteIds, nameCondition, fetch) == map[];
    assert ArchiveIdsAsWritten(m1, siteIds, nameCondition, fetch) == AddIdRows(map[], first);
    assert FetchedRows(m1[..0], siteIds, nameCondition, fetch) == [];
    assert FetchedRows(m1, siteIds, nameCondition, fetch) == [] + first;
  }

  /**
   * For two day periods in January and February, the code as written
   * reports the January archive twice and never sees the February one;
   * the intended grouping reports each once.
   */
  lemma TwoMonthsAsWritten()
    ensures var months := [("archive_numeric_2012_01", [Period(1, "day", Jan1, Jan1, "2012-01-01")]),
                           ("archive_numeric_2012_02", [Period(1, "day", Feb1, Feb1, "2012-02-01")])];
            var wrong := ArchiveIdsAsWritten(months, [1], "done", TwoMonthFetch);
            var right := ArchiveIds(months, [1], "done", TwoMonthFetch);
            IdsAt(wrong, "done", "2012-01-01,2012-01-01") == [5, 5]
            && IdsAt(wrong, "done", "2012-02-01,2012-02-01") == []
            && IdsAt(right, "done", "2012-01-01,2012-01-01") == [5]
            && IdsAt(right, "done", "2012-02-01,2012-02-01") == [7]
  {
    var months := [("archive_numeric_2012_01", [Period(1, "day", Jan1, Jan1, "2012-01-01")]),
                   ("archive_numeric_2012_02", [Period(1, "day", Feb1, Feb1, "2012-02-01")])];
    var q0 := MonthQuery(months[0], [1], "done");
    var q1 := MonthQuery(months[1], [1], "done");
    assert q0.table == "archive_numeric_2012_01" && q1.table == "archive_numeric_2012_02";
    var r0 := [IdRow(1, "done", "2012-01-01", "2012-01-01", 5)];
    var r1 := [IdRow(1, "done", "2012-02-01", "2012-02-01", 7)];
    assert TwoMonthFetch(q0) == r0 && TwoMonthFetch(q1) == r1;
    AsWrittenTwoMonths(months, [1], "done", TwoMonthFetch);
    JanLookupsAsWritten(r0);
    JanFebLookups(r0, r1);
  }

  /** The first month's rows grouped twice: its id twice, nothing for February. */
  lemma JanLookupsAsWritten(r0: seq<IdRow>)
    requires r0 == [IdRow(1, "done", "2012-01-01", "2012-01-01", 5)]
    ensures IdsAt(AddIdRows(AddIdRows(map[], r0), r0), "done", "2012-01-01,2012-01-01") == [5, 5]
    ensures IdsAt(AddIdRows(AddIdRows(map[], r0), r0), "done", "2012-02-01,2012-02-01") == []
  {
    var jan := "2012-01-01,2012-01-01";
    var feb := "2012-02-01,2012-02-01";
    JanRowIds(r0);
    AddIdRowsLookup(map[], r0, "done", jan);
    AddIdRowsLookup(map[], r0, "done", feb);
    AddIdRowsLookup(AddIdRows(map[], r0), r0, "done", jan);
    AddIdRowsLookup(AddIdRows(map[], r0), r0, "done", feb);
  }

  /** The January row's id is listed under January only. */
  lemma JanRowIds(r0: seq<IdRow>)
    requires r0 == [IdRow(1, "done", "2012-01-01", "2012-01-01", 5)]
    ensures IdsMatching(r0, "done", "2012-01-01,2012-01-01") == [5]
    ensures IdsMatching(r0, "done", "2012-02-01,2012-02-01") == []
  {
    assert r0[..0] == [];
    assert r0[0].date1 + "," + r0[0].date2 == "2012-01-01,2012-01-01";
    assert "2012-01-01,2012-01-01"[6] != "2012-02-01,2012-02-01"[6];
  }

  /** Each month's rows grouped once: each month's id once. */
  lemma JanFebLookups(r0: seq<IdRow>, r1: seq<IdRow>)
    requires r0 == [IdRow(1, "done", "2012-01-01", "2012-01-01", 5)]
    requires r1 == [IdRow(1, "done", "2012-02-01", "2012-02-01", 7)]
    ensures IdsAt(AddIdRows(map[], r0 + r1), "done", "2012-01-01,2012-01-01") == [5]
    ensures IdsAt(AddIdRows(map[], r0 + r1), "done", "2012-02-01,2012-02-01") == [7]
  {
    var jan := "2012-01-01,2012-01-01";
    var feb := "2012-02-01,2012-02-01";
    var rs := r0 + r1;
    assert rs[..1] == r0 && rs[1] == r1[0];
    assert r1[0].date1 + "," + r1[0].date2 == feb;
    assert jan != feb by { assert jan[6] != feb[6]; }
    JanRowIds(r0);
    assert IdsMatching(rs, "done", jan) == IdsMatching(r0, "done", jan) + [];
    assert IdsMatching(rs, "done", feb) == IdsMatching(r0, "done", feb) + [7];
    AddIdRowsLookup(map[], r0 + r1, "done", jan);
    AddIdRowsLookup(map[], r0 + r1, "done", feb);
  }

  /**
   * The intended grouping: for every name and range, the ids are those of
   * the matching rows of all months' queries, month by month in row order.
   */
  lemma ArchiveIdsLookup(months: seq<(string, seq<Period>)>, siteIds: seq<int>, nameCondition: string,
                         fetch: IdQuery -> seq<IdRow>, name: string, range: string)
    requires NonEmptyMonths(months)
    ensures IdsAt(ArchiveIds(months, siteIds, nameCondition, fetch), name, range)
            == IdsMatching(FetchedRows(months, siteIds, nameCondition, fetch), name, range)
  {
    AddIdRowsLookup(map[], FetchedRows(months, siteIds, nameCondition, fetch), name, range);
  }

  // ---------------------------------------------------------------------
  // getArchiveData
  // ---------------------------------------------------------------------

  datatype ArchiveDataType = Numeric | Blob

  /** `reset($recordNames)`: the first name; an empty list gives false, read as "". */
  function FirstName(names: seq<string>): string {
    if names == [] then "" else names[0]
  }

  /**
   * The "all subtables" filter: the base name itself, or a name LIKE
   * 'base%' whose character at 1-based position `len(base) + 2` is a digit.
   */
  predicate SubtableNameMatch(base: string, name: string) {
    name == base || (Like(name, base + "%") && |name| >= |base| + 2 && IsDigit(name[|base| + 1]))
  }

  predicate NameSelected(recordNames: seq<string>, loadAllSubtables: bool, name: string) {
    if loadAllSubtables then SubtableNameMatch(FirstName(recordNames), name) else name in recordNames
  }

  /** Every subtable record `base_<id>` of a base name is selected by the filter. */
  lemma SubtableNameSelected(base: string, id: nat)
    requires '%' !in base
    ensures SubtableNameMatch(base, base + "_" + NatToString(id))
  {
    var name := base + "_" + NatToString(id);
    LikeLiteralPrefix(name, base);
    assert MatchesLiteral(name, base) by {
      assert forall i :: 0 <= i < |base| ==> name[i] == base[i];
    }
    assert name[|base| + 1] == NatToString(id)[0];
  }

  /**
   * Conversely, a selected name other than the base begins with the base
   * (each `_` of the base standing for any character), has one more
   * character, then a digit.
   */
  lemma SubtableNameShape(base: string, name: string)
    requires '%' !in base && SubtableNameMatch(base, name) && name != base
    ensures MatchesLiteral(name, base) && |name| >= |base| + 2 && IsDigit(name[|base| + 1])
  {
    LikeLiteralPrefix(name, base);
  }

  /** The table a period key names: the shard of the month of its first ten characters. */
  function TableOfRange(range: string, dataType: ArchiveDataType): string {
    if dataType == Numeric then NumericTable(TableMonthOfRange(range)) else BlobTable(TableMonthOfRange(range))
  }

  /** The rows of `shard` with one of the ids and a selected name. */
  function SelectedRows(shard: Shard, ids: seq<int>, recordNames: seq<string>, loadAllSubtables: bool): Shard {
    map k | k in shard && k.idarchive in ids && NameSelected(recordNames, loadAllSubtables, k.name) :: shard[k]
  }

  /** A period key the model can turn into a date: at least `Y-m-d`. */
  predicate IsPeriodKey(range: string) {
    |range| >= 10
  }

  /**
   * What `getArchiveData` returns: for each period key in order, the
   * selected rows of its month shard; the first key with no ids or no date
   * makes the call fail.
   */
  function ArchiveData(tables: map<string, Shard>, archiveIds: seq<(string, seq<int>)>, recordNames: seq<string>,
                       dataType: ArchiveDataType, loadAllSubtables: bool): Result<seq<Shard>>
    decreases |archiveIds|
  {
    if archiveIds == [] then Ok([])
    else
      var prior := ArchiveData(tables, archiveIds[..|archiveIds| - 1], recordNames, dataType, loadAllSubtables);
      var (range, ids) := archiveIds[|archiveIds| - 1];
      if prior.Err? then prior
      else if ids == [] then Err("Unexpected: id archive not found for period '" + range + "' '")
      else if !IsPeriodKey(range) then Err("invalid date " + range)
      else
        Ok(prior.value + [EntryRows(tables, (range, ids), recordNames, dataType, loadAllSubtables)])
  }

  /** A period key the lookup refuses: no ids, or no date. */
  predicate IsBadEntry(entry: (string, seq<int>)) {
    entry.1 == [] || !IsPeriodKey(entry.0)
  }

  /** The selected rows of one period key's month shard. */
  function EntryRows(tables: map<string, Shard>, entry: (string, seq<int>), recordNames: seq<string>,
                     dataType: ArchiveDataType, loadAllSubtables: bool): Shard {
    var table := TableOfRange(entry.0, dataType);
    SelectedRows(if table in tables then tables[table] else map[], entry.1, recordNames, loadAllSubtables)
  }

  /** `getArchiveData` fails exactly when some period key has no ids or is not a date. */
  lemma {:induction false} ArchiveDataFails(tables: map<string, Shard>, archiveIds: seq<(string, seq<int>)>,
                                            recordNames: seq<string>, dataType: ArchiveDataType, loadAllSubtables: bool)
    ensures ArchiveData(tables, archiveIds, recordNames, dataType, loadAllSubtables).Err?
            <==> exists i :: 0 <= i < |archiveIds| && IsBadEntry(archiveIds[i])
    decreases |archiveIds|
  {
    if archiveIds != [] {
      var init := archiveIds[..|archiveIds| - 1];
      ArchiveDataFails(tables, init, recordNames, dataType, loadAllSubtables);
      if i :| 0 <= i < |init| && IsBadEntry(init[i]) {
        assert archiveIds[i] == init[i];
      }
      if i :| 0 <= i < |archiveIds| && IsBadEntry(archiveIds[i]) {
        if i < |init| {
          assert init[i] == archiveIds[i];
        }
      }
    }
  }

  /**
   * When it succeeds, `getArchiveData` returns, per period key and in key
   * order, the rows of that key's month shard whose idarchive is listed and
   * whose name is selected.
   */
  lemma {:induction false} ArchiveDataRows(tables: map<string, Shard>, archiveIds: seq<(string, seq<int>)>,
                                           recordNames: seq<string>, dataType: ArchiveDataType, loadAllSubtables: bool)
    requires ArchiveData(tables, archiveIds, recordNames, dataType, loadAllSubtables).Ok?
    ensures var rows := ArchiveData(tables, archiveIds, recordNames, dataType, loadAllSubtables).value;
            |rows| == |archiveIds|
            && forall i :: 0 <= i < |archiveIds| ==> rows[i] == EntryRows(tables, archiveIds[i], recordNames, dataType, loadAllSubtables)
    decreases |archiveIds|
  {
    if archiveIds != [] {
      var init := archiveIds[..|archiveIds| - 1];
      ArchiveDataLast(tables, archiveIds, recordNames, dataType, loadAllSubtables);
      ArchiveDataRows(tables, init, recordNames, dataType, loadAllSubtables);
      var rows := ArchiveData(tables, archiveIds, recordNames, dataType, loadAllSubtables).value;
      forall i | 0 <= i < |archiveIds|
        ensures rows[i] == EntryRows(tables, archiveIds[i], recordNames, dataType, loadAllSubtables)
      {
        if i < |init| {
          assert init[i] == archiveIds[i];
        }
      }
    }
  }

  /** A successful lookup is the lookup of all keys but the last, followed by the last key's rows. */
  lemma ArchiveDataLast(tables: map<string, Shard>, archiveIds: seq<(string, seq<int>)>,
                        recordNames: seq<string>, dataType: ArchiveDataType, loadAllSubtables: bool)
    requires archiveIds != []
    requires ArchiveData(tables, archiveIds, recordNames, dataType, loadAllSubtables).Ok?
    ensures var prior := ArchiveData(tables, archiveIds[..|archiveIds| - 1], recordNames, dataType, loadAllSubtables);
            prior.Ok?
            && ArchiveData(tables, archiveIds, recordNames, dataType, loadAllSubtables).value
               == prior.value + [EntryRows(tables, archiveIds[|archiveIds| - 1], recordNames, dataType, loadAllSubtables)]
  {
  }

  /**
   * `getArchiveData`: for each period key, select from that month's shard
   * the rows of the listed ids whose name passes the name filter.
   */
  method GetArchiveData(db: ArchiveTables, archiveIds: seq<(string, seq<int>)>, recordNames: seq<string>,
                        dataType: ArchiveDataType, loadAllSubtables: bool) returns (r: Result<seq<Shard>>)
    ensures r == ArchiveData(db.tables, archiveIds, recordNames, dataType, loadAllSubtables)
  {
    var rows: seq<Shard> := [];
    var i := 0;
    while i < |archiveIds|
      invariant 0 <= i <= |archiveIds|
      invariant ArchiveData(db.tables, archiveIds[..i], recordNames, dataType, loadAllSubtables) == Ok(rows)
    {
      ArchiveDataStep(db.tables, archiveIds, i, rows, recordNames, dataType, loadAllSubtables);
      var (range, ids) := archiveIds[i];
      if ids == [] {
        r := Err("Unexpected: id archive not found for period '" + range + "' '");
        ArchiveDataStopsAtError(db.tables, archiveIds, i + 1, recordNames, dataType, loadAllSubtables);
        return;
      }
      if !IsPeriodKey(range) {
        r := Err("invalid date " + range);
        ArchiveDataStopsAtError(db.tables, archiveIds, i + 1, recordNames, dataType, loadAllSubtables);
        return;
      }
      var table := TableOfRange(range, dataType);
      rows := rows + [SelectedRows(db.ShardOf(table), ids, recordNames, loadAllSubtables)];
      i := i + 1;
    }
    assert archiveIds[..i] == archiveIds;
    r := Ok(rows);
  }

  /** One more period key: it fails the lookup, or adds its rows. */
  lemma ArchiveDataStep(tables: map<string, Shard>, archiveIds: seq<(string, seq<int>)>, i: nat, rows: seq<Shard>,
                        recordNames: seq<string>, dataType: ArchiveDataType, loadAllSubtables: bool)
    requires i < |archiveIds|
    requires ArchiveData(tables, archiveIds[..i], recordNames, dataType, loadAllSubtables) == Ok(rows)
    ensures var (range, ids) := archiveIds[i];
            var table := TableOfRange(range, dataType);
            ArchiveData(tables, archiveIds[..i + 1], recordNames, dataType, loadAllSubtables)
            == if ids == [] then Err("Unexpected: id archive not found for period '" + range + "' '")
               else if !IsPeriodKey(range) then Err("invalid date " + range)
               else Ok(rows + [SelectedRows(ShardIn(tables, table), ids, recordNames, loadAllSubtables)])
  {
    assert archiveIds[..i + 1][..i] == archiveIds[..i];
  }

  /** Once a prefix fails, the whole lookup fails with the same error. */
  lemma {:induction false} ArchiveDataStopsAtError(tables: map<string, Shard>, archiveIds: seq<(string, seq<int>)>, n: nat,
                                                   recordNames: seq<string>, dataType: ArchiveDataType, loadAllSubtables: bool)
    requires n <= |archiveIds|
    requires ArchiveData(tables, archiveIds[..n], recordNames, dataType, loadAllSubtables).Err?
    ensures ArchiveData(tables, archiveIds, recordNames, dataType, loadAllSubtables)
            == ArchiveData(tables, archiveIds[..n], recordNames, dataType, loadAllSubtables)
    decreases |archiveIds| - n
  {
    if n < |archiveIds| {
      assert archiveIds[..n + 1][..n] == archiveIds[..n];
      ArchiveDataStopsAtError(tables, archiveIds, n + 1, recordNames, dataType, loadAllSubtables);
    } else {
      assert archiveIds[..n] == archiveIds;
    }
  }

  // ---------------------------------------------------------------------
  // Shard creation, lock names, blob tables
  // ---------------------------------------------------------------------

  /**
   * `getPartitionTableSql`: in the template's CREATE statement, the template
   * table name (prefix + name) becomes the generated name, then
   * `CREATE TABLE` becomes `CREATE TABLE IF NOT EXISTS`.
   */
  function PartitionTableSql(prefix: string, tableName: string, generatedTableName: string, createSql: string): string {
    ReplaceAll(ReplaceAll(createSql, prefix + tableName, generatedTableName), "CREATE TABLE", "CREATE TABLE IF NOT EXISTS")
  }

  /**
   * For a template `CREATE TABLE `<prefix><name>` <body>` whose body does not
   * mention the template name or `CREATE TABLE` again, the statement creates
   * the generated table only if it does not exist yet.
   */
  lemma PartitionTableSqlOfTemplate(prefix: string, tableName: string, generatedTableName: string, body: string)
    requires prefix + tableName != [] && (prefix + tableName)[0] !in "CREATE TABLE `"
    requires !Contains("`" + body, prefix + tableName)
    requires !Contains(" `" + generatedTableName + "`" + body, "CREATE TABLE")
    ensures PartitionTableSql(prefix, tableName, generatedTableName, "CREATE TABLE `" + prefix + tableName + "`" + body)
            == "CREATE TABLE IF NOT EXISTS `" + generatedTableName + "`" + body
  {
    var src := prefix + tableName;
    var pre := "CREATE TABLE `";
    var rest := " `" + generatedTableName + "`" + body;
    var mid := ReplaceAll(pre + prefix + tableName + "`" + body, src, generatedTableName);
    assert mid == "" + "CREATE TABLE" + rest by {
      assert pre + prefix + tableName + "`" + body == pre + src + ("`" + body);
      ReplaceAllSingle(pre, src, "`" + body, generatedTableName);
      assert pre + generatedTableName + ("`" + body) == "" + "CREATE TABLE" + rest;
    }
    assert ReplaceAll(mid, "CREATE TABLE", "CREATE TABLE IF NOT EXISTS") == "" + "CREATE TABLE IF NOT EXISTS" + rest by {
      assert "CREATE TABLE"[0] !in "";
      ReplaceAllSingle("", "CREATE TABLE", rest, "CREATE TABLE IF NOT EXISTS");
    }
    assert "" + "CREATE TABLE IF NOT EXISTS" + rest == "CREATE TABLE IF NOT EXISTS `" + generatedTableName + "`" + body;
  }

  /** The part of the processing lock name before the hash. */
  function LockNameBase(dbname: string, prefix: string, idsite: int, segmentEmpty: bool, segmentHash: string, period: Period): string {
    "piwik." + dbname + "." + prefix + "/"
    + IntToString(idsite) + "/"
    + (if !segmentEmpty then segmentHash + "/" else "")
    + IntToString(period.id) + "/"
    + RangeString(period)
  }

  /** `getProcessingLockName`: the base name, `/`, and the hash of the base name with the salt. */
  function ProcessingLockName(dbname: string, prefix: string, idsite: int, segmentEmpty: bool, segmentHash: string,
                              period: Period, salt: string, md5: string -> string): string {
    var base := LockNameBase(dbname, prefix, idsite, segmentEmpty, segmentHash, period);
    base + "/" + md5(base + salt)
  }

  /** No `/` occurs in the decimal rendering of an integer. */
  lemma NoSlashInInt(i: int)
    ensures '/' !in IntToString(i)
  {
    IntToStringChars(i);
  }

  /**
   * When the database name and table prefix contain no `/`, the second
   * `/`-separated field of the lock name is the site id, and the third is
   * the segment hash for a non-empty segment, or the period id otherwise.
   */
  lemma LockNameFields(dbname: string, prefix: string, idsite: int, segmentEmpty: bool, segmentHash: string,
                       period: Period, salt: string, md5: string -> string)
    requires '/' !in dbname && '/' !in prefix && '/' !in segmentHash
    ensures var parts := Split(ProcessingLockName(dbname, prefix, idsite, segmentEmpty, segmentHash, period, salt, md5), '/');
            |parts| >= 3
            && parts[0] == "piwik." + dbname + "." + prefix
            && parts[1] == IntToString(idsite)
            && parts[2] == (if segmentEmpty then IntToString(period.id) else segmentHash)
  {
    var head := "piwik." + dbname + "." + prefix;
    var site := IntToString(idsite);
    var pid := IntToString(period.id);
    var base := LockNameBase(dbname, prefix, idsite, segmentEmpty, segmentHash, period);
    var hash := md5(base + salt);
    var range := RangeString(period);
    NoSlashInInt(idsite);
    NoSlashInInt(period.id);
    if segmentEmpty {
      assert base + "/" + hash == head + "/" + site + "/" + pid + "/" + (range + "/" + hash);
      LeadingFields(head, site, pid, range + "/" + hash);
    } else {
      assert base + "/" + hash == head + "/" + site + "/" + segmentHash + "/" + (pid + "/" + range + "/" + hash);
      LeadingFields(head, site, segmentHash, pid + "/" + range + "/" + hash);
    }
  }

  /** The first three fields of `a/b/c/rest` split on `/`. */
  lemma LeadingFields(a: string, b: string, c: string, rest: string)
    requires '/' !in a && '/' !in b && '/' !in c
    ensures var parts := Split(a + "/" + b + "/" + c + "/" + rest, '/');
            |parts| >= 3 && parts[0] == a && parts[1] == b && parts[2] == c
  {
    assert a + "/" + b + "/" + c + "/" + rest == a + ['/'] + (b + ['/'] + (c + ['/'] + rest));
    SplitAfterPart(a, b + ['/'] + (c + ['/'] + rest), '/');
    SplitAfterPart(b, c + ['/'] + rest, '/');
    SplitAfterPart(c, rest, '/');
  }

  /** Processing locks of different sites have different names. */
  lemma LockNamesDistinctPerSite(dbname: string, prefix: string, site1: int, site2: int, segmentEmpty: bool, segmentHash: string,
                                 period: Period, salt: string, md5: string -> string)
    requires '/' !in dbname && '/' !in prefix && '/' !in segmentHash
    requires site1 != site2
    ensures ProcessingLockName(dbname, prefix, site1, segmentEmpty, segmentHash, period, salt, md5)
            != ProcessingLockName(dbname, prefix, site2, segmentEmpty, segmentHash, period, salt, md5)
  {
    LockNameFields(dbname, prefix, site1, segmentEmpty, segmentHash, period, salt, md5);
    LockNameFields(dbname, prefix, site2, segmentEmpty, segmentHash, period, salt, md5);
    if IntToString(site1) == IntToString(site2) {
      IntToStringInjective(site1, site2);
    }
  }

  /** `confirmBlobTable`: only blob tables are accepted. */
  function ConfirmBlobTable(table: string): (r: Outcome)
    ensures r.Success? <==> IsBlob(table)
  {
    if IsBlob(table) then Success else Failure("Table is " + table + ". Only  blob tables are allowed")
  }

  /** A month's blob shard is accepted and its numeric shard refused. */
  lemma ConfirmBlobTableOfShards(ym: string)
    requires IsMonthSuffix(ym)
    ensures ConfirmBlobTable(BlobTable(ym)).Success?
    ensures ConfirmBlobTable(NumericTable(ym)).Failure?
  {
    BlobTableIsBlob(ym);
    NumericTableIsNotBlob(ym);
  }
}
