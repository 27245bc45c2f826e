/**
 * `Piwik_Archive`: the object that answers a request for archived values
 * over a list of sites and a list of periods. It finds (or launches the
 * computation of) the archive ids month by month, reads the rows of those
 * archives into buckets by site and period, keeps a cache of the blobs it
 * read, and shapes the result by the number of sites and periods.
 *
 * Everything the object asks of the outside world (the archiving process,
 * the site creation dates, today's date, the SQL queries, decompression and
 * float casting) is a field of an `Env` value given to the methods.
 */
module ArchiveReading {
  import opened Wrappers
  import opened Php
  import opened Periods
  import opened Assoc
  import opened ArchiveQuery

  /** `'archive_numeric'` or `'archive_blob'`. */
  datatype TableType = NumericType | BlobType

  /** `$this->blobCache[$idSite][$range][$name]`. */
  datatype BlobKey = BlobKey(idSite: int, range: string, name: string)

  /** `$this->idarchives[$cacheKey][$idSite][$range]`. */
  datatype CacheKey = CacheKey(key: string, idSite: int, range: string)

  /** One archiving job of `getArchiveIdsAfterLaunching`: a report for a site and a period of a month. */
  datatype Job = Job(month: string, idSite: int, period: Period, report: string)

  /** A row of `getArchiveIdsWithoutLaunching`'s query. */
  datatype LatestRow = LatestRow(idsite: int, date1: string, date2: string, idarchive: int)

  /** A row of `get`'s query. */
  datatype ValueRow = ValueRow(name: string, value: Value, idsite: int, date1: string, date2: string)

  /** Which names `get`'s query selects: the requested ones, or a report and all its subtables. */
  datatype NameSelection = NamesIn(names: seq<string>) | WithSubtables(name: string)

  /**
   * The outside world. `loadArchive` gives 0 when no usable archive exists;
   * `launchArchiving` gives the id of the archive it computed; `someVisits`
   * is the processing's `isThereSomeVisits` after either.
   */
  datatype Env = Env(
    coreMetrics: seq<string>,
    pluginBeingProcessed: string -> string,
    archivingDisabled: bool,
    loadArchive: Job -> int,
    launchArchiving: Job -> int,
    someVisits: Job -> bool,
    creationDay: int -> int,
    today: int,
    tablesInstalled: set<string>,
    latestIds: (string, seq<Period>, seq<string>) -> seq<LatestRow>,
    values: (string, seq<int>, NameSelection) -> seq<ValueRow>,
    uncompress: Value -> Value,
    floatCast: Value -> Value)

  /** `getPeriodsByTableMonth`'s key: `Y_m` of the first day. */
  function PeriodMonth(p: Period): string {
    YearMonth(p.start)
  }

  // ---------------------------------------------------------------------
  // getArchiveIdsAfterLaunching, as a list of jobs
  // ---------------------------------------------------------------------

  /** A period ending more than two days before the site was created, or starting more than two days after today. */
  predicate Skipped(idSite: int, p: Period, env: Env) {
    p.end.ordinal + 2 < env.creationDay(idSite) || p.start.ordinal - 2 > env.today
  }

  function ReportJobs(month: string, idSite: int, p: Period, reports: seq<string>): (r: seq<Job>)
    ensures |r| == |reports|
    ensures forall i :: 0 <= i < |reports| ==> r[i] == Job(month, idSite, p, reports[i])
  {
    seq(|reports|, i requires 0 <= i < |reports| => Job(month, idSite, p, reports[i]))
  }

  function PeriodJobs(month: string, idSite: int, ps: seq<Period>, reports: seq<string>, env: Env): seq<Job>
    decreases |ps|
  {
    if ps == [] then []
    else
      var p := ps[|ps| - 1];
      PeriodJobs(month, idSite, ps[..|ps| - 1], reports, env)
      + (if Skipped(idSite, p, env) then [] else ReportJobs(month, idSite, p, reports))
  }

  function SiteJobs(month: string, sites: seq<int>, ps: seq<Period>, reports: seq<string>, env: Env): seq<Job>
    decreases |sites|
  {
    if sites == [] then []
    else SiteJobs(month, sites[..|sites| - 1], ps, reports, env) + PeriodJobs(month, sites[|sites| - 1], ps, reports, env)
  }

  /** One more period adds its report jobs, unless it is skipped. */
  lemma PeriodJobsStep(month: string, idSite: int, ps: seq<Period>, i: nat, reports: seq<string>, env: Env)
    requires i < |ps|
    ensures PeriodJobs(month, idSite, ps[..i + 1], reports, env)
            == PeriodJobs(month, idSite, ps[..i], reports, env) + (if Skipped(idSite, ps[i], env) then [] else ReportJobs(month, idSite, ps[i], reports))
  {
    assert ps[..i + 1][..i] == ps[..i];
  }

  /** All jobs, month by month, site by site, period by period, report by report. */
  function MonthJobs(groups: seq<(string, seq<Period>)>, sites: seq<int>, reports: seq<string>, env: Env): seq<Job>
    decreases |groups|
  {
    if groups == [] then []
    else
      var (month, ps) := groups[|groups| - 1];
      MonthJobs(groups[..|groups| - 1], sites, reports, env) + SiteJobs(month, sites, ps, reports, env)
  }

  /** The id a job ends with: the loaded archive, or the one archiving produced. */
  function IdOf(job: Job, env: Env): int {
    if env.loadArchive(job) != 0 then env.loadArchive(job) else env.launchArchiving(job)
  }

  /** `$result[$tableMonth][] = $idArchive` for every job. */
  function IdsByMonth(jobs: seq<Job>, env: Env): seq<(string, seq<int>)>
    decreases |jobs|
  {
    if jobs == [] then []
    else
      var job := jobs[|jobs| - 1];
      Append(IdsByMonth(jobs[..|jobs| - 1], env), job.month, IdOf(job, env))
  }

  /** The jobs whose archive had to be computed. */
  function Launched(jobs: seq<Job>, env: Env): seq<Job>
    decreases |jobs|
  {
    if jobs == [] then []
    else
      var job := jobs[|jobs| - 1];
      Launched(jobs[..|jobs| - 1], env) + (if env.loadArchive(job) == 0 then [job] else [])
  }

  /** Archiving is launched for exactly the jobs that found no usable archive. */
  lemma {:induction false} LaunchedExactly(jobs: seq<Job>, env: Env)
    ensures forall j :: j in Launched(jobs, env) <==> j in jobs && env.loadArchive(j) == 0
    decreases |jobs|
  {
    if jobs != [] {
      LaunchedExactly(jobs[..|jobs| - 1], env);
      assert jobs == jobs[..|jobs| - 1] + [jobs[|jobs| - 1]];
    }
  }

  /** `getArchiveCacheKey`: the plugin of the report for a range period, "all" otherwise. */
  function ArchiveCacheKey(report: string, periodLabel: string, env: Env): string {
    if periodLabel == "range" then env.pluginBeingProcessed(RequestedReport(report, env.coreMetrics)) else "all"
  }

  /** The id cache after the jobs: each (key, site, period) holds the visits flag and id of its last job. */
  function CacheAfter(cache: map<CacheKey, (bool, int)>, jobs: seq<Job>, periodLabel: string, env: Env): map<CacheKey, (bool, int)>
    decreases |jobs|
  {
    if jobs == [] then cache
    else
      var job := jobs[|jobs| - 1];
      CacheAfter(cache, jobs[..|jobs| - 1], periodLabel, env)
        [CacheKey(ArchiveCacheKey(job.report, periodLabel, env), job.idSite, RangeString(job.period))
           := (env.someVisits(job), IdOf(job, env))]
  }

  // ---------------------------------------------------------------------
  // getArchiveIdsWithoutLaunching
  // ---------------------------------------------------------------------

  /** The ids of the rows of one month's query. */
  function LatestIdsOf(rows: seq<LatestRow>): (r: seq<int>)
    ensures |r| == |rows|
    ensures forall i :: 0 <= i < |rows| ==> r[i] == rows[i].idarchive
  {
    seq(|rows|, i requires 0 <= i < |rows| => rows[i].idarchive)
  }

  /** `$this->idarchives['all'][$idSite][$dateStr] = array(true, $idarchive)` for each row. */
  function CacheLatest(cache: map<CacheKey, (bool, int)>, rows: seq<LatestRow>): map<CacheKey, (bool, int)>
    decreases |rows|
  {
    if rows == [] then cache
    else
      var row := rows[|rows| - 1];
      CacheLatest(cache, rows[..|rows| - 1])[CacheKey("all", row.idsite, row.date1 + "," + row.date2) := (true, row.idarchive)]
  }

  /** The months whose numeric table exists, with the ids their query gives, skipping months without ids. */
  function LatestByMonth(groups: seq<(string, seq<Period>)>, names: seq<string>, env: Env): seq<(string, seq<int>)>
    decreases |groups|
  {
    if groups == [] then []
    else
      var (month, ps) := groups[|groups| - 1];
      var r := LatestByMonth(groups[..|groups| - 1], names, env);
      var table := "archive_numeric_" + month;
      if table !in env.tablesInstalled then r
      else
        var ids := LatestIdsOf(env.latestIds(table, ps, names));
        if ids == [] then r else Put(r, month, ids)
  }

  /** The id cache after every installed month's query. */
  function CacheLatestByMonth(cache: map<CacheKey, (bool, int)>, groups: seq<(string, seq<Period>)>, names: seq<string>, env: Env)
    : map<CacheKey, (bool, int)>
    decreases |groups|
  {
    if groups == [] then cache
    else
      var (month, ps) := groups[|groups| - 1];
      var c := CacheLatestByMonth(cache, groups[..|groups| - 1], names, env);
      var table := "archive_numeric_" + month;
      if table !in env.tablesInstalled then c else CacheLatest(c, env.latestIds(table, ps, names))
  }

  // ---------------------------------------------------------------------
  // get: the rows read into buckets
  // ---------------------------------------------------------------------

  /** The state `get` builds: the buckets and the blob cache. */
  datatype Reading = Reading(buckets: Buckets, cache: map<BlobKey, Value>)

  /**
   * One row of `get`'s query: its bucket is created with every requested
   * name at 0 if new; then its value is stored (cast to float for numeric
   * tables, decompressed for blobs) unless in "all subtables" mode on a
   * numeric table, and in that mode blobs also go to the cache.
   */
  function ReadRow(state: Reading, row: ValueRow, names: seq<string>, tableType: TableType, notAll: bool, env: Env): Reading {
    var key := (row.idsite, row.date1 + "," + row.date2);
    var buckets := if key in state.buckets then state.buckets else state.buckets[key := ZeroBucket(names)];
    if notAll then
      var value := if tableType == NumericType then env.floatCast(row.value) else env.uncompress(row.value);
      Reading(buckets[key := Put(buckets[key], row.name, value)], state.cache)
    else if tableType == BlobType then
      var value := env.uncompress(row.value);
      Reading(buckets[key := Put(buckets[key], row.name, value)],
              state.cache[BlobKey(row.idsite, row.date1 + "," + row.date2, row.name) := value])
    else Reading(buckets, state.cache)
  }

  function ReadRows(state: Reading, rows: seq<ValueRow>, names: seq<string>, tableType: TableType, notAll: bool, env: Env)
    : Reading
    decreases |rows|
  {
    if rows == [] then state
    else ReadRow(ReadRows(state, rows[..|rows| - 1], names, tableType, notAll, env), rows[|rows| - 1], names, tableType, notAll, env)
  }

  /** The name of a month's table of the given type. */
  function TableName(tableType: TableType, month: string): string {
    (if tableType == NumericType then "archive_numeric" else "archive_blob") + "_" + month
  }

  /** All rows the months' queries return, month after month. */
  function FetchedValues(archiveIds: seq<(string, seq<int>)>, tableType: TableType, selection: NameSelection, env: Env)
    : seq<ValueRow>
    decreases |archiveIds|
  {
    if archiveIds == [] then []
    else
      var (month, ids) := archiveIds[|archiveIds| - 1];
      FetchedValues(archiveIds[..|archiveIds| - 1], tableType, selection, env) + env.values(TableName(tableType, month), ids, selection)
  }

  /** Reading a list of rows in two parts is reading them in one go. */
  lemma {:induction false} ReadRowsAppend(state: Reading, a: seq<ValueRow>, b: seq<ValueRow>, names: seq<string>,
                                          tableType: TableType, notAll: bool, env: Env)
    ensures ReadRows(ReadRows(state, a, names, tableType, notAll, env), b, names, tableType, notAll, env)
            == ReadRows(state, a + b, names, tableType, notAll, env)
    decreases |b|
  {
    if b == [] {
      assert a + b == a;
    } else {
      ReadRowsAppend(state, a, b[..|b| - 1], names, tableType, notAll, env);
      assert (a + b)[..|a + b| - 1] == a + b[..|b| - 1];
    }
  }

  // ---------------------------------------------------------------------
  // checkBlobCache, as a function
  // ---------------------------------------------------------------------

  /** `$result[$idSite][$range][$name] = $value`. */
  function Store(result: Buckets, idSite: int, range: string, name: string, value: Value): Buckets {
    result[(idSite, range) := Put(if (idSite, range) in result then result[(idSite, range)] else [], name, value)]
  }

  /** The names of one site and period, copied one by one until the first one missing from the cache. */
  function CheckNames(cache: map<BlobKey, Value>, idSite: int, range: string, names: seq<string>, result: Buckets)
    : (bool, Buckets)
    decreases |names|
  {
    if names == [] then (true, result)
    else if BlobKey(idSite, range, names[0]) !in cache then (false, result)
    else CheckNames(cache, idSite, range, names[1..], Store(result, idSite, range, names[0], cache[BlobKey(idSite, range, names[0])]))
  }

  /** Every period of one site, stopping at the first miss. */
  function CheckPeriods(cache: map<BlobKey, Value>, idSite: int, ps: seq<(string, Period)>, names: seq<string>, result: Buckets)
    : (bool, Buckets)
    decreases |ps|
  {
    if ps == [] then (true, result)
    else
      var r := CheckNames(cache, idSite, ps[0].0, names, result);
      if !r.0 then r else CheckPeriods(cache, idSite, ps[1..], names, r.1)
  }

  /** Every site, stopping at the first miss: the flag and the partly or fully filled result. */
  function CheckSites(cache: map<BlobKey, Value>, sites: seq<int>, ps: seq<(string, Period)>, names: seq<string>, result: Buckets)
    : (bool, Buckets)
    decreases |sites|
  {
    if sites == [] then (true, result)
    else
      var r := CheckPeriods(cache, sites[0], ps, names, result);
      if !r.0 then r else CheckSites(cache, sites[1..], ps, names, r.1)
  }

  /** Every requested (site, period, name) is in the blob cache. */
  predicate AllCached(cache: map<BlobKey, Value>, sites: seq<int>, ps: seq<(string, Period)>, names: seq<string>) {
    forall s, i, n :: s in sites && 0 <= i < |ps| && n in names ==> BlobKey(s, ps[i].0, n) in cache
  }

  /** Every value of the buckets is the cached blob of its site, period and name. */
  predicate FromCache(cache: map<BlobKey, Value>, result: Buckets) {
    forall k, j :: k in result && 0 <= j < |result[k]| ==>
      BlobKey(k.0, k.1, result[k][j].0) in cache && cache[BlobKey(k.0, k.1, result[k][j].0)] == result[k][j].1
  }

  /** The bucket of a (site, period) holds the cached blob of a name. */
  predicate Copied(cache: map<BlobKey, Value>, result: Buckets, s: int, d: string, n: string) {
    (s, d) in result && BlobKey(s, d, n) in cache && Find(result[(s, d)], n) == Some(cache[BlobKey(s, d, n)])
  }

  /** Copying one cached blob keeps the buckets cached, copies it, and keeps what was copied. */
  lemma CopyKeeps(cache: map<BlobKey, Value>, before: Buckets, s: int, d: string, n: string)
    requires BlobKey(s, d, n) in cache
    requires FromCache(cache, before)
    ensures var after := Store(before, s, d, n, cache[BlobKey(s, d, n)]);
            FromCache(cache, after) && Copied(cache, after, s, d, n)
            && forall s', d', n' :: Copied(cache, before, s', d', n') ==> Copied(cache, after, s', d', n')
  {
    var v := cache[BlobKey(s, d, n)];
    var bucket := if (s, d) in before then before[(s, d)] else [];
    var after: Buckets := Store(before, s, d, n, v);
    PutElems(bucket, n, v);
    forall k: (int, string), j | k in after && 0 <= j < |after[k]|
      ensures BlobKey(k.0, k.1, after[k][j].0) in cache && cache[BlobKey(k.0, k.1, after[k][j].0)] == after[k][j].1
    {
      if k == (s, d) && after[k][j] != (n, v) {
        var j' :| 0 <= j' < |bucket| && bucket[j'] == after[k][j];
      }
    }
    PutFind(bucket, n, v, n);
    forall s', d', n' | Copied(cache, before, s', d', n') ensures Copied(cache, after, s', d', n') {
      if (s', d') == (s, d) {
        PutFind(bucket, n, v, n');
      }
    }
  }

  /** The innermost loop of `checkBlobCache`: the names of one site and period. */
  method CheckNamesLoop(cache: map<BlobKey, Value>, idSite: int, range: string, names: seq<string>, result0: Buckets)
    returns (found: bool, result: Buckets)
    requires FromCache(cache, result0)
    ensures (found, result) == CheckNames(cache, idSite, range, names, result0)
    ensures FromCache(cache, result)
    ensures forall s, d, n :: Copied(cache, result0, s, d, n) ==> Copied(cache, result, s, d, n)
    ensures found <==> forall n :: n in names ==> BlobKey(idSite, range, n) in cache
    ensures found ==> forall n :: n in names ==> Copied(cache, result, idSite, range, n)
  {
    result := result0;
    var c := 0;
    while c < |names|
      invariant 0 <= c <= |names|
      invariant CheckNames(cache, idSite, range, names, result0) == CheckNames(cache, idSite, range, names[c..], result)
      invariant FromCache(cache, result)
      invariant forall s, d, n :: Copied(cache, result0, s, d, n) ==> Copied(cache, result, s, d, n)
      invariant forall n :: n in names[..c] ==> Copied(cache, result, idSite, range, n)
    {
      var key := BlobKey(idSite, range, names[c]);
      if key !in cache {
        assert names[c] in names;
        return false, result;
      }
      assert names[c..][1..] == names[c + 1..];
      CopyKeeps(cache, result, idSite, range, names[c]);
      result := Store(result, idSite, range, names[c], cache[key]);
      assert names[..c + 1] == names[..c] + [names[c]];
      c := c + 1;
    }
    assert names[..c] == names;
    found := true;
  }

  /** The middle loop of `checkBlobCache`: every period of one site. */
  method CheckPeriodsLoop(cache: map<BlobKey, Value>, idSite: int, ps: seq<(string, Period)>, names: seq<string>, result0: Buckets)
    returns (found: bool, result: Buckets)
    requires FromCache(cache, result0)
    ensures (found, result) == CheckPeriods(cache, idSite, ps, names, result0)
    ensures FromCache(cache, result)
    ensures forall s, d, n :: Copied(cache, result0, s, d, n) ==> Copied(cache, result, s, d, n)
    ensures found <==> forall i, n :: 0 <= i < |ps| && n in names ==> BlobKey(idSite, ps[i].0, n) in cache
    ensures found ==> forall i, n :: 0 <= i < |ps| && n in names ==> Copied(cache, result, idSite, ps[i].0, n)
  {
    result := result0;
    var b := 0;
    while b < |ps|
      invariant 0 <= b <= |ps|
      invariant CheckPeriods(cache, idSite, ps, names, result0) == CheckPeriods(cache, idSite, ps[b..], names, result)
      invariant FromCache(cache, result)
      invariant forall s, d, n :: Copied(cache, result0, s, d, n) ==> Copied(cache, result, s, d, n)
      invariant forall i, n :: 0 <= i < b && n in names ==> Copied(cache, result, idSite, ps[i].0, n)
    {
      assert ps[b..][1..] == ps[b + 1..];
      var ok;
      ok, result := CheckNamesLoop(cache, idSite, ps[b].0, names, result);
      if !ok {
        return false, result;
      }
      b := b + 1;
    }
    found := true;
  }

  /** The outer loop of `checkBlobCache`: every site. */
  method CheckSitesLoop(cache: map<BlobKey, Value>, sites: seq<int>, ps: seq<(string, Period)>, names: seq<string>)
    returns (found: bool, result: Buckets)
    ensures (found, result) == CheckSites(cache, sites, ps, names, map[])
    ensures FromCache(cache, result)
    ensures found <==> AllCached(cache, sites, ps, names)
    ensures found ==> forall s, i, n :: s in sites && 0 <= i < |ps| && n in names ==> Copied(cache, result, s, ps[i].0, n)
  {
    result := map[];
    var a := 0;
    while a < |sites|
      invariant 0 <= a <= |sites|
      invariant CheckSites(cache, sites, ps, names, map[]) == CheckSites(cache, sites[a..], ps, names, result)
      invariant FromCache(cache, result)
      invariant forall s, i, n :: s in sites[..a] && 0 <= i < |ps| && n in names ==> Copied(cache, result, s, ps[i].0, n)
    {
      assert sites[a..][1..] == sites[a + 1..];
      var ok;
      ok, result := CheckPeriodsLoop(cache, sites[a], ps, names, result);
      if !ok {
        assert sites[a] in sites;
        return false, result;
      }
      assert sites[..a + 1] == sites[..a] + [sites[a]];
      a := a + 1;
    }
    assert sites[..a] == sites;
    found := true;
  }

  /** The selection of `get`'s query: in "all subtables" mode, the last requested name and its subtables. */
  function Selection(names: seq<string>, sub: SubtableArg): NameSelection {
    if NotAll(sub) then NamesIn(names) else WithSubtables(if names == [] then "" else names[|names| - 1])
  }

  /**
   * The names `get` goes on with after its defaults loop, as written. The
   * loop that appends the subtable id runs over the names by reference and
   * leaves `$name` bound to the last slot; the defaults loop then reads the
   * names by value into that same `$name`, writing each in turn into the
   * last slot, which ends up holding the name before it. `aliased` says
   * whether the reference loop ran (a subtable id other than "all").
   */
  function AliasedNames(requested: seq<string>, aliased: bool): seq<string> {
    if aliased && |requested| >= 2 then requested[|requested| - 1 := requested[|requested| - 2]] else requested
  }

  /** What the last slot holds before the defaults loop reads name `i`, as written. */
  function LastSlotBefore(requested: seq<string>, i: nat): string
    requires requested != []
  {
    var last := |requested| - 1;
    if i == 0 then requested[last]
    else if i - 1 < last then requested[i - 1]
    else if last >= 1 then requested[last - 1]
    else requested[last]
  }

  /**
   * The defaults loop of `get` as written: with the alias in place, every
   * name read is written into the last slot.
   */
  method DefaultsLoopAsWritten(requested: seq<string>, aliased: bool) returns (names: seq<string>)
    ensures names == AliasedNames(requested, aliased)
  {
    names := requested;
    if !aliased || requested == [] {
      return;
    }
    var last := |names| - 1;
    var i := 0;
    while i < |names|
      invariant 0 <= i <= |names| == |requested|
      invariant forall j :: 0 <= j < last ==> names[j] == requested[j]
      invariant names[last] == LastSlotBefore(requested, i)
    {
      names := names[last := names[i]];
      i := i + 1;
    }
    assert names == AliasedNames(requested, aliased);
  }

  lemma SuffixCancels(a: string, b: string, suffix: string)
    requires a + suffix == b + suffix
    ensures a == b
  {
    assert |a| == |b|;
    assert a == (a + suffix)[..|a|];
    assert b == (b + suffix)[..|b|];
  }

  /**
   * As written, a subtable request for two or more names whose last name
   * differs from the others loses that name: the default values, the
   * `IN (...)` list and its binds, all built from `AliasedNames`, never
   * mention its suffixed form, although it was requested.
   */
  lemma SubtableNameLostAsWritten(names: seq<string>, id: int)
    requires id != 0 && |names| >= 2
    requires forall j :: 0 <= j < |names| - 1 ==> names[j] != names[|names| - 1]
    ensures var requested := NamesFor(names, SubtableId(id));
            var lost := names[|names| - 1] + "_" + IntToString(id);
            lost in requested && lost !in AliasedNames(requested, true)
  {
    var requested := NamesFor(names, SubtableId(id));
    var last := |names| - 1;
    assert |requested| - 1 == last;
    SuffixedDistinct(names, id);
    LastLost(requested);
    assert requested[last] == names[last] + "_" + IntToString(id);
  }

  /** Appending the same suffix keeps the last name apart from the others. */
  lemma SuffixedDistinct(names: seq<string>, id: int)
    requires id != 0 && |names| >= 2
    requires forall j :: 0 <= j < |names| - 1 ==> names[j] != names[|names| - 1]
    ensures var requested := NamesFor(names, SubtableId(id));
            forall j :: 0 <= j < |requested| - 1 ==> requested[j] != requested[|requested| - 1]
  {
    var requested := NamesFor(names, SubtableId(id));
    var last := |names| - 1;
    forall j | 0 <= j < last ensures requested[j] != requested[last] {
      SuffixedApart(names[j], names[last], IntToString(id));
    }
  }

  /** Two different names stay different once `_<id>` is appended to both. */
  lemma SuffixedApart(a: string, b: string, idText: string)
    requires a != b
    ensures a + "_" + idText != b + "_" + idText
  {
    if a + "_" + idText == b + "_" + idText {
      SuffixCancels(a + "_", b + "_", idText);
      SuffixCancels(a, b, "_");
    }
  }

  /** As written, a last name that differs from the others is not among the aliased names. */
  lemma LastLost(requested: seq<string>)
    requires |requested| >= 2
    requires forall j :: 0 <= j < |requested| - 1 ==> requested[j] != requested[|requested| - 1]
    ensures requested[|requested| - 1] in requested
    ensures requested[|requested| - 1] !in AliasedNames(requested, true)
  {
    var aliasedNames := AliasedNames(requested, true);
    var last := |requested| - 1;
    forall k | 0 <= k < |aliasedNames| ensures aliasedNames[k] != requested[last] {
      if k < last {
        assert aliasedNames[k] == requested[k];
      } else {
        assert aliasedNames[k] == requested[last - 1];
      }
    }
  }

  /** As written, names `a` and `b` with subtable 5 go on as `a_5` twice. */
  lemma TwoSubtableNamesAsWritten(a: string, b: string, id: int)
    requires id != 0
    ensures var suffix := "_" + IntToString(id);
            AliasedNames(NamesFor([a, b], SubtableId(id)), true) == [a + suffix, a + suffix]
  {
    var suffix := "_" + IntToString(id);
    assert a + "_" + IntToString(id) == a + suffix;
  }

  /** The constructor's loop: `$this->periods[$period->getRangeString()] = $period`. */
  method KeyPeriods(ps: seq<Period>) returns (keyed: seq<(string, Period)>)
    ensures keyed == KeyByRange(ps)
  {
    keyed := [];
    var i := 0;
    while i < |ps|
      invariant 0 <= i <= |ps|
      invariant keyed == KeyByRange(ps[..i])
    {
      assert ps[..i + 1][..i] == ps[..i];
      keyed := Put(keyed, RangeString(ps[i]), ps[i]);
      i := i + 1;
    }
    assert ps[..i] == ps;
  }

  /** The class: the sites and periods asked for, and the two caches. */
  class Archive {
    const siteIds: seq<int>
    const periods: seq<(string, Period)>
    const forceIndexedBySite: bool
    const forceIndexedByDate: bool
    var idarchives: Option<map<CacheKey, (bool, int)>>
    var blobCache: map<BlobKey, Value>

    /** The periods are keyed by their own range strings, each once. */
    predicate Valid()
    {
      siteIds != [] && periods != [] && UniqueKeys(periods)
      && forall i :: 0 <= i < |periods| ==> periods[i].0 == RangeString(periods[i].1)
    }

    constructor (sites: seq<int>, ps: seq<Period>, forceBySite: bool, forceByDate: bool)
      requires sites != [] && ps != []
      ensures Valid()
      ensures siteIds == sites && periods == KeyByRange(ps)
      ensures forceIndexedBySite == forceBySite && forceIndexedByDate == forceByDate
      ensures idarchives.None? && blobCache == map[]
    {
      siteIds := sites;
      var keyed := KeyPeriods(ps);
      KeyByRangeFind(ps, "");
      KeyedByOwnRange(ps);
      PutKeys(KeyByRange(ps[..|ps| - 1]), RangeString(ps[|ps| - 1]), ps[|ps| - 1]);
      periods := keyed;
      forceIndexedBySite := forceBySite;
      forceIndexedByDate := forceByDate;
      idarchives := None;
      blobCache := map[];
    }

    /** `getPeriodLabel`: the label of the first period. */
    function PeriodLabel(): string
    {
      if periods == [] then "" else periods[0].1.periodLabel
    }

    /**
     * `checkBlobCache`: true exactly when every requested blob is cached,
     * and then every one of them is copied into the result. On a miss the
     * result keeps what was copied before it, all of it from the cache.
     */
    method CheckBlobCache(names: seq<string>) returns (found: bool, result: Buckets)
      ensures (found, result) == CheckSites(blobCache, siteIds, periods, names, map[])
      ensures found <==> AllCached(blobCache, siteIds, periods, names)
      ensures found ==> forall s, i, n :: s in siteIds && 0 <= i < |periods| && n in names ==> Copied(blobCache, result, s, periods[i].0, n)
      ensures FromCache(blobCache, result)
    {
      found, result := CheckSitesLoop(blobCache, siteIds, periods, names);
    }

    /** `getPeriodsByTableMonth`: the periods grouped by the `Y_m` of their first day. */
    method GetPeriodsByTableMonth() returns (groups: seq<(string, seq<Period>)>)
      ensures groups == GroupBy(Values(periods), PeriodMonth)
    {
      groups := [];
      var i := 0;
      while i < |periods|
        invariant 0 <= i <= |periods|
        invariant groups == GroupBy(Values(periods[..i]), PeriodMonth)
      {
        assert Values(periods[..i + 1])[..i] == Values(periods[..i]);
        groups := Append(groups, PeriodMonth(periods[i].1), periods[i].1);
        i := i + 1;
      }
      assert periods[..i] == periods;
    }

    /** The periods grouped by month, as `getPeriodsByTableMonth` gives them. */
    function Groups(): seq<(string, seq<Period>)> {
      GroupBy(Values(periods), PeriodMonth)
    }

    /** What `getArchiveIds` answers for these names when nothing is cached yet. */
    function ArchiveIdsOf(names: seq<string>, env: Env): seq<(string, seq<int>)> {
      if !env.archivingDisabled then IdsByMonth(MonthJobs(Groups(), siteIds, Unique(ReportsOf(names, env.coreMetrics)), env), env)
      else LatestByMonth(Groups(), names, env)
    }

    /** The id cache `getArchiveIds` leaves behind when it starts from none. */
    function IdCacheOf(names: seq<string>, env: Env): map<CacheKey, (bool, int)> {
      if !env.archivingDisabled then CacheAfter(map[], MonthJobs(Groups(), siteIds, Unique(ReportsOf(names, env.coreMetrics)), env), PeriodLabel(), env)
      else CacheLatestByMonth(map[], Groups(), names, env)
    }

    /** The jobs `getArchiveIds` launches. */
    function LaunchedOf(names: seq<string>, env: Env): seq<Job> {
      if !env.archivingDisabled then Launched(MonthJobs(Groups(), siteIds, Unique(ReportsOf(names, env.coreMetrics)), env), env)
      else []
    }

    /**
     * `getArchiveIdsAfterLaunching`: for each month, site, period that is
     * not skipped, and report, the loaded archive or else a freshly computed
     * one; its id is appended to the month's list and cached with its
     * visits flag under the report's cache key.
     */
    method GetArchiveIdsAfterLaunching(reports: seq<string>, env: Env) returns (result: seq<(string, seq<int>)>, launched: seq<Job>)
      modifies this
      ensures var jobs := MonthJobs(Groups(), siteIds, reports, env);
              result == IdsByMonth(jobs, env) && launched == Launched(jobs, env)
              && idarchives == Some(CacheAfter(if old(idarchives).Some? then old(idarchives).value else map[], jobs, PeriodLabel(), env))
      ensures blobCache == old(blobCache)
    {
      var groups := GetPeriodsByTableMonth();
      var start := if idarchives.Some? then idarchives.value else map[];
      var st := LaunchMonths(groups, siteIds, reports, PeriodLabel(), env, start);
      result, launched := st.ids, st.launched;
      idarchives := Some(st.cache);
    }

    /**
     * `getArchiveIdsWithoutLaunching`: for each month whose numeric table
     * exists, the ids of the latest done archives, kept only when there are
     * some; every row is cached under "all" as having visits.
     */
    method GetArchiveIdsWithoutLaunching(names: seq<string>, env: Env) returns (result: seq<(string, seq<int>)>)
      modifies this
      ensures result == LatestByMonth(Groups(), names, env)
      ensures idarchives == Some(CacheLatestByMonth(if old(idarchives).Some? then old(idarchives).value else map[], Groups(), names, env))
      ensures blobCache == old(blobCache)
    {
      var groups := GetPeriodsByTableMonth();
      var cache := if idarchives.Some? then idarchives.value else map[];
      result, cache := LatestMonths(groups, names, env, cache);
      idarchives := Some(cache);
    }

    /**
     * `getArchiveIds` as `get` calls it, with no cached ids: launch the
     * archiving of the requested reports, or when archiving is disabled
     * read the latest done archives.
     */
    method GetArchiveIds(names: seq<string>, env: Env) returns (result: seq<(string, seq<int>)>, launched: seq<Job>)
      requires idarchives.None?
      modifies this
      ensures result == ArchiveIdsOf(names, env) && launched == LaunchedOf(names, env)
      ensures idarchives == Some(IdCacheOf(names, env)) && blobCache == old(blobCache)
    {
      var reports := GetRequestedReports(names, env.coreMetrics);
      if !env.archivingDisabled {
        result, launched := GetArchiveIdsAfterLaunching(reports, env);
      } else {
        result := GetArchiveIdsWithoutLaunching(names, env);
        launched := [];
      }
    }

    /**
     * `get`: the requested names (suffixed by the subtable id), answered
     * from the blob cache when every blob is there; otherwise read from the
     * archives of every month, on top of what the cache check copied.
     * The defaults and the query use the requested names as evidently
     * intended; as written, a subtable request loses its last name there
     * (`DefaultsLoopAsWritten`, `SubtableNameLostAsWritten`).
     */
    method Get(names: seq<string>, tableType: TableType, sub: SubtableArg, env: Env) returns (result: Buckets, launched: seq<Job>)
      modifies this
      ensures var requested := NamesFor(names, sub);
              var check := CheckSites(old(blobCache), siteIds, periods, requested, map[]);
              if tableType == BlobType && check.0 then
                result == check.1 && launched == [] && idarchives.None? && blobCache == old(blobCache)
              else
                var ids := ArchiveIdsOf(requested, env);
                var read := ReadRows(Reading(if tableType == BlobType then check.1 else map[], old(blobCache)),
                                     FetchedValues(ids, tableType, Selection(requested, sub), env),
                                     requested, tableType, NotAll(sub), env);
                launched == LaunchedOf(requested, env) && idarchives == Some(IdCacheOf(requested, env))
                && (ids == [] ==> result == map[] && blobCache == old(blobCache))
                && (ids != [] ==> result == read.buckets && blobCache == read.cache)
    {
      idarchives := None;
      var requested := NamesFor(names, sub);
      result := map[];
      if tableType == BlobType {
        var found;
        found, result := CheckBlobCache(requested);
        if found {
          launched := [];
          return;
        }
      }
      var ids;
      ids, launched := GetArchiveIds(requested, env);
      if ids == [] {
        result := map[];
        return;
      }
      var selection := Selection(requested, sub);
      var st := ReadMonths(Reading(result, blobCache), ids, requested, tableType, selection, NotAll(sub), env);
      result := st.buckets;
      blobCache := st.cache;
    }

    /** One site of `createSimpleGetResult`'s first loop: each period's bucket moved under its pretty string, or added empty. */
    method RekeyOneSite(rows: Buckets, idSite: int) returns (keyed: Buckets)
      ensures keyed == RekeySite(rows, idSite, periods)
    {
      keyed := rows;
      var b := 0;
      while b < |periods|
        invariant 0 <= b <= |periods|
        invariant keyed == RekeySite(rows, idSite, periods[..b])
      {
        assert periods[..b + 1][..b] == periods[..b];
        var dateStr := periods[b].0;
        var prettyDate := periods[b].1.pretty;
        if (idSite, dateStr) !in keyed {
          keyed := keyed[(idSite, prettyDate) := []];
        } else {
          keyed := keyed[(idSite, prettyDate) := keyed[(idSite, dateStr)]] - {(idSite, dateStr)};
        }
        b := b + 1;
      }
      assert periods[..b] == periods;
    }

    /**
     * `createSimpleGetResult`: every requested site and period gets a
     * bucket, under its pretty string, and the result is shaped by the
     * number of sites and periods.
     */
    method CreateSimpleGetResult(rows: Buckets, names: seq<string>, createDataTable: bool, isNumeric: bool) returns (r: Shaped)
      requires Valid()
      ensures r == Shape(Rekey(rows, siteIds, periods), siteIds, periods, names, forceIndexedBySite, forceIndexedByDate,
                         isNumeric, createDataTable)
    {
      var keyed := rows;
      var a := 0;
      while a < |siteIds|
        invariant 0 <= a <= |siteIds|
        invariant keyed == Rekey(rows, siteIds[..a], periods)
      {
        assert siteIds[..a + 1][..a] == siteIds[..a];
        keyed := RekeyOneSite(keyed, siteIds[a]);
        a := a + 1;
      }
      assert siteIds[..a] == siteIds;
      r := Shape(keyed, siteIds, periods, names, forceIndexedBySite, forceIndexedByDate, isNumeric, createDataTable);
    }
  }

  /** What `getArchiveIdsAfterLaunching` builds: the ids by month, the jobs launched, the id cache. */
  datatype Launch = Launch(ids: seq<(string, seq<int>)>, launched: seq<Job>, cache: map<CacheKey, (bool, int)>)

  function LaunchAfter(start: map<CacheKey, (bool, int)>, jobs: seq<Job>, periodLabel: string, env: Env): Launch {
    Launch(IdsByMonth(jobs, env), Launched(jobs, env), CacheAfter(start, jobs, periodLabel, env))
  }

  /** One job's effect: its id appended to its month, the job recorded if launched, its id and visits flag cached. */
  function LaunchStep(st: Launch, job: Job, periodLabel: string, env: Env): Launch {
    Launch(Append(st.ids, job.month, IdOf(job, env)),
           st.launched + (if env.loadArchive(job) == 0 then [job] else []),
           st.cache[CacheKey(ArchiveCacheKey(job.report, periodLabel, env), job.idSite, RangeString(job.period))
                      := (env.someVisits(job), IdOf(job, env))])
  }

  /** The jobs' steps, one after the other, from a given state. */
  function LaunchFold(st: Launch, jobs: seq<Job>, periodLabel: string, env: Env): Launch
    decreases |jobs|
  {
    if jobs == [] then st else LaunchStep(LaunchFold(st, jobs[..|jobs| - 1], periodLabel, env), jobs[|jobs| - 1], periodLabel, env)
  }

  /** Running two lists of jobs one after the other is running their concatenation. */
  lemma {:induction false} LaunchFoldAppend(st: Launch, a: seq<Job>, b: seq<Job>, periodLabel: string, env: Env)
    ensures LaunchFold(LaunchFold(st, a, periodLabel, env), b, periodLabel, env) == LaunchFold(st, a + b, periodLabel, env)
    decreases |b|
  {
    if b == [] {
      assert a + b == a;
    } else {
      LaunchFoldAppend(st, a, b[..|b| - 1], periodLabel, env);
      assert (a + b)[..|a + b| - 1] == a + b[..|b| - 1] && (a + b)[|a + b| - 1] == b[|b| - 1];
    }
  }

  /** Running the jobs from an empty result gives the ids by month, the launched jobs and the cache after them. */
  lemma {:induction false} LaunchFoldAfter(start: map<CacheKey, (bool, int)>, jobs: seq<Job>, periodLabel: string, env: Env)
    ensures LaunchFold(Launch([], [], start), jobs, periodLabel, env) == LaunchAfter(start, jobs, periodLabel, env)
    decreases |jobs|
  {
    if jobs != [] {
      LaunchFoldAfter(start, jobs[..|jobs| - 1], periodLabel, env);
    }
  }

  /** One job: load its archive, or launch the archiving when none is usable; record and cache the id. */
  method RunJob(st: Launch, job: Job, periodLabel: string, env: Env) returns (r: Launch)
    ensures r == LaunchStep(st, job, periodLabel, env)
  {
    var idArchive := env.loadArchive(job);
    var launched := st.launched;
    if idArchive == 0 {
      launched := launched + [job];
      idArchive := env.launchArchiving(job);
    }
    r := Launch(Append(st.ids, job.month, idArchive), launched,
                st.cache[CacheKey(ArchiveCacheKey(job.report, periodLabel, env), job.idSite, RangeString(job.period))
                           := (env.someVisits(job), idArchive)]);
  }

  /** The innermost loop of `getArchiveIdsAfterLaunching`: every report of one site and period. */
  lemma ReportJobsSnoc(month: string, idSite: int, p: Period, reports: seq<string>, i: nat)
    requires i < |reports|
    ensures ReportJobs(month, idSite, p, reports[..i + 1])
            == ReportJobs(month, idSite, p, reports[..i]) + [Job(month, idSite, p, reports[i])]
  {
  }

  lemma LaunchFoldSnoc(st: Launch, done: seq<Job>, job: Job, periodLabel: string, env: Env)
    ensures LaunchFold(st, done + [job], periodLabel, env) == LaunchStep(LaunchFold(st, done, periodLabel, env), job, periodLabel, env)
  {
    assert (done + [job])[..|done|] == done;
  }

  method LaunchReports(month: string, idSite: int, p: Period, reports: seq<string>, periodLabel: string, env: Env, st: Launch)
    returns (r: Launch)
    ensures r == LaunchFold(st, ReportJobs(month, idSite, p, reports), periodLabel, env)
  {
    r := st;
    assert ReportJobs(month, idSite, p, reports[..0]) == [];
    var ri := 0;
    while ri < |reports|
      invariant 0 <= ri <= |reports|
      invariant r == LaunchFold(st, ReportJobs(month, idSite, p, reports[..ri]), periodLabel, env)
    {
      var job := Job(month, idSite, p, reports[ri]);
      ReportJobsSnoc(month, idSite, p, reports, ri);
      LaunchFoldSnoc(st, ReportJobs(month, idSite, p, reports[..ri]), job, periodLabel, env);
      r := RunJob(r, job, periodLabel, env);
      ri := ri + 1;
    }
    assert reports[..ri] == reports;
  }

  /** The period loop: periods before the site's creation or after today are skipped. */
  method LaunchPeriods(month: string, idSite: int, ps: seq<Period>, reports: seq<string>, periodLabel: string, env: Env, st: Launch)
    returns (r: Launch)
    ensures r == LaunchFold(st, PeriodJobs(month, idSite, ps, reports, env), periodLabel, env)
  {
    r := st;
    assert PeriodJobs(month, idSite, ps[..0], reports, env) == [] by { assert ps[..0] == []; }
    var pi := 0;
    while pi < |ps|
      invariant 0 <= pi <= |ps|
      invariant r == LaunchFold(st, PeriodJobs(month, idSite, ps[..pi], reports, env), periodLabel, env)
    {
      var p := ps[pi];
      ghost var done := PeriodJobs(month, idSite, ps[..pi], reports, env);
      PeriodJobsStep(month, idSite, ps, pi, reports, env);
      if p.end.ordinal + 2 < env.creationDay(idSite) || p.start.ordinal - 2 > env.today {
        // before the site existed, or in the future: no visits to archive
        assert Skipped(idSite, p, env);
        assert PeriodJobs(month, idSite, ps[..pi + 1], reports, env) == done;
      } else {
        assert !Skipped(idSite, p, env);
        ghost var jobs := ReportJobs(month, idSite, p, reports);
        assert PeriodJobs(month, idSite, ps[..pi + 1], reports, env) == done + jobs;
        r := LaunchReports(month, idSite, p, reports, periodLabel, env, r);
        LaunchFoldAppend(st, done, jobs, periodLabel, env);
        assert r == LaunchFold(st, done + jobs, periodLabel, env);
      }
      pi := pi + 1;
    }
    assert ps[..pi] == ps;
  }

  /** The site loop of one month. */
  method LaunchSites(month: string, sites: seq<int>, ps: seq<Period>, reports: seq<string>, periodLabel: string, env: Env, st: Launch)
    returns (r: Launch)
    ensures r == LaunchFold(st, SiteJobs(month, sites, ps, reports, env), periodLabel, env)
  {
    r := st;
    assert SiteJobs(month, sites[..0], ps, reports, env) == [] by { assert sites[..0] == []; }
    var si := 0;
    while si < |sites|
      invariant 0 <= si <= |sites|
      invariant r == LaunchFold(st, SiteJobs(month, sites[..si], ps, reports, env), periodLabel, env)
    {
      assert sites[..si + 1][..si] == sites[..si];
      r := LaunchPeriods(month, sites[si], ps, reports, periodLabel, env, r);
      LaunchFoldAppend(st, SiteJobs(month, sites[..si], ps, reports, env), PeriodJobs(month, sites[si], ps, reports, env), periodLabel, env);
      si := si + 1;
    }
    assert sites[..si] == sites;
  }

  /** The month loop of `getArchiveIdsAfterLaunching`. */
  method LaunchMonths(groups: seq<(string, seq<Period>)>, sites: seq<int>, reports: seq<string>, periodLabel: string, env: Env,
                      start: map<CacheKey, (bool, int)>) returns (r: Launch)
    ensures r == LaunchAfter(start, MonthJobs(groups, sites, reports, env), periodLabel, env)
  {
    r := Launch([], [], start);
    ghost var st := r;
    assert MonthJobs(groups[..0], sites, reports, env) == [] by { assert groups[..0] == []; }
    var g := 0;
    while g < |groups|
      invariant 0 <= g <= |groups|
      invariant r == LaunchFold(st, MonthJobs(groups[..g], sites, reports, env), periodLabel, env)
    {
      assert groups[..g + 1][..g] == groups[..g];
      r := LaunchSites(groups[g].0, sites, groups[g].1, reports, periodLabel, env, r);
      LaunchFoldAppend(st, MonthJobs(groups[..g], sites, reports, env), SiteJobs(groups[g].0, sites, groups[g].1, reports, env), periodLabel, env);
      g := g + 1;
    }
    assert groups[..g] == groups;
    LaunchFoldAfter(start, MonthJobs(groups, sites, reports, env), periodLabel, env);
  }

  /** The month loop of `getArchiveIdsWithoutLaunching`: months whose table is missing, or without ids, are left out. */
  method LatestMonths(groups: seq<(string, seq<Period>)>, names: seq<string>, env: Env, cache: map<CacheKey, (bool, int)>)
    returns (result: seq<(string, seq<int>)>, cache': map<CacheKey, (bool, int)>)
    ensures result == LatestByMonth(groups, names, env) && cache' == CacheLatestByMonth(cache, groups, names, env)
  {
    result, cache' := [], cache;
    var g := 0;
    while g < |groups|
      invariant 0 <= g <= |groups|
      invariant result == LatestByMonth(groups[..g], names, env)
      invariant cache' == CacheLatestByMonth(cache, groups[..g], names, env)
    {
      var month: string, ps: seq<Period> := groups[g].0, groups[g].1;
      assert groups[..g + 1][..g] == groups[..g];
      var table := "archive_numeric_" + month;
      if table in env.tablesInstalled {
        var archiveIds;
        archiveIds, cache' := LatestOfMonth(env.latestIds(table, ps, names), cache');
        if archiveIds != [] {
          result := Put(result, month, archiveIds);
        }
      }
      g := g + 1;
    }
    assert groups[..g] == groups;
  }

  /** The row loop of one month of `getArchiveIdsWithoutLaunching`. */
  method LatestOfMonth(rows: seq<LatestRow>, cache: map<CacheKey, (bool, int)>) returns (archiveIds: seq<int>, cache': map<CacheKey, (bool, int)>)
    ensures archiveIds == LatestIdsOf(rows) && cache' == CacheLatest(cache, rows)
  {
    archiveIds, cache' := [], cache;
    var k := 0;
    while k < |rows|
      invariant 0 <= k <= |rows|
      invariant archiveIds == LatestIdsOf(rows[..k])
      invariant cache' == CacheLatest(cache, rows[..k])
    {
      assert rows[..k + 1][..k] == rows[..k];
      archiveIds := archiveIds + [rows[k].idarchive];
      cache' := cache'[CacheKey("all", rows[k].idsite, rows[k].date1 + "," + rows[k].date2) := (true, rows[k].idarchive)];
      k := k + 1;
    }
    assert rows[..k] == rows;
  }

  /** The row loop of one month of `get`. */
  method ReadMonth(st: Reading, rows: seq<ValueRow>, names: seq<string>, tableType: TableType, notAll: bool, env: Env)
    returns (r: Reading)
    ensures r == ReadRows(st, rows, names, tableType, notAll, env)
  {
    var result, cache := st.buckets, st.cache;
    var k := 0;
    while k < |rows|
      invariant 0 <= k <= |rows|
      invariant Reading(result, cache) == ReadRows(st, rows[..k], names, tableType, notAll, env)
    {
      var row := rows[k];
      assert rows[..k + 1][..k] == rows[..k];
      var key := (row.idsite, row.date1 + "," + row.date2);
      if key !in result {
        result := result[key := ZeroBucket(names)];
      }
      if notAll {
        var value := if tableType == NumericType then env.floatCast(row.value) else env.uncompress(row.value);
        result := result[key := Put(result[key], row.name, value)];
      } else if tableType == BlobType {
        var value := env.uncompress(row.value);
        result := result[key := Put(result[key], row.name, value)];
        cache := cache[BlobKey(row.idsite, row.date1 + "," + row.date2, row.name) := value];
      }
      k := k + 1;
    }
    assert rows[..k] == rows;
    r := Reading(result, cache);
  }

  /** Reading the rows of one more month after those of the months before it. */
  lemma ReadMonthStep(st: Reading, ids: seq<(string, seq<int>)>, m: nat, names: seq<string>, tableType: TableType,
                      selection: NameSelection, notAll: bool, env: Env)
    requires m < |ids|
    ensures var before := FetchedValues(ids[..m], tableType, selection, env);
            var fetched := env.values(TableName(tableType, ids[m].0), ids[m].1, selection);
            ReadRows(st, FetchedValues(ids[..m + 1], tableType, selection, env), names, tableType, notAll, env)
            == ReadRows(ReadRows(st, before, names, tableType, notAll, env), fetched, names, tableType, notAll, env)
  {
    var fetched := env.values(TableName(tableType, ids[m].0), ids[m].1, selection);
    assert ids[..m + 1][..m] == ids[..m];
    assert FetchedValues(ids[..m + 1], tableType, selection, env) == FetchedValues(ids[..m], tableType, selection, env) + fetched;
    ReadRowsAppend(st, FetchedValues(ids[..m], tableType, selection, env), fetched, names, tableType, notAll, env);
  }

  /** The month loop of `get`: each month's rows, read in turn. */
  method ReadMonths(st: Reading, ids: seq<(string, seq<int>)>, names: seq<string>, tableType: TableType,
                    selection: NameSelection, notAll: bool, env: Env) returns (r: Reading)
    ensures r == ReadRows(st, FetchedValues(ids, tableType, selection, env), names, tableType, notAll, env)
  {
    r := st;
    var m := 0;
    while m < |ids|
      invariant 0 <= m <= |ids|
      invariant r == ReadRows(st, FetchedValues(ids[..m], tableType, selection, env), names, tableType, notAll, env)
    {
      var fetched := env.values(TableName(tableType, ids[m].0), ids[m].1, selection);
      ReadMonthStep(st, ids, m, names, tableType, selection, notAll, env);
      r := ReadMonth(r, fetched, names, tableType, notAll, env);
      m := m + 1;
    }
    assert ids[..m] == ids;
  }

  /** Keying by range string keeps every period under its own range string. */
  lemma {:induction false} KeyedByOwnRange(ps: seq<Period>)
    ensures var k := KeyByRange(ps);
            (forall i :: 0 <= i < |k| ==> k[i].0 == RangeString(k[i].1)) && (ps != [] ==> k != [])
    decreases |ps|
  {
    if ps != [] {
      var init := ps[..|ps| - 1];
      var p := ps[|ps| - 1];
      KeyedByOwnRange(init);
      PutElems(KeyByRange(init), RangeString(p), p);
      PutKeys(KeyByRange(init), RangeString(p), p);
      var k := KeyByRange(ps);
      forall i | 0 <= i < |k| ensures k[i].0 == RangeString(k[i].1) {
        if k[i] != (RangeString(p), p) {
          var j :| 0 <= j < |KeyByRange(init)| && KeyByRange(init)[j] == k[i];
        }
      }
    }
  }

  /**
   * The constructor: a single site or period is wrapped into a list; an
   * empty list of sites or of periods is refused.
   */
  method NewArchive(sites: OneOrMany<int>, ps: OneOrMany<Period>, forceBySite: bool, forceByDate: bool)
    returns (r: Result<Archive>)
    ensures r.Err? <==> AsList(sites) == [] || AsList(ps) == []
    ensures r.Ok? ==> fresh(r.value) && r.value.Valid() && r.value.siteIds == AsList(sites)
                      && r.value.periods == KeyByRange(AsList(ps))
  {
    var siteList := AsList(sites);
    var periodList := AsList(ps);
    if siteList == [] {
      return Err("Piwik_Archive::__construct: $siteIds is empty.");
    }
    if periodList == [] {
      return Err("Piwik_Archive::__construct: $periods is empty.");
    }
    var a := new Archive(siteList, periodList, forceBySite, forceByDate);
    r := Ok(a);
  }
}
