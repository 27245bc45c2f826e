/**
 * The value-level rules of `Piwik_Archive`, the read side of the archive
 * store: which report produces a record, which shard month a period lives
 * in, how the requested periods are keyed, how subtables are attached to
 * a fetched table, and how the buckets of a result are re-keyed and shaped
 * by the number of sites and periods.
 */
module ArchiveQuery {
  import opened Wrappers
  import opened Php
  import opened Periods
  import opened Assoc

  /** An argument that PHP accepts either as one value or as an array. */
  datatype OneOrMany<T> = One(item: T) | Many(items: seq<T>)

  /** `if (!is_array($x)) $x = array($x);` */
  function AsList<T>(x: OneOrMany<T>): (r: seq<T>)
    ensures x.One? ==> r == [x.item]
    ensures x.Many? ==> r == x.items
  {
    match x
    case One(item) => [item]
    case Many(items) => items
  }

  // ---------------------------------------------------------------------
  // Periods keyed by range string (constructor)
  // ---------------------------------------------------------------------

  /** `$this->periods[$period->getRangeString()] = $period` for each period, in order. */
  function KeyByRange(periods: seq<Period>): seq<(string, Period)>
    decreases |periods|
  {
    if periods == [] then []
    else
      var p := periods[|periods| - 1];
      Put(KeyByRange(periods[..|periods| - 1]), RangeString(p), p)
  }

  /** The last period with the given range string. */
  function LastWithRange(periods: seq<Period>, range: string): (r: Option<Period>)
    ensures r.None? <==> forall i :: 0 <= i < |periods| ==> RangeString(periods[i]) != range
    ensures r.Some? ==> r.value in periods && RangeString(r.value) == range
    decreases |periods|
  {
    if periods == [] then None
    else
      var p := periods[|periods| - 1];
      if RangeString(p) == range then Some(p)
      else
        var r := LastWithRange(periods[..|periods| - 1], range);
        DropLast(periods, periods[..|periods| - 1], range);
        r
  }

  /** What the periods before the last one say about the whole sequence. */
  lemma DropLast(periods: seq<Period>, init: seq<Period>, range: string)
    requires periods != [] && init == periods[..|periods| - 1]
    ensures forall x :: x in init ==> x in periods
    ensures RangeString(periods[|periods| - 1]) != range ==>
      ((forall i :: 0 <= i < |periods| ==> RangeString(periods[i]) != range) <==>
       (forall i :: 0 <= i < |init| ==> RangeString(init[i]) != range))
  {
    forall x | x in init
      ensures x in periods
    {
      var i :| 0 <= i < |init| && init[i] == x;
      assert periods[i] == x;
    }
    forall i | 0 <= i < |init|
      ensures init[i] == periods[i]
    {
    }
  }

  /**
   * Keying the periods by range string gives each range string once, and
   * the period kept for it is the last one given with that range string:
   * duplicate periods collapse.
   */
  lemma {:induction false} KeyByRangeFind(periods: seq<Period>, range: string)
    ensures UniqueKeys(KeyByRange(periods))
    ensures Find(KeyByRange(periods), range) == LastWithRange(periods, range)
    decreases |periods|
  {
    if periods != [] {
      var init := periods[..|periods| - 1];
      var p := periods[|periods| - 1];
      KeyByRangeFind(init, range);
      PutFind(KeyByRange(init), RangeString(p), p, range);
      PutUnique(KeyByRange(init), RangeString(p), p);
    }
  }

  /** The periods of a keyed period list, in order. */
  function Values<K, V>(a: seq<(K, V)>): (r: seq<V>)
    ensures |r| == |a|
    ensures forall i :: 0 <= i < |a| ==> r[i] == a[i].1
  {
    seq(|a|, i requires 0 <= i < |a| => a[i].1)
  }

  // ---------------------------------------------------------------------
  // getRequestedReport(s)
  // ---------------------------------------------------------------------

  const CoreMetricsReport := "VisitsSummary_CoreMetrics"
  const VisitFrequencyReport := "VisitFrequency_Metrics"
  const GoalsReport := "Goals_Metrics"

  /**
   * `getRequestedReport`: the report whose archiving produces a record.
   * `coreMetrics` is `Piwik_ArchiveProcessing::getCoreMetrics()`.
   */
  function RequestedReport(name: string, coreMetrics: seq<string>): (r: string)
    ensures name in coreMetrics || name == "max_actions" ==> r == CoreMetricsReport
    ensures (name !in coreMetrics && name != "max_actions" && IndexOf(name, "_returning") > 0 && !Contains(name, "Goal_"))
            ==> r == VisitFrequencyReport
    ensures (name !in coreMetrics && name != "max_actions" && !(IndexOf(name, "_returning") > 0 && !Contains(name, "Goal_"))
             && StartsWith(name, "Goal_")) ==> r == GoalsReport
    ensures r != name ==> r in {CoreMetricsReport, VisitFrequencyReport, GoalsReport}
  {
    assert StartsWith(name, "Goal_") ==> OccursAt(name, "Goal_", 0);
    if name in coreMetrics || name == "max_actions" then CoreMetricsReport
    else if IndexOf(name, "_returning") > 0 && IndexOf(name, "Goal_") == -1 then VisitFrequencyReport
    else if IndexOf(name, "Goal_") == 0 then GoalsReport
    else name
  }

  /** A name whose only underscore is at `u`, not followed by `r` and not preceded by `Goal`. */
  lemma ReportNameMarkers(s: string, u: nat)
    requires u < |s| && s[u] == '_' && forall i :: 0 <= i < |s| && i != u ==> s[i] != '_'
    requires u + 1 < |s| && s[u + 1] != 'r'
    requires u < 4 || s[u - 4..u + 1] != "Goal_"
    ensures IndexOf(s, "_returning") == -1 && !Contains(s, "Goal_") && !StartsWith(s, "Goal_")
  {
    NoReturningMarker(s, u);
    NoGoalMarker(s, u);
    assert StartsWith(s, "Goal_") ==> OccursAt(s, "Goal_", 0);
  }

  lemma NoReturningMarker(s: string, u: nat)
    requires u < |s| && s[u] == '_' && forall i :: 0 <= i < |s| && i != u ==> s[i] != '_'
    requires u + 1 < |s| && s[u + 1] != 'r'
    ensures !Contains(s, "_returning")
  {
    forall j: nat | j <= |s| ensures !OccursAt(s, "_returning", j) {
      if j + 10 <= |s| {
        assert s[j..j + 10][0] == s[j] && s[j..j + 10][1] == s[j + 1];
      }
    }
  }

  lemma NoGoalMarker(s: string, u: nat)
    requires u < |s| && s[u] == '_' && forall i :: 0 <= i < |s| && i != u ==> s[i] != '_'
    requires u < 4 || s[u - 4..u + 1] != "Goal_"
    ensures !Contains(s, "Goal_")
  {
    forall j: nat | j <= |s| ensures !OccursAt(s, "Goal_", j) {
      if j + 5 <= |s| {
        assert s[j..j + 5][4] == s[j + 4];
        if j + 4 == u {
          assert s[u - 4..u + 1] == s[j..j + 5];
        }
      }
    }
  }

  lemma CoreMetricsReportUnmarked()
    ensures IndexOf(CoreMetricsReport, "_returning") == -1 && !Contains(CoreMetricsReport, "Goal_")
            && !StartsWith(CoreMetricsReport, "Goal_")
  {
    var s := CoreMetricsReport;
    assert s[9..14] == "mary_";
    ReportNameMarkers(s, 13);
  }

  lemma VisitFrequencyReportUnmarked()
    ensures IndexOf(VisitFrequencyReport, "_returning") == -1 && !Contains(VisitFrequencyReport, "Goal_")
            && !StartsWith(VisitFrequencyReport, "Goal_")
  {
    var s := VisitFrequencyReport;
    assert s[10..15] == "ency_";
    ReportNameMarkers(s, 14);
  }

  lemma GoalsReportUnmarked()
    ensures IndexOf(GoalsReport, "_returning") == -1 && !Contains(GoalsReport, "Goal_") && !StartsWith(GoalsReport, "Goal_")
  {
    var s := GoalsReport;
    assert s[1..6] == "oals_";
    ReportNameMarkers(s, 5);
  }

  /**
   * A report name maps to itself, so classifying twice is classifying once
   * (as long as the report names are not core metrics themselves).
   */
  lemma RequestedReportIdempotent(name: string, coreMetrics: seq<string>)
    requires CoreMetricsReport !in coreMetrics && VisitFrequencyReport !in coreMetrics && GoalsReport !in coreMetrics
    ensures RequestedReport(RequestedReport(name, coreMetrics), coreMetrics) == RequestedReport(name, coreMetrics)
  {
    var r := RequestedReport(name, coreMetrics);
    if r == CoreMetricsReport {
      CoreMetricsReportUnmarked();
    } else if r == VisitFrequencyReport {
      VisitFrequencyReportUnmarked();
    } else if r == GoalsReport {
      GoalsReportUnmarked();
    }
  }

  /** `array_unique`: the first occurrence of each value, in order. */
  function Unique(xs: seq<string>): (r: seq<string>)
    ensures forall x :: x in r <==> x in xs
    ensures forall i, j :: 0 <= i < j < |r| ==> r[i] != r[j]
    decreases |xs|
  {
    if xs == [] then []
    else
      var u := Unique(xs[..|xs| - 1]);
      assert forall x :: x in xs <==> x in xs[..|xs| - 1] || x == xs[|xs| - 1];
      if xs[|xs| - 1] in u then u else u + [xs[|xs| - 1]]
  }

  /** The reports behind each requested name. */
  function ReportsOf(names: seq<string>, coreMetrics: seq<string>): (r: seq<string>)
    ensures |r| == |names|
    ensures forall i :: 0 <= i < |names| ==> r[i] == RequestedReport(names[i], coreMetrics)
  {
    seq(|names|, i requires 0 <= i < |names| => RequestedReport(names[i], coreMetrics))
  }

  /** `getRequestedReports`: each report once, for every requested name. */
  method GetRequestedReports(names: seq<string>, coreMetrics: seq<string>) returns (reports: seq<string>)
    ensures forall i, j :: 0 <= i < j < |reports| ==> reports[i] != reports[j]
    ensures forall r :: r in reports <==> exists i :: 0 <= i < |names| && RequestedReport(names[i], coreMetrics) == r
    ensures reports == Unique(ReportsOf(names, coreMetrics))
  {
    var result: seq<string> := [];
    var i := 0;
    while i < |names|
      invariant 0 <= i <= |names|
      invariant result == ReportsOf(names[..i], coreMetrics)
    {
      result := result + [RequestedReport(names[i], coreMetrics)];
      i := i + 1;
    }
    assert names[..i] == names;
    reports := Unique(result);
    forall r | r in reports ensures exists i :: 0 <= i < |names| && RequestedReport(names[i], coreMetrics) == r {
      var k :| 0 <= k < |result| && result[k] == r;
    }
  }

  // ---------------------------------------------------------------------
  // isMultipleSites
  // ---------------------------------------------------------------------

  /** `isMultipleSites`: "all", or a list with a comma. */
  predicate IsMultipleSites(idSiteString: string) {
    idSiteString == "all" || Contains(idSiteString, ",")
  }

  /** A single id is one site; two or more ids joined by commas are several. */
  lemma MultipleSitesOfIds(ids: seq<int>)
    requires ids != []
    ensures IsMultipleSites(Join(seq(|ids|, i requires 0 <= i < |ids| => IntToString(ids[i])), ",")) <==> |ids| > 1
  {
    var parts := seq(|ids|, i requires 0 <= i < |ids| => IntToString(ids[i]));
    var s := Join(parts, ",");
    if |ids| == 1 {
      IntToStringChars(ids[0]);
      assert s == IntToString(ids[0]);
      assert forall j: nat :: OccursAt(s, ",", j) ==> s[j] == ',' by {
        forall j: nat | OccursAt(s, ",", j) ensures s[j] == ',' {
          assert s[j..j + 1][0] == s[j];
        }
      }
      assert s != "all" by {
        assert "all"[0] == 'a';
      }
    } else {
      assert s == parts[0] + "," + Join(parts[1..], ",");
      assert OccursAt(s, ",", |parts[0]|) by {
        assert s[|parts[0]|..|parts[0]| + 1] == ",";
      }
    }
  }

  // ---------------------------------------------------------------------
  // The subtable argument of get()
  // ---------------------------------------------------------------------

  /** `$idSubTable`: `null`, the string `'all'`, or an id. */
  datatype SubtableArg = NoSubtable | AllSubtables | SubtableId(id: int)

  /**
   * `$idSubTable != 'all'` with PHP's loose comparison, where an integer
   * compared with a non-numeric string compares with 0: id 0 counts as
   * `'all'`, `null` does not.
   */
  predicate NotAll(sub: SubtableArg) {
    match sub
    case NoSubtable => true
    case AllSubtables => false
    case SubtableId(id) => id != 0
  }

  /** The names asked of the archive: `name_<id>` for a subtable id, the names themselves otherwise. */
  function NamesFor(names: seq<string>, sub: SubtableArg): (r: seq<string>)
    ensures |r| == |names|
    ensures forall i :: 0 <= i < |names| ==>
              r[i] == if sub.SubtableId? && NotAll(sub) then names[i] + "_" + IntToString(sub.id) else names[i]
  {
    if sub.SubtableId? && NotAll(sub) then
      seq(|names|, i requires 0 <= i < |names| => names[i] + "_" + IntToString(sub.id))
    else names
  }

  // ---------------------------------------------------------------------
  // fetchSubTables
  // ---------------------------------------------------------------------

  /**
   * A row of a DataTable as far as subtables go: its columns, the id of its
   * subtable in the database, the subtable attached in memory and the
   * `idsubdatatable_in_db` metadata.
   */
  datatype TableRow = TableRow(columns: Value, idSubtable: Option<int>, subtable: Option<seq<TableRow>>,
                               idInDb: Option<int>)

  /**
   * `fetchSubTables` on one row: a row with a subtable id whose blob
   * `name_<id>` is cached gets that blob, decoded and expanded in turn, as
   * its subtable, and the metadata when asked for. `fuel` bounds the depth.
   */
  function ExpandRow(row: TableRow, name: string, blobs: map<string, Value>, decode: Value -> seq<TableRow>,
                     addMetadata: bool, fuel: nat): TableRow
    decreases fuel, 0
  {
    if row.idSubtable.None? then row
    else
      var blobName := name + "_" + IntToString(row.idSubtable.value);
      if blobName !in blobs || fuel == 0 then row
      else
        var sub := FetchSubTables(decode(blobs[blobName]), name, blobs, decode, addMetadata, fuel - 1);
        row.(subtable := Some(sub), idInDb := if addMetadata then row.idSubtable else row.idInDb)
  }

  /** `fetchSubTables` over a table: every row expanded. */
  function FetchSubTables(table: seq<TableRow>, name: string, blobs: map<string, Value>, decode: Value -> seq<TableRow>,
                          addMetadata: bool, fuel: nat): (r: seq<TableRow>)
    ensures |r| == |table|
    ensures forall i :: 0 <= i < |table| ==> r[i].columns == table[i].columns && r[i].idSubtable == table[i].idSubtable
    ensures forall i :: 0 <= i < |table| && table[i].idSubtable.None? ==> r[i] == table[i]
    ensures forall i :: 0 <= i < |table| && r[i] != table[i] ==>
              table[i].idSubtable.Some? && name + "_" + IntToString(table[i].idSubtable.value) in blobs
    ensures forall i :: 0 <= i < |table| && !addMetadata ==> r[i].idInDb == table[i].idInDb
    decreases fuel, 1
  {
    seq(|table|, i requires 0 <= i < |table| => ExpandRow(table[i], name, blobs, decode, addMetadata, fuel))
  }

  /** With a cached blob and depth left, a row's subtable is its blob, decoded and expanded. */
  lemma SubtableAttached(row: TableRow, name: string, blobs: map<string, Value>, decode: Value -> seq<TableRow>,
                         addMetadata: bool, fuel: nat)
    requires row.idSubtable.Some? && fuel > 0
    requires name + "_" + IntToString(row.idSubtable.value) in blobs
    ensures var r := ExpandRow(row, name, blobs, decode, addMetadata, fuel);
            r.subtable == Some(FetchSubTables(decode(blobs[name + "_" + IntToString(row.idSubtable.value)]), name, blobs,
                                              decode, addMetadata, fuel - 1))
            && (addMetadata ==> r.idInDb == row.idSubtable)
  {
  }

  // ---------------------------------------------------------------------
  // createSimpleGetResult
  // ---------------------------------------------------------------------

  /** The values of one (site, period) bucket, by name, in order. */
  type Bucket = seq<(string, Value)>

  /** Buckets by site and date key (range string before re-keying, pretty string after). */
  type Buckets = map<(int, string), Bucket>

  /** For one site and one period: move the bucket under the pretty string, or add an empty one. */
  function RekeyPeriod(rows: Buckets, idSite: int, range: string, pretty: string): Buckets {
    if (idSite, range) !in rows then rows[(idSite, pretty) := []]
    else rows[(idSite, pretty) := rows[(idSite, range)]] - {(idSite, range)}
  }

  /** One site, every period in order. */
  function RekeySite(rows: Buckets, idSite: int, periods: seq<(string, Period)>): Buckets
    decreases |periods|
  {
    if periods == [] then rows
    else
      var (range, p) := periods[|periods| - 1];
      RekeyPeriod(RekeySite(rows, idSite, periods[..|periods| - 1]), idSite, range, p.pretty)
  }

  /** Every site in order: the first loop of `createSimpleGetResult`. */
  function Rekey(rows: Buckets, siteIds: seq<int>, periods: seq<(string, Period)>): Buckets
    decreases |siteIds|
  {
    if siteIds == [] then rows
    else RekeySite(Rekey(rows, siteIds[..|siteIds| - 1], periods), siteIds[|siteIds| - 1], periods)
  }

  /** The keys are range strings and pretty strings that cannot be mistaken for one another. */
  predicate SeparateKeys(periods: seq<(string, Period)>) {
    UniqueKeys(periods)
    && (forall i, j :: 0 <= i < j < |periods| ==> periods[i].1.pretty != periods[j].1.pretty)
    && (forall i, j :: 0 <= i < |periods| && 0 <= j < |periods| ==> periods[i].0 != periods[j].1.pretty)
  }

  lemma SeparateKeysInit(periods: seq<(string, Period)>)
    requires periods != [] && SeparateKeys(periods)
    ensures SeparateKeys(periods[..|periods| - 1])
  {
    var init := periods[..|periods| - 1];
    assert forall i :: 0 <= i < |init| ==> init[i] == periods[i];
  }

  /** Re-keying a site leaves every key of another site, and every key no period names, as it was. */
  lemma {:induction false} RekeySiteUntouched(rows: Buckets, idSite: int, periods: seq<(string, Period)>, key: (int, string))
    requires key.0 != idSite
             || forall i :: 0 <= i < |periods| ==> key != (idSite, periods[i].0) && key != (idSite, periods[i].1.pretty)
    ensures var r := RekeySite(rows, idSite, periods);
            (key in r <==> key in rows) && (key in rows ==> r[key] == rows[key])
    decreases |periods|
  {
    if periods != [] {
      var init := periods[..|periods| - 1];
      assert forall i :: 0 <= i < |init| ==> init[i] == periods[i];
      RekeySiteUntouched(rows, idSite, init, key);
    }
  }

  /** After re-keying a site, none of its buckets is left under a range string. */
  lemma {:induction false} RekeySiteDropsRange(rows: Buckets, idSite: int, periods: seq<(string, Period)>, i: nat)
    requires SeparateKeys(periods) && i < |periods|
    ensures (idSite, periods[i].0) !in RekeySite(rows, idSite, periods)
    decreases |periods|
  {
    var init := periods[..|periods| - 1];
    var last := |periods| - 1;
    assert periods[last].1.pretty != periods[i].0;
    if i < last {
      SeparateKeysInit(periods);
      assert init[i] == periods[i];
      RekeySiteDropsRange(rows, idSite, init, i);
    }
  }

  /**
   * After re-keying a site, the bucket of each period is under its pretty
   * string: the bucket that was under its range string, or an empty one.
   */
  lemma {:induction false} RekeySiteMovesBucket(rows: Buckets, idSite: int, periods: seq<(string, Period)>, i: nat)
    requires SeparateKeys(periods) && i < |periods|
    ensures var key := (idSite, periods[i].1.pretty);
            var r := RekeySite(rows, idSite, periods);
            var range := (idSite, periods[i].0);
            key in r && r[key] == if range in rows then rows[range] else []
    decreases |periods|
  {
    var init := periods[..|periods| - 1];
    var last := |periods| - 1;
    if i < last {
      SeparateKeysInit(periods);
      assert init[i] == periods[i];
      RekeySiteMovesBucket(rows, idSite, init, i);
      assert periods[last].1.pretty != periods[i].1.pretty && periods[last].0 != periods[i].1.pretty;
    } else {
      forall j | 0 <= j < |init|
        ensures (idSite, periods[i].0) != (idSite, init[j].0) && (idSite, periods[i].0) != (idSite, init[j].1.pretty)
      {
        assert init[j] == periods[j];
      }
      RekeySiteUntouched(rows, idSite, init, (idSite, periods[i].0));
    }
  }

  /** The shape of a result, by how many sites and periods were asked for. */
  datatype Shaped =
    | Scalar(value: Value)
    | Single(bucket: Bucket)
    | ByDate(byDate: map<string, Bucket>)
    | BySite(bySite: map<int, Bucket>)
    | BySiteAndDate(bySiteAndDate: Buckets)

  /** `foreach ($names as $name) $values[$name] = 0;` */
  function ZeroBucket(names: seq<string>): Bucket {
    PutEach([], names, Int(0))
  }

  /** The zero bucket holds 0 under each requested name and nothing else. */
  lemma ZeroBucketFind(names: seq<string>, n: string)
    ensures Find(ZeroBucket(names), n) == if n in names then Some(Int(0)) else None
  {
    PutEachFind([], names, Int(0), n);
  }

  /**
   * The second half of `createSimpleGetResult`: one site and one period
   * give the bare bucket (zeros for an empty numeric one), unwrapped to its
   * first value (`false` when it has none) when no DataTable is wanted and
   * one name was asked for; one site gives buckets by date; one period
   * gives buckets by site; otherwise both. `forceBySite`/`forceByDate`
   * keep the corresponding index.
   */
  function Shape(rows: Buckets, siteIds: seq<int>, periods: seq<(string, Period)>, names: seq<string>,
                 forceBySite: bool, forceByDate: bool, isNumeric: bool, createDataTable: bool): (r: Shaped)
    requires siteIds != [] && periods != []
    ensures r.Scalar? <==> |siteIds| == 1 && !forceBySite && |periods| == 1 && !forceByDate
                           && !createDataTable && |names| == 1
    ensures r.Single? <==> |siteIds| == 1 && !forceBySite && |periods| == 1 && !forceByDate
                           && (createDataTable || |names| != 1)
    ensures r.ByDate? <==> |siteIds| == 1 && !forceBySite && !(|periods| == 1 && !forceByDate)
    ensures r.BySite? <==> !(|siteIds| == 1 && !forceBySite) && |periods| == 1 && !forceByDate
  {
    var site := siteIds[0];
    var pretty := periods[0].1.pretty;
    if |siteIds| == 1 && !forceBySite then
      if |periods| == 1 && !forceByDate then
        var found := if (site, pretty) in rows then rows[(site, pretty)] else [];
        var bucket := if isNumeric && found == [] then ZeroBucket(names) else found;
        if !createDataTable && |names| == 1 then Scalar(if bucket == [] then Bool(false) else bucket[0].1)
        else Single(bucket)
      else ByDate(map k | k in rows && k.0 == site :: k.1 := rows[k])
    else if |periods| == 1 && !forceByDate then
      BySite(map k | k in rows && k.1 == pretty :: k.0 := rows[k])
    else BySiteAndDate(rows)
  }

  /**
   * `getNumeric` of one name for one site and one period gives the bare
   * value: 0 when nothing was read for it, and otherwise the value the
   * bucket holds first, which is the name's own value when the bucket
   * holds that name alone.
   */
  lemma NumericOneNameUnwrapped(rows: Buckets, site: int, period: (string, Period), name: string)
    ensures var r := Shape(rows, [site], [period], [name], false, false, true, false);
            var key := (site, period.1.pretty);
            r.Scalar?
            && (key !in rows || rows[key] == [] ==> r.value == Int(0))
            && (key in rows && rows[key] != [] && rows[key][0].0 == name ==> Some(r.value) == Find(rows[key], name))
  {
    var zeros := ZeroBucket([name]);
    ZeroBucketFind([name], name);
    assert zeros != [];
    ZeroBucketFind([name], zeros[0].0);
    assert zeros[0].1 == Int(0);
  }

}
