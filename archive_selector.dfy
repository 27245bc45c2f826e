/**
 * Selection of archives. For one site and period the newest archive of a
 * plugin is the first row, in the DAO's `idarchive DESC` order, carrying one
 * of the plugin's done flags; the visit counts come from that archive and
 * from the newest `VisitsSummary` archive. For many sites and periods the
 * periods are grouped by the numeric shard of their first day and the ids
 * are looked up month by month.
 *
 * `Rules::getDoneFlags` is not part of this model: the done flags of a list
 * of plugins are given as a function, and the rows a query returns are given
 * by an oracle function of what the query asks for.
 */
module ArchiveSelection {
  import opened Wrappers
  import opened Php
  import opened Periods
  import opened ArchiveDb
  import opened Assoc
  import MysqlArchive

  const NbVisits := "nb_visits"
  const NbVisitsConverted := "nb_visits_converted"

  /** A row of the `getArchiveIdAndVisits` query. */
  datatype ResultRow = ResultRow(idarchive: int, name: string, value: Value)

  // ---------------------------------------------------------------------
  // getMostRecentIdArchiveFromResults
  // ---------------------------------------------------------------------

  /** The idarchive of the first row whose name is a done flag, or `None`. */
  function MostRecent(results: seq<ResultRow>, flags: seq<string>): (r: Option<int>)
    ensures r.None? <==> forall i :: 0 <= i < |results| ==> results[i].name !in flags
    ensures r.Some? ==> exists i :: 0 <= i < |results| && results[i].name in flags && results[i].idarchive == r.value
                          && forall j :: 0 <= j < i ==> results[j].name !in flags
    decreases |results|
  {
    if results == [] then None
    else if results[0].name in flags then
      assert results[0].name in flags;
      Some(results[0].idarchive)
    else
      var r := MostRecent(results[1..], flags);
      assert forall i :: 1 <= i < |results| ==> results[i] == results[1..][i - 1];
      if r.Some? then
        var i :| 0 <= i < |results[1..]| && results[1..][i].name in flags && results[1..][i].idarchive == r.value
                 && forall j :: 0 <= j < i ==> results[1..][j].name !in flags;
        assert results[i + 1] == results[1..][i];
        r
      else r
  }

  /** `getMostRecentIdArchiveFromResults`: scan the rows and stop at the first done flag. */
  method GetMostRecentIdArchiveFromResults(results: seq<ResultRow>, flags: seq<string>) returns (idArchive: Option<int>)
    ensures idArchive == MostRecent(results, flags)
  {
    idArchive := None;
    var i := 0;
    while i < |results|
      invariant 0 <= i <= |results|
      invariant MostRecent(results, flags) == MostRecent(results[i..], flags)
    {
      assert results[i..][1..] == results[i + 1..];
      if idArchive.None? && results[i].name in flags {
        idArchive := Some(results[i].idarchive);
        break;
      }
      i := i + 1;
    }
    if i == |results| {
      assert results[i..] == [];
    }
  }

  /**
   * With the rows in `idarchive DESC` order, the archive chosen is the
   * newest: no row with a done flag has a larger id.
   */
  lemma MostRecentIsNewest(results: seq<ResultRow>, flags: seq<string>, k: nat)
    requires forall i, j :: 0 <= i < j < |results| ==> results[i].idarchive >= results[j].idarchive
    requires k < |results| && results[k].name in flags
    ensures MostRecent(results, flags).Some? && results[k].idarchive <= MostRecent(results, flags).value
  {
    var r := MostRecent(results, flags);
    var i :| 0 <= i < |results| && results[i].name in flags && results[i].idarchive == r.value
             && forall j :: 0 <= j < i ==> results[j].name !in flags;
    assert i <= k;
  }

  // ---------------------------------------------------------------------
  // getVisitsMetricsFromResults
  // ---------------------------------------------------------------------

  /** `in_array($idarchive, [$idArchive, $idArchiveVisitsSummary])`; a `false` id matches no row. */
  predicate Chosen(row: ResultRow, idArchive: Option<int>, idVisits: Option<int>) {
    (idArchive.Some? && row.idarchive == idArchive.value) || (idVisits.Some? && row.idarchive == idVisits.value)
  }

  /** `empty()` of a metric: false or 0. */
  predicate EmptyMetric(m: Option<int>) {
    m.None? || m.value == 0
  }

  /** One metric after the scan: overwritten by the `(int)` value of each chosen row with that name while still empty. */
  function Metric(start: Option<int>, results: seq<ResultRow>, idArchive: Option<int>, idVisits: Option<int>, name: string)
    : Option<int>
    decreases |results|
  {
    if results == [] then start
    else
      var m := Metric(start, results[..|results| - 1], idArchive, idVisits, name);
      var row := results[|results| - 1];
      if Chosen(row, idArchive, idVisits) && EmptyMetric(m) && row.name == name then Some(IntCast(row.value)) else m
  }

  /** The starting value of both metrics: 0 when a `VisitsSummary` archive was found, false otherwise. */
  function MetricStart(idVisits: Option<int>): Option<int> {
    if idVisits.Some? then Some(0) else None
  }

  /** `getVisitsMetricsFromResults`: one pass over the rows updating both metrics. */
  method GetVisitsMetricsFromResults(idArchive: Option<int>, idVisits: Option<int>, results: seq<ResultRow>)
    returns (visits: Option<int>, visitsConverted: Option<int>)
    ensures visits == Metric(MetricStart(idVisits), results, idArchive, idVisits, NbVisits)
    ensures visitsConverted == Metric(MetricStart(idVisits), results, idArchive, idVisits, NbVisitsConverted)
  {
    visits, visitsConverted := None, None;
    if idVisits.Some? {
      visits, visitsConverted := Some(0), Some(0);
    }
    var i := 0;
    while i < |results|
      invariant 0 <= i <= |results|
      invariant visits == Metric(MetricStart(idVisits), results[..i], idArchive, idVisits, NbVisits)
      invariant visitsConverted == Metric(MetricStart(idVisits), results[..i], idArchive, idVisits, NbVisitsConverted)
    {
      assert results[..i + 1][..i] == results[..i];
      var row := results[i];
      if (idArchive.Some? && row.idarchive == idArchive.value) || (idVisits.Some? && row.idarchive == idVisits.value) {
        var value := IntCast(row.value);
        if EmptyMetric(visits) && row.name == NbVisits {
          visits := Some(value);
        }
        if EmptyMetric(visitsConverted) && row.name == NbVisitsConverted {
          visitsConverted := Some(value);
        }
      }
      i := i + 1;
    }
    assert results[..i] == results;
  }

  /** The first chosen row with that name and a non-zero value, as an independent reference. */
  function FirstNonZero(results: seq<ResultRow>, idArchive: Option<int>, idVisits: Option<int>, name: string): (r: Option<int>)
    ensures r.Some? ==> r.value != 0
    ensures r.Some? ==> exists i :: 0 <= i < |results| && Chosen(results[i], idArchive, idVisits) && results[i].name == name
                          && IntCast(results[i].value) == r.value && r.value != 0
    ensures r.None? ==> forall i :: 0 <= i < |results| && Chosen(results[i], idArchive, idVisits) && results[i].name == name
                          ==> IntCast(results[i].value) == 0
    decreases |results|
  {
    if results == [] then None
    else
      var first := FirstNonZero(results[1..], idArchive, idVisits, name);
      var row := results[0];
      assert forall i :: 1 <= i < |results| ==> results[i] == results[1..][i - 1];
      if Chosen(row, idArchive, idVisits) && row.name == name && IntCast(row.value) != 0 then Some(IntCast(row.value))
      else if first.Some? then
        var i :| 0 <= i < |results[1..]| && Chosen(results[1..][i], idArchive, idVisits) && results[1..][i].name == name
                 && IntCast(results[1..][i].value) == first.value && first.value != 0;
        assert results[i + 1] == results[1..][i];
        first
      else first
  }

  predicate HasChosen(results: seq<ResultRow>, idArchive: Option<int>, idVisits: Option<int>, name: string) {
    exists i :: 0 <= i < |results| && Chosen(results[i], idArchive, idVisits) && results[i].name == name
  }

  /** A chosen row with a non-zero value in front of the rest wins. */
  lemma FirstNonZeroPrefix(a: seq<ResultRow>, b: seq<ResultRow>, idArchive: Option<int>, idVisits: Option<int>, name: string)
    requires FirstNonZero(a, idArchive, idVisits, name).Some?
    ensures FirstNonZero(a + b, idArchive, idVisits, name) == FirstNonZero(a, idArchive, idVisits, name)
    decreases |a|
  {
    if a[0].name == name && Chosen(a[0], idArchive, idVisits) && IntCast(a[0].value) != 0 {
    } else {
      assert (a + b)[1..] == a[1..] + b;
      FirstNonZeroPrefix(a[1..], b, idArchive, idVisits, name);
    }
  }

  /** Without a non-zero chosen row in front, the first one of the rest is found. */
  lemma {:induction false} FirstNonZeroSkip(a: seq<ResultRow>, b: seq<ResultRow>, idArchive: Option<int>, idVisits: Option<int>, name: string)
    requires FirstNonZero(a, idArchive, idVisits, name).None?
    ensures FirstNonZero(a + b, idArchive, idVisits, name) == FirstNonZero(b, idArchive, idVisits, name)
    decreases |a|
  {
    if a == [] {
      assert a + b == b;
    } else {
      assert (a + b)[1..] == a[1..] + b;
      assert (a + b)[0] == a[0];
      FirstNonZeroSkip(a[1..], b, idArchive, idVisits, name);
    }
  }

  /**
   * The metric is the first non-zero value among the chosen rows with its
   * name; without one it is 0 when such a row exists, and its starting
   * value otherwise. Rows of other archives play no part.
   */
  lemma {:induction false} MetricFirstNonZero(start: Option<int>, results: seq<ResultRow>, idArchive: Option<int>,
                                              idVisits: Option<int>, name: string)
    requires EmptyMetric(start)
    ensures Metric(start, results, idArchive, idVisits, name)
            == if FirstNonZero(results, idArchive, idVisits, name).Some? then FirstNonZero(results, idArchive, idVisits, name)
               else if HasChosen(results, idArchive, idVisits, name) then Some(0)
               else start
    decreases |results|
  {
    if results != [] {
      var init := results[..|results| - 1];
      var row := results[|results| - 1];
      assert results == init + [row];
      MetricFirstNonZero(start, init, idArchive, idVisits, name);
      if FirstNonZero(init, idArchive, idVisits, name).Some? {
        FirstNonZeroPrefix(init, [row], idArchive, idVisits, name);
      } else {
        FirstNonZeroSkip(init, [row], idArchive, idVisits, name);
        assert [row][1..] == [];
        HasChosenSnoc(init, row, idArchive, idVisits, name);
      }
    }
  }

  lemma HasChosenSnoc(init: seq<ResultRow>, row: ResultRow, idArchive: Option<int>, idVisits: Option<int>, name: string)
    ensures HasChosen(init + [row], idArchive, idVisits, name)
            <==> HasChosen(init, idArchive, idVisits, name) || (Chosen(row, idArchive, idVisits) && row.name == name)
  {
    var results := init + [row];
    if Chosen(row, idArchive, idVisits) && row.name == name {
      assert results[|init|] == row;
    }
    if HasChosen(init, idArchive, idVisits, name) {
      var i :| 0 <= i < |init| && Chosen(init[i], idArchive, idVisits) && init[i].name == name;
      assert results[i] == init[i];
    }
    if HasChosen(results, idArchive, idVisits, name) && !(Chosen(row, idArchive, idVisits) && row.name == name) {
      var i :| 0 <= i < |results| && Chosen(results[i], idArchive, idVisits) && results[i].name == name;
      assert init[i] == results[i];
    }
  }

  // ---------------------------------------------------------------------
  // getArchiveIdAndVisits
  // ---------------------------------------------------------------------

  /** What `getArchiveIdAndVisits` returns: the archive id, the visits and the converted visits, each possibly false. */
  datatype IdAndVisits = IdAndVisits(idArchive: Option<int>, visits: Option<int>, visitsConverted: Option<int>)

  /** The answer computed from the query's rows. */
  function IdAndVisitsOf(results: seq<ResultRow>, pluginFlags: seq<string>, visitsFlags: seq<string>): Option<IdAndVisits> {
    if results == [] then None
    else
      var idArchive := MostRecent(results, pluginFlags);
      var idVisits := MostRecent(results, visitsFlags);
      var visits := Metric(MetricStart(idVisits), results, idArchive, idVisits, NbVisits);
      var converted := Metric(MetricStart(idVisits), results, idArchive, idVisits, NbVisitsConverted);
      if visits.None? && idArchive.None? then None else Some(IdAndVisits(idArchive, visits, converted))
  }

  /**
   * `getArchiveIdAndVisits`. The query over the numeric shard of the
   * period's month asks for the done flags of `VisitsSummary` together with
   * those of the requested plugin; `fetch` gives its rows for that shard and
   * flag list.
   */
  method GetArchiveIdAndVisits(period: Period, plugin: string, doneFlags: seq<string> -> seq<string>,
                               fetch: (string, seq<string>) -> seq<ResultRow>) returns (r: Option<IdAndVisits>)
    ensures r == IdAndVisitsOf(fetch(NumericTable(YearMonth(period.start)), doneFlags(["VisitsSummary", plugin])),
                               doneFlags([plugin]), doneFlags(["VisitsSummary"]))
  {
    var numericTable := NumericTable(YearMonth(period.start));
    var results := fetch(numericTable, doneFlags(["VisitsSummary", plugin]));
    if results == [] {
      return None;
    }
    var idArchive := GetMostRecentIdArchiveFromResults(results, doneFlags([plugin]));
    var idVisits := GetMostRecentIdArchiveFromResults(results, doneFlags(["VisitsSummary"]));
    var visits, converted := GetVisitsMetricsFromResults(idArchive, idVisits, results);
    if visits.None? && idArchive.None? {
      return None;
    }
    r := Some(IdAndVisits(idArchive, visits, converted));
  }

  /** No row chosen: the metric keeps its starting value. */
  lemma {:induction false} MetricUnchosen(start: Option<int>, results: seq<ResultRow>, name: string)
    ensures Metric(start, results, None, None, name) == start
    decreases |results|
  {
    if results != [] {
      MetricUnchosen(start, results[..|results| - 1], name);
    }
  }

  /**
   * The answer is "not found" exactly when the query returned no row, or
   * when neither the plugin nor `VisitsSummary` has a done archive among
   * them; a found `VisitsSummary` archive gives a number of visits.
   */
  lemma IdAndVisitsNotFound(results: seq<ResultRow>, pluginFlags: seq<string>, visitsFlags: seq<string>)
    ensures IdAndVisitsOf(results, pluginFlags, visitsFlags).None?
            <==> results == [] || (MostRecent(results, pluginFlags).None? && MostRecent(results, visitsFlags).None?)
    ensures results != [] && MostRecent(results, visitsFlags).Some? ==>
              IdAndVisitsOf(results, pluginFlags, visitsFlags).value.visits.Some?
  {
    var idArchive := MostRecent(results, pluginFlags);
    var idVisits := MostRecent(results, visitsFlags);
    if idArchive.None? && idVisits.None? {
      MetricUnchosen(None, results, NbVisits);
    }
    if idVisits.Some? {
      MetricFirstNonZero(Some(0), results, idArchive, idVisits, NbVisits);
    }
  }

  // ---------------------------------------------------------------------
  // getArchiveIds
  // ---------------------------------------------------------------------

  /** The numeric shard holding a period: the one of the month of its first day. */
  function TableOfPeriod(p: Period): string {
    NumericTable(YearMonth(p.start))
  }

  /** `(int)` of every site id. */
  function IntCasts(siteIds: seq<Value>): (r: seq<int>)
    ensures |r| == |siteIds|
    ensures forall i :: 0 <= i < |siteIds| ==> r[i] == IntCast(siteIds[i])
  {
    seq(|siteIds|, i requires 0 <= i < |siteIds| => IntCast(siteIds[i]))
  }

  /**
   * `getArchiveIds`: an empty site list is refused; the site ids are cast
   * to int, the periods grouped by shard and the DAO asked for the ids.
   */
  method GetArchiveIds(siteIds: seq<Value>, periods: seq<Period>, doneFlags: seq<string>, doneValues: seq<int>,
                       fetch: MysqlArchive.IdQuery -> seq<MysqlArchive.IdRow>) returns (r: Result<MysqlArchive.ArchiveIdMap>)
    ensures r.Err? <==> siteIds == []
    ensures r.Ok? ==> MysqlArchive.NonEmptyMonths(GroupBy(periods, TableOfPeriod))
                      && r.value == MysqlArchive.ArchiveIds(GroupBy(periods, TableOfPeriod), IntCasts(siteIds),
                                                            NameCondition(doneFlags, doneValues), fetch)
  {
    if siteIds == [] {
      return Err("Website IDs could not be read from the request, ie. idSite=");
    }
    var ids: seq<int> := [];
    var i := 0;
    while i < |siteIds|
      invariant 0 <= i <= |siteIds|
      invariant ids == IntCasts(siteIds[..i])
    {
      ids := ids + [IntCast(siteIds[i])];
      i := i + 1;
    }
    assert siteIds[..i] == siteIds;
    var monthToPeriods: seq<(string, seq<Period>)> := [];
    var k := 0;
    while k < |periods|
      invariant 0 <= k <= |periods|
      invariant monthToPeriods == GroupBy(periods[..k], TableOfPeriod)
    {
      assert periods[..k + 1][..k] == periods[..k];
      monthToPeriods := Append(monthToPeriods, TableOfPeriod(periods[k]), periods[k]);
      k := k + 1;
    }
    assert periods[..k] == periods;
    GroupByFind(periods, TableOfPeriod, "");
    var result := MysqlArchive.GetArchiveIds(ids, monthToPeriods, NameCondition(doneFlags, doneValues), fetch);
    r := Ok(result);
  }

  /** Quoting each flag: `'flag'`. */
  function Quoted(flags: seq<string>): (r: seq<string>)
    ensures |r| == |flags|
    ensures forall i :: 0 <= i < |flags| ==> r[i] == "'" + flags[i] + "'"
  {
    seq(|flags|, i requires 0 <= i < |flags| => "'" + flags[i] + "'")
  }

  /** `getNameCondition`: the done flags quoted in an IN list, and the selectable done values in another. */
  function NameCondition(doneFlags: seq<string>, doneValues: seq<int>): string {
    "((name IN ('" + Join(doneFlags, "','") + "')) AND (value IN ("
    + Join(seq(|doneValues|, i requires 0 <= i < |doneValues| => IntToString(doneValues[i])), ",") + ")))"
  }

  /** The IN list of names is the comma-separated list of the quoted done flags. */
  lemma {:induction false} QuotedList(flags: seq<string>)
    requires flags != []
    ensures "'" + Join(flags, "','") + "'" == Join(Quoted(flags), ",")
    decreases |flags|
  {
    if |flags| > 1 {
      QuotedList(flags[1..]);
      assert Quoted(flags)[1..] == Quoted(flags[1..]);
      assert "'" + Join(flags, "','") + "'"
          == ("'" + flags[0] + "'") + "," + ("'" + Join(flags[1..], "','") + "'");
    }
  }

  /** A subtable row name built by `appendIdSubtable` with a positive id is picked up by the "all subtables" filter. */
  lemma AppendIdSubtableSelected(name: string, id: int)
    requires '%' !in name && id > 0
    ensures MysqlArchive.SubtableNameMatch(name, AppendIdSubtable(name, id))
  {
    MysqlArchive.SubtableNameSelected(name, id);
  }
}
