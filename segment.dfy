/**
 * A visitor segment (core/Segment.php): a condition string such as
 * `browserCode=ff;countryCode=CA`, truncated and parsed into conditions whose
 * operands are mapped to SQL columns, and the planner that joins the log
 * tables a segmented query needs.
 *
 * Parsing the condition string and turning conditions into SQL belong to
 * SegmentExpression, which is not part of this model: the parser and the
 * generated segment SQL are parameters.
 */
module Segments {
  import opened Wrappers
  import opened Php

  /** Segment strings are cut to this many characters before parsing. */
  const TruncateLimit := 8192

  const LogVisit := "log_visit"
  const LogAction := "log_link_visit_action"
  const LogConversion := "log_conversion"
  const LogConversionItem := "log_conversion_item"

  const DisabledMessage := "The Super User has disabled the Segmentation feature."
  const NoNeededFieldsMessage := "No needed fields found in select expression. Please use a table prefix."

  /** How an operand is matched; SegmentExpression's other operators are `Compare`. */
  datatype MatchType =
    | IsNullOrEmpty
    | IsNotNullNorEmpty
    | ActionsContains
    | Compare(op: string)

  /**
   * The value an operand is matched against: the text from the condition,
   * an action id a filter looked up, or a sub-select a filter built.
   */
  datatype SegmentValue =
    | Text(text: string)
    | IdAction(id: int)
    | SubSql(sql: string, bind: seq<Value>)

  /** `array(name, matchType, value)`: before cleaning `name` is the segment name, after it the SQL column. */
  datatype Operand = Operand(name: string, matchType: MatchType, value: SegmentValue)

  /** One parsed sub-expression: the boolean connective before it and its operand. */
  datatype Condition = Condition(connective: string, operand: Operand)

  /** One entry of the segments metadata: the segment name, its SQL column, and optional permission and filters. */
  datatype SegmentMetadata = SegmentMetadata(
    segment: string,
    sqlSegment: string,
    permission: Option<int>,
    sqlFilterValue: Option<SegmentValue -> SegmentValue>,
    sqlFilter: Option<(SegmentValue, string, MatchType, string) -> SegmentValue>)

  /** A constructed segment: its (truncated) string, the sites, and the cleaned conditions. */
  datatype Segment = Segment(str: string, idSites: seq<int>, conditions: seq<Condition>)

  /** A query and its bind parameters. */
  datatype Query = Query(sql: string, bind: seq<Value>)

  function NoPermissionMessage(name: string): string {
    "You do not have enough permission to access the segment " + name
  }

  function UnsupportedMessage(name: string): string {
    "Segment '" + name + "' is not a supported segment."
  }

  // ---------------------------------------------------------------------
  // Construction
  // ---------------------------------------------------------------------

  /** `substr($string, 0, SEGMENT_TRUNCATE_LIMIT)`. */
  function Truncate(s: string): (r: string)
    ensures |r| == if |s| <= TruncateLimit then |s| else TruncateLimit
    ensures r == s[..|r|]
  {
    if |s| <= TruncateLimit then s else s[..TruncateLimit]
  }

  /** The index of the first metadata entry for segment `name`, if any. */
  function FirstNamed(available: seq<SegmentMetadata>, name: string): (r: Option<nat>)
    ensures r.Some? ==> r.value < |available| && available[r.value].segment == name
    ensures r.Some? ==> forall j :: 0 <= j < r.value ==> available[j].segment != name
    ensures r.None? ==> forall j :: 0 <= j < |available| ==> available[j].segment != name
  {
    if available == [] then None
    else if available[0].segment == name then Some(0)
    else match FirstNamed(available[1..], name)
      case None => None
      case Some(k) => Some(k + 1)
  }

  lemma FirstNamedAt(available: seq<SegmentMetadata>, name: string, k: nat)
    requires k < |available| && available[k].segment == name
    requires forall j :: 0 <= j < k ==> available[j].segment != name
    ensures FirstNamed(available, name) == Some(k)
  {
  }

  /** The value filters of one metadata entry, skipped for the null/empty match types. */
  function Filtered(m: SegmentMetadata, name: string, matchType: MatchType, value: SegmentValue): (MatchType, SegmentValue) {
    if matchType == IsNotNullNorEmpty || matchType == IsNullOrEmpty then (matchType, value)
    else
      var v1 := if m.sqlFilterValue.Some? then m.sqlFilterValue.value(value) else value;
      if m.sqlFilter.Some? then
        var v2 := m.sqlFilter.value(v1, m.sqlSegment, matchType, name);
        (if v2.SubSql? then ActionsContains else matchType, v2)
      else (matchType, v1)
  }

  /** What cleaning the operand `(name, matchType, value)` against the metadata yields. */
  function CleanedExpression(available: seq<SegmentMetadata>, name: string, matchType: MatchType, value: SegmentValue): Result<Operand> {
    match FirstNamed(available, name)
    case None => Err(UnsupportedMessage(name))
    case Some(k) =>
      var m := available[k];
      if m.permission.Some? && m.permission.value != 1 then Err(NoPermissionMessage(name))
      else if IsEmptyString(m.sqlSegment) then Err(UnsupportedMessage(name))
      else
        var f := Filtered(m, name, matchType, value);
        Ok(Operand(m.sqlSegment, f.0, f.1))
  }

  /**
   * Maps a segment name to its SQL column, checking the permission and
   * applying the value filters of the first metadata entry with that name.
   */
  method GetCleanedExpression(available: seq<SegmentMetadata>, name: string, matchType: MatchType, value: SegmentValue)
    returns (r: Result<Operand>)
    ensures r == CleanedExpression(available, name, matchType, value)
  {
    var sqlName := "";
    var mt := matchType;
    var v := value;
    ghost var found: Option<nat> := None;
    var i := 0;
    while i < |available|
      invariant 0 <= i <= |available|
      invariant forall j :: 0 <= j < i ==> available[j].segment != name
      invariant sqlName == "" && mt == matchType && v == value && found == None
    {
      var segment := available[i];
      if segment.segment != name {
        i := i + 1;
        continue;
      }
      FirstNamedAt(available, name, i);
      sqlName := segment.sqlSegment;
      if segment.permission.Some? && segment.permission.value != 1 {
        return Err(NoPermissionMessage(name));
      }
      if mt != IsNotNullNorEmpty && mt != IsNullOrEmpty {
        if segment.sqlFilterValue.Some? {
          v := segment.sqlFilterValue.value(v);
        }
        if segment.sqlFilter.Some? {
          v := segment.sqlFilter.value(v, segment.sqlSegment, mt, name);
          if v.SubSql? {
            mt := ActionsContains;
          }
        }
      }
      assert (mt, v) == Filtered(segment, name, matchType, value);
      found := Some(i);
      break;
    }
    if found.None? {
      assert FirstNamed(available, name) == None;
    }
    if IsEmptyString(sqlName) {
      return Err(UnsupportedMessage(name));
    }
    return Ok(Operand(sqlName, mt, v));
  }

  /** A name with no metadata entry is rejected. */
  lemma UnknownSegmentRejected(available: seq<SegmentMetadata>, name: string, matchType: MatchType, value: SegmentValue)
    requires forall j :: 0 <= j < |available| ==> available[j].segment != name
    ensures CleanedExpression(available, name, matchType, value) == Err(UnsupportedMessage(name))
  {
  }

  /** The first entry for the name decides: a permission other than 1 is refused. */
  lemma PermissionRequired(available: seq<SegmentMetadata>, name: string, matchType: MatchType, value: SegmentValue, k: nat)
    requires k < |available| && available[k].segment == name
    requires forall j :: 0 <= j < k ==> available[j].segment != name
    requires available[k].permission.Some? && available[k].permission.value != 1
    ensures CleanedExpression(available, name, matchType, value) == Err(NoPermissionMessage(name))
  {
    FirstNamedAt(available, name, k);
  }

  /**
   * A cleaned operand names the SQL column of the first entry for the segment,
   * which is permitted; the null/empty match types keep the value unfiltered;
   * a filter that returns a sub-select switches the match to `ActionsContains`.
   */
  lemma CleanedOperand(available: seq<SegmentMetadata>, name: string, matchType: MatchType, value: SegmentValue)
    requires CleanedExpression(available, name, matchType, value).Ok?
    ensures var op := CleanedExpression(available, name, matchType, value).value;
      exists k :: 0 <= k < |available| && available[k].segment == name
        && (forall j :: 0 <= j < k ==> available[j].segment != name)
        && op.name == available[k].sqlSegment && !IsEmptyString(op.name)
        && (available[k].permission.None? || available[k].permission.value == 1)
    ensures var op := CleanedExpression(available, name, matchType, value).value;
      matchType == IsNullOrEmpty || matchType == IsNotNullNorEmpty ==> op.matchType == matchType && op.value == value
    ensures var op := CleanedExpression(available, name, matchType, value).value;
      var m := available[FirstNamed(available, name).value];
      matchType != IsNullOrEmpty && matchType != IsNotNullNorEmpty && m.sqlFilter.Some? ==>
        op.matchType == if op.value.SubSql? then ActionsContains else matchType
  {
    var k := FirstNamed(available, name).value;
    assert available[k].segment == name;
  }

  /** Every condition's operand cleaned in order; the first failure is the result. */
  function CleanAll(available: seq<SegmentMetadata>, conds: seq<Condition>): Result<seq<Condition>>
    decreases |conds|
  {
    if conds == [] then Ok([])
    else match CleanAll(available, conds[..|conds| - 1])
      case Err(e) => Err(e)
      case Ok(done) =>
        var c := conds[|conds| - 1];
        match CleanedExpression(available, c.operand.name, c.operand.matchType, c.operand.value)
        case Err(e) => Err(e)
        case Ok(op) => Ok(done + [c.(operand := op)])
  }

  /** Once a prefix of the conditions fails, the whole fails the same way. */
  lemma {:induction false} CleanAllStops(available: seq<SegmentMetadata>, conds: seq<Condition>, k: nat)
    requires k <= |conds| && CleanAll(available, conds[..k]).Err?
    ensures CleanAll(available, conds) == CleanAll(available, conds[..k])
    decreases |conds| - k
  {
    if k < |conds| {
      assert conds[..k + 1][..k] == conds[..k];
      CleanAllStops(available, conds, k + 1);
    } else {
      assert conds[..k] == conds;
    }
  }

  /** Whether one condition's operand cleans. */
  predicate Cleans(available: seq<SegmentMetadata>, c: Condition) {
    CleanedExpression(available, c.operand.name, c.operand.matchType, c.operand.value).Ok?
  }

  /** The condition with its operand cleaned. */
  function CleanedCondition(available: seq<SegmentMetadata>, c: Condition): Condition
    requires Cleans(available, c)
  {
    c.(operand := CleanedExpression(available, c.operand.name, c.operand.matchType, c.operand.value).value)
  }

  /**
   * Cleaning succeeds exactly when every operand cleans, and then keeps the
   * connectives and replaces each operand by its cleaned form.
   */
  lemma {:induction false} CleanAllEach(available: seq<SegmentMetadata>, conds: seq<Condition>)
    ensures CleanAll(available, conds).Ok? <==> forall i :: 0 <= i < |conds| ==> Cleans(available, conds[i])
    ensures CleanAll(available, conds).Ok? ==>
      var r := CleanAll(available, conds).value;
      |r| == |conds| && forall i :: 0 <= i < |conds| ==> r[i] == CleanedCondition(available, conds[i])
    decreases |conds|
  {
    if conds != [] {
      var n := |conds| - 1;
      var init := conds[..n];
      CleanAllEach(available, init);
      assert forall i :: 0 <= i < n ==> init[i] == conds[i];
      if CleanAll(available, init).Ok? && Cleans(available, conds[n]) {
        var done := CleanAll(available, init).value;
        assert CleanAll(available, conds) == Ok(done + [CleanedCondition(available, conds[n])]);
      } else if CleanAll(available, init).Err? {
        var i :| 0 <= i < n && !Cleans(available, init[i]);
        assert !Cleans(available, conds[i]);
      }
    }
  }

  /** What `initializeSegment` makes of the string, or the exception it throws. */
  function Initialized(s: string, idSites: seq<int>, parse: string -> Result<seq<Condition>>, available: seq<SegmentMetadata>): Result<Segment> {
    var str := Truncate(s);
    match parse(str)
    case Err(e) => Err(e)
    case Ok(conds) =>
      match CleanAll(available, conds)
      case Err(e) => Err(e)
      case Ok(cleaned) => Ok(Segment(str, idSites, cleaned))
  }

  /** Truncates the string, parses it and cleans every operand. */
  method InitializeSegment(s: string, idSites: seq<int>, parse: string -> Result<seq<Condition>>, available: seq<SegmentMetadata>)
    returns (r: Result<Segment>)
    ensures r == Initialized(s, idSites, parse, available)
  {
    var str := Truncate(s);
    var parsed := parse(str);
    if parsed.Err? {
      return Err(parsed.error);
    }
    var expressions := parsed.value;
    var cleaned := [];
    for i := 0 to |expressions|
      invariant CleanAll(available, expressions[..i]) == Ok(cleaned)
    {
      assert expressions[..i + 1][..i] == expressions[..i];
      var expression := expressions[i];
      var op := GetCleanedExpression(available, expression.operand.name, expression.operand.matchType, expression.operand.value);
      if op.Err? {
        CleanAllStops(available, expressions, i + 1);
        return Err(op.error);
      }
      cleaned := cleaned + [expression.(operand := op.value)];
    }
    assert expressions[..|expressions|] == expressions;
    return Ok(Segment(str, idSites, cleaned));
  }

  /**
   * The constructor: the condition is trimmed; a non-empty one is refused
   * when segmentation is disabled; the url-decoded form is tried first and
   * the raw form when that throws.
   */
  method NewSegment(condition: string, idSites: seq<int>, segmentationEnabled: bool, urldecode: string -> string,
                    parse: string -> Result<seq<Condition>>, available: seq<SegmentMetadata>)
    returns (r: Result<Segment>)
    ensures !segmentationEnabled && !IsEmptyString(Trim(condition)) ==> r == Err(DisabledMessage)
    ensures segmentationEnabled || IsEmptyString(Trim(condition)) ==>
      (var decoded := Initialized(urldecode(Trim(condition)), idSites, parse, available);
       (decoded.Ok? ==> r == decoded)
       && (decoded.Err? ==> r == Initialized(Trim(condition), idSites, parse, available)))
    ensures r.Ok? ==>
      (|r.value.str| <= TruncateLimit
       && (r.value.str == Truncate(urldecode(Trim(condition))) || r.value.str == Truncate(Trim(condition)))
       && r.value.idSites == idSites)
  {
    var segmentCondition := Trim(condition);
    if !segmentationEnabled && !IsEmptyString(segmentCondition) {
      return Err(DisabledMessage);
    }
    InitializedShape(urldecode(segmentCondition), idSites, parse, available);
    InitializedShape(segmentCondition, idSites, parse, available);
    r := InitializeSegment(urldecode(segmentCondition), idSites, parse, available);
    if r.Err? {
      r := InitializeSegment(segmentCondition, idSites, parse, available);
    }
  }

  /** An initialised segment holds the truncated string and the given sites. */
  lemma InitializedShape(s: string, idSites: seq<int>, parse: string -> Result<seq<Condition>>, available: seq<SegmentMetadata>)
    ensures Initialized(s, idSites, parse, available).Ok? ==>
      Initialized(s, idSites, parse, available).value.str == Truncate(s)
      && Initialized(s, idSites, parse, available).value.idSites == idSites
  {
  }

  // ---------------------------------------------------------------------
  // Emptiness and hash
  // ---------------------------------------------------------------------

  /** `isEmpty()`: PHP `empty()` on the string, so "0" is empty too. */
  predicate IsEmptySegment(seg: Segment) {
    IsEmptyString(seg.str)
  }

  /** An md5 digest: 32 hexadecimal characters. */
  type Md5Digest = s: string | |s| == 32 witness "00000000000000000000000000000000"

  /** `getHash()`: '' for an empty segment, otherwise the md5 of the url-decoded string. */
  function Hash(seg: Segment, urldecode: string -> string, md5: string -> Md5Digest): (r: string)
    ensures r == "" <==> seg.str == "" || seg.str == "0"
    ensures !IsEmptySegment(seg) ==> r == md5(urldecode(seg.str))
  {
    if IsEmptySegment(seg) then "" else md5(urldecode(seg.str))
  }

  // ---------------------------------------------------------------------
  // Joins
  // ---------------------------------------------------------------------

  /** An entry of `$from`: a log table name, or an explicit join. */
  datatype TableRef =
    | Log(name: string)
    | JoinOn(table: string, alias: Option<string>, joinOn: string)

  predicate Known(table: string) {
    table == LogVisit || table == LogAction || table == LogConversion || table == LogConversionItem
  }

  const ConversionOnAction := "log_conversion.idlink_va = log_link_visit_action.idlink_va AND log_conversion.idsite = log_link_visit_action.idsite"
  const VisitOnAction := "log_visit.idvisit = log_link_visit_action.idvisit"
  const ActionOnVisit := "log_link_visit_action.idvisit = log_visit.idvisit"
  const ActionOnConversion := "log_conversion.idlink_va = log_link_visit_action.idlink_va"
  const ConversionOnVisit := "log_conversion.idvisit = log_visit.idvisit"
  const VisitOnItem := "log_conversion_item.idvisit = log_visit.idvisit"
  const ActionOnItem := "log_conversion_item.idvisit = log_link_visit_action.idvisit"

  /** The state of the planner: the SQL so far, the sub-select flag and which tables are available. */
  datatype JoinState = JoinState(sql: string, subSelect: bool, visits: bool, actions: bool, conversions: bool, items: bool)

  const NoJoins := JoinState("", false, false, false, false, false)

  /** `array_search($name, $tables)`: the first index holding the table name. */
  function SearchIndex(ts: seq<TableRef>, name: string): (r: Option<nat>)
    ensures r.Some? ==> r.value < |ts| && ts[r.value] == Log(name)
    ensures r.Some? ==> forall j :: 0 <= j < r.value ==> ts[j] != Log(name)
    ensures r.None? ==> forall j :: 0 <= j < |ts| ==> ts[j] != Log(name)
  {
    if ts == [] then None
    else if ts[0] == Log(name) then Some(0)
    else match SearchIndex(ts[1..], name)
      case None => None
      case Some(k) => Some(k + 1)
  }

  /** Swaps the first `first` and the first `second` when both are past index 0 and `first` comes later. */
  function PutBefore(ts: seq<TableRef>, first: string, second: string): seq<TableRef> {
    var a := SearchIndex(ts, first);
    var b := SearchIndex(ts, second);
    if a.Some? && b.Some? && a.value > 0 && b.value > 0 && a.value > b.value then
      ts[a.value := Log(second)][b.value := Log(first)]
    else ts
  }

  /** The table order the planner uses: actions before conversions, then actions before visits. */
  function Ordered(ts: seq<TableRef>): seq<TableRef> {
    PutBefore(PutBefore(ts, LogAction, LogConversion), LogAction, LogVisit)
  }

  lemma SwapPermutes(ts: seq<TableRef>, i: nat, j: nat)
    requires j < i < |ts|
    ensures multiset(ts[i := ts[j]][j := ts[i]]) == multiset(ts)
  {
    var r := ts[i := ts[j]][j := ts[i]];
    assert ts == ts[..j] + [ts[j]] + ts[j + 1..i] + [ts[i]] + ts[i + 1..];
    assert r == ts[..j] + [ts[i]] + ts[j + 1..i] + [ts[j]] + ts[i + 1..];
  }

  /**
   * The swap only exchanges two entries: the tables are a permutation of the
   * input, and the first table and every other entry stay put.
   */
  lemma PutBeforePermutes(ts: seq<TableRef>, first: string, second: string)
    ensures var r := PutBefore(ts, first, second);
      |r| == |ts| && multiset(r) == multiset(ts)
      && (|ts| > 0 ==> r[0] == ts[0])
      && (forall k :: 0 <= k < |ts| && ts[k] != Log(first) && ts[k] != Log(second) ==> r[k] == ts[k])
  {
    var a := SearchIndex(ts, first);
    var b := SearchIndex(ts, second);
    if a.Some? && b.Some? && a.value > 0 && b.value > 0 && a.value > b.value {
      SwapPermutes(ts, a.value, b.value);
    }
  }

  /** When both names were found past index 0, the first `first` now precedes the first `second`. */
  lemma PutBeforeOrders(ts: seq<TableRef>, first: string, second: string)
    requires first != second
    requires SearchIndex(ts, first).Some? && SearchIndex(ts, second).Some?
    requires SearchIndex(ts, first).value > 0 && SearchIndex(ts, second).value > 0
    ensures var r := PutBefore(ts, first, second);
      SearchIndex(r, first).Some? && SearchIndex(r, second).Some?
      && SearchIndex(r, first).value < SearchIndex(r, second).value
  {
    var i := SearchIndex(ts, first).value;
    var j := SearchIndex(ts, second).value;
    var r := PutBefore(ts, first, second);
    if i > j {
      assert r == ts[i := Log(second)][j := Log(first)];
      var fa := SearchIndex(r, first);
      var fb := SearchIndex(r, second);
      assert r[j] == Log(first);
      assert fa.Some? && fa.value <= j;
      assert forall k :: 0 <= k <= j ==> r[k] != Log(second);
      assert r[i] == Log(second);
      assert fb.Some? && fb.value > j;
    }
  }

  lemma TableNamesDistinct()
    ensures LogVisit != LogAction && LogVisit != LogConversion && LogVisit != LogConversionItem
    ensures LogAction != LogConversion && LogAction != LogConversionItem && LogConversion != LogConversionItem
  {
    assert |LogVisit| == 9 && |LogAction| == 21 && |LogConversion| == 14 && |LogConversionItem| == 19;
  }

  /** Both swaps leave the first table and every entry other than actions, conversions and visits where they were. */
  lemma OrderedKeeps(ts: seq<TableRef>)
    ensures |Ordered(ts)| == |ts| && multiset(Ordered(ts)) == multiset(ts)
    ensures |ts| > 0 ==> Ordered(ts)[0] == ts[0]
    ensures forall k :: 0 <= k < |ts| && !(ts[k].Log? && Known(ts[k].name)) ==> Ordered(ts)[k] == ts[k]
    ensures forall k :: 0 <= k < |ts| && ts[k] == Log(LogConversionItem) ==> Ordered(ts)[k] == ts[k]
  {
    TableNamesDistinct();
    PutBeforePermutes(ts, LogAction, LogConversion);
    PutBeforePermutes(PutBefore(ts, LogAction, LogConversion), LogAction, LogVisit);
  }

  /** The join rule for a table past the first, given which tables are already available. */
  function JoinRule(visits: bool, actions: bool, conversions: bool, items: bool, table: string): Option<(string, bool)> {
    if actions && table == LogConversion then Some((ConversionOnAction, false))
    else if actions && table == LogVisit then Some((VisitOnAction, false))
    else if visits && table == LogAction then Some((ActionOnVisit, true))
    else if conversions && table == LogAction then Some((ActionOnConversion, false))
    else if (visits && table == LogConversion) || (conversions && table == LogVisit) then
      Some((ConversionOnVisit, table == LogConversion))
    else if items && table == LogVisit then Some((VisitOnItem, false))
    else if items && table == LogAction then Some((ActionOnItem, false))
    else None
  }

  /** `prefixTable($table) AS $table`. */
  function TableSql(prefix: string, table: string): string {
    prefix + table + " AS " + table
  }

  /** ` LEFT JOIN <table> ON <condition>`. */
  function JoinClause(tableSql: string, on: string): string {
    " LEFT JOIN " + tableSql + " ON " + on
  }

  function Remember(st: JoinState, table: string): JoinState {
    st.(visits := st.visits || table == LogVisit,
        actions := st.actions || table == LogAction,
        conversions := st.conversions || table == LogConversion,
        items := st.items || table == LogConversionItem)
  }

  /** One iteration of the planner's loop over the table at index `i`. */
  function JoinStep(st: JoinState, i: nat, t: TableRef, prefix: string): Result<JoinState> {
    match t
    case JoinOn(table, alias, on) =>
      Ok(st.(sql := st.sql + JoinClause(prefix + table + " AS " + (if alias.Some? then alias.value else table), on)))
    case Log(table) =>
      if !Known(table) then Err("Table '" + table + "' can't be used for segmentation")
      else if i == 0 then Ok(Remember(st.(sql := st.sql + TableSql(prefix, table)), table))
      else match JoinRule(st.visits, st.actions, st.conversions, st.items, table)
        case None => Err("Table '" + table + "', can't be joined for segmentation")
        case Some(rule) =>
          Ok(Remember(st.(sql := st.sql + JoinClause(TableSql(prefix, table), rule.0),
                          subSelect := st.subSelect || rule.1), table))
  }

  /** The planner's loop over the (already ordered) tables. */
  function JoinAll(ts: seq<TableRef>, prefix: string): Result<JoinState>
    decreases |ts|
  {
    if ts == [] then Ok(NoJoins)
    else match JoinAll(ts[..|ts| - 1], prefix)
      case Err(e) => Err(e)
      case Ok(st) => JoinStep(st, |ts| - 1, ts[|ts| - 1], prefix)
  }

  lemma JoinAllSnoc(ts: seq<TableRef>, prefix: string, i: nat, st: JoinState)
    requires i < |ts| && JoinAll(ts[..i], prefix) == Ok(st)
    ensures JoinAll(ts[..i + 1], prefix) == JoinStep(st, i, ts[i], prefix)
  {
    assert ts[..i + 1][..i] == ts[..i];
  }

  /** What `generateJoins` returns: the FROM clause and whether a sub-select is needed. */
  function JoinsOf(tables: seq<TableRef>, prefix: string): Result<(string, bool)> {
    match JoinAll(Ordered(tables), prefix)
    case Err(e) => Err(e)
    case Ok(st) => Ok((st.sql, st.subSelect))
  }

  lemma {:induction false} JoinAllStops(ts: seq<TableRef>, prefix: string, k: nat)
    requires k <= |ts| && JoinAll(ts[..k], prefix).Err?
    ensures JoinAll(ts, prefix) == JoinAll(ts[..k], prefix)
    decreases |ts| - k
  {
    if k < |ts| {
      assert ts[..k + 1][..k] == ts[..k];
      JoinAllStops(ts, prefix, k + 1);
    } else {
      assert ts[..k] == ts;
    }
  }

  /** Puts actions before conversions, then actions before visits, when both are past the first entry. */
  method OrderTables(tables: seq<TableRef>) returns (ts: seq<TableRef>)
    ensures ts == Ordered(tables)
  {
    ts := tables;
    var actionIndex := SearchIndex(ts, LogAction);
    var conversionIndex := SearchIndex(ts, LogConversion);
    if actionIndex.Some? && conversionIndex.Some? && actionIndex.value > 0 && conversionIndex.value > 0
      && actionIndex.value > conversionIndex.value
    {
      ts := ts[actionIndex.value := Log(LogConversion)][conversionIndex.value := Log(LogAction)];
    }
    actionIndex := SearchIndex(ts, LogAction);
    var visitIndex := SearchIndex(ts, LogVisit);
    if actionIndex.Some? && visitIndex.Some? && actionIndex.value > 0 && visitIndex.value > 0
      && actionIndex.value > visitIndex.value
    {
      ts := ts[actionIndex.value := Log(LogVisit)][visitIndex.value := Log(LogAction)];
    }
  }

  /**
   * Orders the tables, then builds the FROM clause table by table: explicit
   * joins as given, the first log table bare, every later one joined by the
   * first rule that applies to the tables already available.
   */
  method GenerateJoins(tables: seq<TableRef>, prefix: string) returns (r: Result<(string, bool)>)
    ensures r == JoinsOf(tables, prefix)
  {
    var ts := OrderTables(tables);
    var sql := "";
    var joinWithSubSelect, visitsAvailable, actionsAvailable, conversionsAvailable, conversionItemAvailable :=
      false, false, false, false, false;
    var i := 0;
    while i < |ts|
      invariant 0 <= i <= |ts|
      invariant JoinAll(ts[..i], prefix) ==
        Ok(JoinState(sql, joinWithSubSelect, visitsAvailable, actionsAvailable, conversionsAvailable, conversionItemAvailable))
    {
      JoinAllSnoc(ts, prefix, i, JoinState(sql, joinWithSubSelect, visitsAvailable, actionsAvailable, conversionsAvailable, conversionItemAvailable));
      var step := JoinTable(ts[i], i, prefix, sql, joinWithSubSelect,
                            visitsAvailable, actionsAvailable, conversionsAvailable, conversionItemAvailable);
      if step.Err? {
        JoinAllStops(ts, prefix, i + 1);
        return Err(step.error);
      }
      sql, joinWithSubSelect := step.value.sql, step.value.subSelect;
      visitsAvailable, actionsAvailable := step.value.visits, step.value.actions;
      conversionsAvailable, conversionItemAvailable := step.value.conversions, step.value.items;
      i := i + 1;
    }
    assert ts[..|ts|] == ts;
    return Ok((sql, joinWithSubSelect));
  }

  /**
   * The body of `generateJoins`' loop for the table at index `i`: an
   * explicit join is appended as given; a log table outside the four known
   * ones is refused; the first table is added bare, any later one by the
   * first rule that applies to the tables already available, and refused
   * when none does. A log table that is added becomes available.
   */
  method JoinTable(t: TableRef, i: nat, prefix: string, sql0: string, joinWithSubSelect0: bool,
                   visitsAvailable: bool, actionsAvailable: bool, conversionsAvailable: bool, conversionItemAvailable: bool)
    returns (r: Result<JoinState>)
    ensures r == JoinStep(JoinState(sql0, joinWithSubSelect0, visitsAvailable, actionsAvailable, conversionsAvailable,
                                    conversionItemAvailable), i, t, prefix)
  {
    TableNamesDistinct();
    var sql, joinWithSubSelect := sql0, joinWithSubSelect0;
    if t.JoinOn? {
      var alias := if t.alias.Some? then t.alias.value else t.table;
      sql := sql + JoinClause(prefix + t.table + " AS " + alias, t.joinOn);
      return Ok(JoinState(sql, joinWithSubSelect, visitsAvailable, actionsAvailable, conversionsAvailable, conversionItemAvailable));
    }
    var table := t.name;
    if !Known(table) {
      return Err("Table '" + table + "' can't be used for segmentation");
    }
    var tableSql := TableSql(prefix, table);
    if i == 0 {
      sql := sql + tableSql;
    } else {
      var join := JoinRule(visitsAvailable, actionsAvailable, conversionsAvailable, conversionItemAvailable, table);
      if join.None? {
        return Err("Table '" + table + "', can't be joined for segmentation");
      }
      if join.value.1 {
        joinWithSubSelect := true;
      }
      sql := sql + JoinClause(tableSql, join.value.0);
    }
    r := Ok(JoinState(sql, joinWithSubSelect,
                      visitsAvailable || table == LogVisit, actionsAvailable || table == LogAction,
                      conversionsAvailable || table == LogConversion, conversionItemAvailable || table == LogConversionItem));
  }

  /** A log table outside the four known ones is refused, wherever it stands. */
  lemma UnknownTableRejected(tables: seq<TableRef>, prefix: string, k: nat)
    requires k < |tables| && tables[k].Log? && !Known(tables[k].name)
    ensures JoinsOf(tables, prefix).Err?
  {
    OrderedKeeps(tables);
    var ts := Ordered(tables);
    assert ts[k] == tables[k];
    match JoinAll(ts[..k], prefix)
    case Err(_) =>
      JoinAllStops(ts, prefix, k);
    case Ok(st) =>
      JoinAllSnoc(ts, prefix, k, st);
      JoinAllStops(ts, prefix, k + 1);
  }

  /** No rule joins `log_conversion_item` onto other tables: it can only come first. */
  lemma ConversionItemOnlyFirst(tables: seq<TableRef>, prefix: string, k: nat)
    requires 0 < k < |tables| && tables[k] == Log(LogConversionItem)
    ensures JoinsOf(tables, prefix).Err?
  {
    OrderedKeeps(tables);
    var ts := Ordered(tables);
    assert ts[k] == tables[k];
    match JoinAll(ts[..k], prefix)
    case Err(_) =>
      JoinAllStops(ts, prefix, k);
    case Ok(st) =>
      JoinAllSnoc(ts, prefix, k, st);
      ConversionItemNotJoined(st, k, prefix);
      JoinAllStops(ts, prefix, k + 1);
  }

  /** `log_conversion_item` after the first table is refused, whatever came before. */
  lemma ConversionItemNotJoined(st: JoinState, i: nat, prefix: string)
    requires i > 0
    ensures JoinStep(st, i, Log(LogConversionItem), prefix).Err?
  {
    assert Known(LogConversionItem);
    assert JoinRule(st.visits, st.actions, st.conversions, st.items, LogConversionItem).None?;
  }

  /** The SQL of a longer run of tables extends the SQL of a shorter one. */
  lemma {:induction false} JoinAllExtends(ts: seq<TableRef>, prefix: string, k: nat)
    requires k <= |ts| && JoinAll(ts, prefix).Ok?
    ensures JoinAll(ts[..k], prefix).Ok? && StartsWith(JoinAll(ts, prefix).value.sql, JoinAll(ts[..k], prefix).value.sql)
    decreases |ts|
  {
    if k == |ts| {
      assert ts[..k] == ts;
    } else {
      var init := ts[..|ts| - 1];
      assert init[..k] == ts[..k];
      JoinAllExtends(init, prefix, k);
    }
  }

  lemma JoinAllFirst(ts: seq<TableRef>, prefix: string)
    requires |ts| == 1
    ensures JoinAll(ts, prefix) == JoinStep(NoJoins, 0, ts[0], prefix)
  {
    assert ts[..0] == [];
  }

  /** The first log table is not joined: the FROM clause starts with it bare. */
  lemma FirstTableNotJoined(tables: seq<TableRef>, prefix: string)
    requires |tables| > 0 && tables[0].Log? && JoinsOf(tables, prefix).Ok?
    ensures StartsWith(JoinsOf(tables, prefix).value.0, prefix + tables[0].name + " AS " + tables[0].name)
  {
    OrderedKeeps(tables);
    var ts := Ordered(tables);
    JoinAllExtends(ts, prefix, 1);
    JoinAllFirst(ts[..1], prefix);
    assert JoinAll(ts[..1], prefix) == JoinStep(NoJoins, 0, tables[0], prefix);
    assert JoinAll(ts[..1], prefix).value.sql == "" + TableSql(prefix, tables[0].name) == TableSql(prefix, tables[0].name);
  }

  /** At index `j`, an action follows a visit, or a conversion follows a visit with no action before it. */
  predicate SubSelectAt(ts: seq<TableRef>, j: int)
    requires 0 <= j < |ts|
  {
    (ts[j] == Log(LogAction) && Log(LogVisit) in ts[..j])
    || (ts[j] == Log(LogConversion) && Log(LogVisit) in ts[..j] && Log(LogAction) !in ts[..j])
  }

  /** One step sets the flag of the log table it adds, and the sub-select flag as `SubSelectAt` says. */
  lemma JoinStepFlags(st: JoinState, i: nat, t: TableRef, prefix: string)
    requires JoinStep(st, i, t, prefix).Ok?
    ensures var st2 := JoinStep(st, i, t, prefix).value;
      st2.visits == (st.visits || t == Log(LogVisit)) && st2.actions == (st.actions || t == Log(LogAction))
      && st2.conversions == (st.conversions || t == Log(LogConversion))
      && st2.items == (st.items || t == Log(LogConversionItem))
    ensures JoinStep(st, i, t, prefix).value.subSelect ==
      (st.subSelect || (i > 0 && st.visits && (t == Log(LogAction) || (t == Log(LogConversion) && !st.actions))))
  {
    TableNamesDistinct();
    match t
    case JoinOn(_, _, _) =>
    case Log(table) =>
      if i > 0 {
        var rule := JoinRule(st.visits, st.actions, st.conversions, st.items, table);
        assert rule.Some?;
        assert rule.value.1 == (st.visits && (table == LogAction || (table == LogConversion && !st.actions)));
      }
  }

  /** The availability flags record which log tables were seen; the sub-select flag records `SubSelectAt`. */
  lemma {:induction false} JoinAllFlags(ts: seq<TableRef>, prefix: string)
    requires JoinAll(ts, prefix).Ok?
    ensures var st := JoinAll(ts, prefix).value;
      st.visits == (Log(LogVisit) in ts) && st.actions == (Log(LogAction) in ts)
      && st.conversions == (Log(LogConversion) in ts) && st.items == (Log(LogConversionItem) in ts)
    ensures JoinAll(ts, prefix).value.subSelect <==> exists j :: 0 <= j < |ts| && SubSelectAt(ts, j)
    decreases |ts|
  {
    if ts != [] {
      var n := |ts| - 1;
      var init := ts[..n];
      JoinAllFlags(init, prefix);
      var st := JoinAll(init, prefix).value;
      JoinStepFlags(st, n, ts[n], prefix);
      assert ts == init + [ts[n]];
      assert SubSelectAt(ts, n) == (n > 0 && st.visits && (ts[n] == Log(LogAction) || (ts[n] == Log(LogConversion) && !st.actions)));
      forall j | 0 <= j < n
        ensures SubSelectAt(ts, j) == SubSelectAt(init, j)
      {
        assert ts[..j] == init[..j];
      }
      if exists j :: 0 <= j < |ts| && SubSelectAt(ts, j) {
        var j :| 0 <= j < |ts| && SubSelectAt(ts, j);
        if j < n {
          assert SubSelectAt(init, j);
        }
      }
    }
  }

  /**
   * A successful plan needs a sub-select exactly when, in the ordered
   * tables, actions follow visits or conversions follow visits (with no
   * actions to join them on).
   */
  lemma SubSelectExactly(tables: seq<TableRef>, prefix: string)
    requires JoinsOf(tables, prefix).Ok?
    ensures JoinsOf(tables, prefix).value.1 <==>
      exists j :: 0 <= j < |Ordered(tables)| && SubSelectAt(Ordered(tables), j)
  {
    JoinAllFlags(Ordered(tables), prefix);
  }

  /** Visits, conversions, actions: actions are moved before conversions, and joined on visits through a sub-select. */
  lemma VisitConversionAction(prefix: string)
    ensures Ordered([Log(LogVisit), Log(LogConversion), Log(LogAction)]) == [Log(LogVisit), Log(LogAction), Log(LogConversion)]
    ensures JoinsOf([Log(LogVisit), Log(LogConversion), Log(LogAction)], prefix) ==
      Ok((TableSql(prefix, LogVisit)
          + JoinClause(TableSql(prefix, LogAction), ActionOnVisit)
          + JoinClause(TableSql(prefix, LogConversion), ConversionOnAction), true))
  {
    var ts := [Log(LogVisit), Log(LogConversion), Log(LogAction)];
    TableNamesDistinct();
    assert ts[1..] == [Log(LogConversion), Log(LogAction)] && ts[1..][1..] == [Log(LogAction)];
    assert SearchIndex(ts[1..][1..], LogAction) == Some(0);
    assert SearchIndex(ts[1..], LogAction) == Some(1);
    assert SearchIndex(ts, LogAction) == Some(2);
    assert SearchIndex(ts[1..], LogConversion) == Some(0);
    assert SearchIndex(ts, LogConversion) == Some(1);
    var ts1 := [Log(LogVisit), Log(LogAction), Log(LogConversion)];
    assert PutBefore(ts, LogAction, LogConversion) == ts1;
    assert SearchIndex(ts1, LogVisit) == Some(0);
    assert Ordered(ts) == ts1;
    var st0 := JoinStep(NoJoins, 0, Log(LogVisit), prefix).value;
    var st1 := JoinStep(st0, 1, Log(LogAction), prefix).value;
    assert ts1[..1] == [Log(LogVisit)] && [Log(LogVisit)][..0] == [];
    assert JoinAll(ts1[..1], prefix) == Ok(st0);
    assert ts1[..2][..1] == ts1[..1] && ts1[..2][1] == Log(LogAction);
    assert JoinAll(ts1[..2], prefix) == Ok(st1);
    assert ts1[..2] == ts1[..|ts1| - 1];
    var st2 := JoinStep(st1, 2, Log(LogConversion), prefix).value;
    assert JoinAll(ts1, prefix) == Ok(st2);
    assert st0.sql == "" + TableSql(prefix, LogVisit) == TableSql(prefix, LogVisit);
  }

  // ---------------------------------------------------------------------
  // Queries
  // ---------------------------------------------------------------------

  predicate EndsWith(s: string, suffix: string) {
    |suffix| <= |s| && s[|s| - |suffix|..] == suffix
  }

  /**
   * `buildSelectQuery`: SELECT and FROM, then WHERE, GROUP BY and ORDER BY,
   * each only when given (PHP truthiness: not "" and not "0"), in that order.
   */
  function BuildSelectQuery(select: string, from: string, where: string, orderBy: string, groupBy: string): (sql: string)
    ensures StartsWith(sql, "SELECT " + select + " FROM " + from)
    ensures IsEmptyString(where) && IsEmptyString(groupBy) && IsEmptyString(orderBy) ==>
      sql == "SELECT " + select + " FROM " + from
  {
    "SELECT " + select + " FROM " + from + Clause(" WHERE ", where) + Clause(" GROUP BY ", groupBy) + Clause(" ORDER BY ", orderBy)
  }

  /** A clause keyword and its text, or nothing when the text is falsy. */
  function Clause(keyword: string, text: string): string {
    if IsEmptyString(text) then "" else keyword + text
  }

  /** The query ends with the last clause given. */
  lemma SelectQueryEnds(select: string, from: string, where: string, orderBy: string, groupBy: string)
    ensures var sql := BuildSelectQuery(select, from, where, orderBy, groupBy);
      (!IsEmptyString(orderBy) ==> EndsWith(sql, " ORDER BY " + orderBy))
      && (IsEmptyString(orderBy) && !IsEmptyString(groupBy) ==> EndsWith(sql, " GROUP BY " + groupBy))
      && (IsEmptyString(orderBy) && IsEmptyString(groupBy) && !IsEmptyString(where) ==> EndsWith(sql, " WHERE " + where))
  {
    var head := "SELECT " + select + " FROM " + from;
    var sql := BuildSelectQuery(select, from, where, orderBy, groupBy);
    var w, g, o := Clause(" WHERE ", where), Clause(" GROUP BY ", groupBy), Clause(" ORDER BY ", orderBy);
    assert sql == (head + w + g) + o;
    assert o == "" ==> sql == (head + w) + g;
    assert o == "" && g == "" ==> sql == head + w;
  }

  /** When all three clauses are given they follow the FROM clause directly and in order. */
  lemma SelectClauseOrder(select: string, from: string, where: string, orderBy: string, groupBy: string)
    requires !IsEmptyString(where) && !IsEmptyString(groupBy) && !IsEmptyString(orderBy)
    ensures var sql := BuildSelectQuery(select, from, where, orderBy, groupBy);
      var head := "SELECT " + select + " FROM " + from;
      OccursAt(sql, " WHERE " + where, |head|)
      && OccursAt(sql, " GROUP BY " + groupBy, |head| + |" WHERE " + where|)
      && OccursAt(sql, " ORDER BY " + orderBy, |head| + |" WHERE " + where| + |" GROUP BY " + groupBy|)
  {
    var head := "SELECT " + select + " FROM " + from;
    var w := " WHERE " + where;
    var g := " GROUP BY " + groupBy;
    var o := " ORDER BY " + orderBy;
    AllClausesGiven(select, from, where, orderBy, groupBy);
    OccursInFour(head, w, g, o);
  }

  /** With every clause given, the query is the four parts one after the other. */
  lemma AllClausesGiven(select: string, from: string, where: string, orderBy: string, groupBy: string)
    requires !IsEmptyString(where) && !IsEmptyString(groupBy) && !IsEmptyString(orderBy)
    ensures BuildSelectQuery(select, from, where, orderBy, groupBy)
         == ("SELECT " + select + " FROM " + from) + (" WHERE " + where) + (" GROUP BY " + groupBy) + (" ORDER BY " + orderBy)
  {
  }

  /** Each of the last three parts of a four-part concatenation sits right after the parts before it. */
  lemma OccursInFour(a: string, b: string, c: string, d: string)
    ensures OccursAt(a + b + c + d, b, |a|)
    ensures OccursAt(a + b + c + d, c, |a| + |b|)
    ensures OccursAt(a + b + c + d, d, |a| + |b| + |c|)
  {
    var s := a + b + c + d;
    assert s == a + b + (c + d);
    OccursBetween(a, b, c + d);
    OccursBetween(a + b, c, d);
    assert s == a + b + c + d + "";
    OccursBetween(a + b + c, d, "");
  }

  lemma OccursBetween(a: string, b: string, c: string)
    ensures OccursAt(a + b + c, b, |a|)
  {
    assert (a + b + c)[|a|..|a| + |b|] == b;
  }

  /**
   * `buildWrappedSelectQuery`: the joined tables become an inner
   * `SELECT DISTINCT` of the needed fields, filtered by the WHERE clause, and
   * the outer query reads `log_inner` with no WHERE of its own. `neededFields`
   * is what `getNeededFields` extracts from the select list, and `toInner`
   * the rewrite of table prefixes to `log_inner.`.
   */
  function BuildWrappedSelectQuery(select: string, from: string, where: string, orderBy: string, groupBy: string,
                                   neededFields: seq<string>, toInner: string -> string): (r: Result<string>)
    ensures r.Err? <==> neededFields == []
    ensures r.Err? ==> r.error == NoNeededFieldsMessage
    ensures r.Ok? ==> StartsWith(r.value, "SELECT " + toInner(select) + " FROM " + InnerQuery(from, where, neededFields))
    ensures r.Ok? && IsEmptyString(toInner(groupBy)) && IsEmptyString(toInner(orderBy)) ==>
      r.value == "SELECT " + toInner(select) + " FROM " + InnerQuery(from, where, neededFields)
  {
    if neededFields == [] then Err(NoNeededFieldsMessage)
    else Ok(BuildSelectQuery(toInner(select), InnerQuery(from, where, neededFields), "", toInner(orderBy), toInner(groupBy)))
  }

  /** The inner query of a wrapped select: the distinct needed fields of the joined, filtered tables. */
  function InnerQuery(from: string, where: string, neededFields: seq<string>): string {
    "(SELECT DISTINCT " + Join(neededFields, ", ") + " FROM " + from + " WHERE " + where + ") AS log_inner"
  }

  /** The caller's WHERE and the segment's WHERE, both kept when both are given. */
  function CombineWhere(where: string, segmentWhere: string): (r: string)
    ensures IsEmptyString(segmentWhere) ==> r == where
    ensures !IsEmptyString(segmentWhere) && IsEmptyString(where) ==> r == segmentWhere
    ensures !IsEmptyString(segmentWhere) && !IsEmptyString(where) ==>
      StartsWith(r, "( " + where + " )") && EndsWith(r, "(" + segmentWhere + ")") && OccursAt(r, " AND ", |where| + 4)
  {
    if IsEmptyString(segmentWhere) then where
    else if IsEmptyString(where) then segmentWhere
    else "( " + where + " ) AND (" + segmentWhere + ")"
  }

  /**
   * `getSelectQuery`: plans the joins; for a non-empty segment combines the
   * WHERE clauses and appends the segment's binds after the caller's; then
   * builds the plain or the wrapped query. `segmentSql` is the SQL the
   * segment's conditions generate and `from` the tables after the segment
   * added the ones its conditions need.
   */
  method GetSelectQuery(seg: Segment, select: string, from: seq<TableRef>, where: string, bind: seq<Value>,
                        orderBy: string, groupBy: string, prefix: string, segmentSql: Query,
                        neededFields: seq<string>, toInner: string -> string)
    returns (r: Result<Query>)
    ensures JoinsOf(from, prefix).Err? ==> r == Err(JoinsOf(from, prefix).error)
    ensures JoinsOf(from, prefix).Ok? ==>
      var w := if IsEmptySegment(seg) then where else CombineWhere(where, segmentSql.sql);
      var joins := JoinsOf(from, prefix).value;
      (!joins.1 ==> r.Ok? && r.value.sql == BuildSelectQuery(select, joins.0, w, orderBy, groupBy))
      && (joins.1 ==> r.Err? == (neededFields == []))
      && (joins.1 && r.Ok? ==> r.value.sql == BuildWrappedSelectQuery(select, joins.0, w, orderBy, groupBy, neededFields, toInner).value)
    ensures r.Ok? ==> r.value.bind == if IsEmptySegment(seg) then bind else bind + segmentSql.bind
  {
    var joins := GenerateJoins(from, prefix);
    if joins.Err? {
      return Err(joins.error);
    }
    var fromSql := joins.value.0;
    var joinWithSubSelect := joins.value.1;
    var w := where;
    var b := bind;
    if !IsEmptySegment(seg) {
      w := CombineWhere(where, segmentSql.sql);
      b := bind + segmentSql.bind;
    }
    if joinWithSubSelect {
      var wrapped := BuildWrappedSelectQuery(select, fromSql, w, orderBy, groupBy, neededFields, toInner);
      if wrapped.Err? {
        return Err(wrapped.error);
      }
      return Ok(Query(wrapped.value, b));
    }
    return Ok(Query(BuildSelectQuery(select, fromSql, w, orderBy, groupBy), b));
  }
}
