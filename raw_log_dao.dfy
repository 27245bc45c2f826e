/**
 * Raw access to the log tables (core/DataAccess/RawLogDao.php): keyset
 * paging over a log table with conversion of its binary columns, the id and
 * binary columns of each log table, the paging query, and the `(1, 2, 3)`
 * list of integer ids.
 *
 * The database is modelled by the rows of the table that satisfy the
 * caller's conditions, in the order `ORDER BY id ASC` returns them: the
 * paging query's answer for a bound last id is the first `LIMIT` of those
 * rows whose id is larger. The id column is unique in `log_visit`,
 * `log_link_visit_action` and `log_action`; in `log_conversion` and
 * `log_conversion_item` it is `idvisit`, which several rows may share.
 */
module RawLogDao {
  import opened Wrappers
  import opened Php

  // ---------------------------------------------------------------------
  // Tables and their columns
  // ---------------------------------------------------------------------

  const LogTables := ["log_visit", "log_link_visit_action", "log_conversion", "log_conversion_item", "log_action"]

  /** `getIdFieldForLogTable`: the id column of each log table; any other name throws. */
  function IdFieldForLogTable(logTable: string): (r: Result<string>)
    ensures r.Ok? <==> logTable in LogTables
    ensures r.Err? ==> r.error == "Unknown log table '" + logTable + "'."
  {
    if logTable == "log_visit" then Ok("idvisit")
    else if logTable == "log_link_visit_action" then Ok("idlink_va")
    else if logTable == "log_conversion" then Ok("idvisit")
    else if logTable == "log_conversion_item" then Ok("idvisit")
    else if logTable == "log_action" then Ok("idaction")
    else Err("Unknown log table '" + logTable + "'.")
  }

  /** `getBinaryColumns`: the columns stored in binary form; any other name throws. */
  function BinaryColumns(logTable: string): (r: Result<seq<string>>)
    ensures r.Ok? <==> logTable in LogTables
    ensures r.Err? ==> r.error == "Unknown log table '" + logTable + "'."
  {
    if logTable == "log_visit" then Ok(["idvisitor", "config_id", "location_ip"])
    else if logTable == "log_link_visit_action" then Ok(["idvisitor"])
    else if logTable == "log_conversion" then Ok(["idvisitor"])
    else if logTable == "log_conversion_item" then Ok(["idvisitor"])
    else if logTable == "log_action" then Ok([])
    else Err("Unknown log table '" + logTable + "'.")
  }

  predicate Distinct(cols: seq<string>) {
    forall i, j :: 0 <= i < j < |cols| ==> cols[i] != cols[j]
  }

  /**
   * The two lookups accept the same tables; no table lists a column twice
   * among its binary columns, and the id column is never one of them, so
   * converting a row never changes the id the paging continues from.
   */
  lemma LogTableColumns(logTable: string)
    requires logTable in LogTables
    ensures IdFieldForLogTable(logTable).Ok? && BinaryColumns(logTable).Ok?
    ensures Distinct(BinaryColumns(logTable).value)
    ensures IdFieldForLogTable(logTable).value !in BinaryColumns(logTable).value
  {
  }

  // ---------------------------------------------------------------------
  // Rows and their conversion
  // ---------------------------------------------------------------------

  /** A fetched row: column name => value. */
  type Row = map<string, Value>

  /** The id of a row as the database compares it; a missing column reads as null. */
  function RowId(row: Row, idField: string): int {
    if idField in row then IntCast(row[idField]) else 0
  }

  /** Converts one binary column of a row, only when it holds a non-empty value. */
  function ConvertColumn(row: Row, col: string, db2bin: Value -> Value): Row {
    if col in row && !IsEmpty(row[col]) then row[col := db2bin(row[col])] else row
  }

  /** Converts the binary columns of a row, one after the other. */
  function ConvertRow(row: Row, cols: seq<string>, db2bin: Value -> Value): Row {
    if cols == [] then row
    else ConvertColumn(ConvertRow(row, cols[..|cols| - 1], db2bin), cols[|cols| - 1], db2bin)
  }

  /** Conversion keeps the row's columns and leaves every other column as it is. */
  lemma {:induction false} ConvertRowOthers(row: Row, cols: seq<string>, db2bin: Value -> Value)
    ensures ConvertRow(row, cols, db2bin).Keys == row.Keys
    ensures forall c :: c in row && c !in cols ==> ConvertRow(row, cols, db2bin)[c] == row[c]
  {
    if cols != [] {
      var init := cols[..|cols| - 1];
      ConvertRowOthers(row, init, db2bin);
      assert forall c :: c in init ==> c in cols;
    }
  }

  /** A listed column is converted exactly when it holds a non-empty value. */
  lemma {:induction false} ConvertRowBinary(row: Row, cols: seq<string>, db2bin: Value -> Value, c: string)
    requires Distinct(cols) && c in cols && c in row
    ensures c in ConvertRow(row, cols, db2bin)
    ensures ConvertRow(row, cols, db2bin)[c] == if IsEmpty(row[c]) then row[c] else db2bin(row[c])
  {
    var init := cols[..|cols| - 1];
    ConvertRowOthers(row, init, db2bin);
    if c != cols[|cols| - 1] {
      assert c in init by {
        var i :| 0 <= i < |cols| && cols[i] == c;
        assert init[i] == c;
      }
      assert Distinct(init);
      ConvertRowBinary(row, init, db2bin, c);
    } else {
      assert c !in init by {
        assert forall i :: 0 <= i < |init| ==> init[i] == cols[i] != cols[|cols| - 1];
      }
    }
  }

  /** The id a converted row continues from is the id it was fetched with. */
  lemma ConvertRowId(row: Row, cols: seq<string>, db2bin: Value -> Value, idField: string)
    requires idField !in cols
    ensures RowId(ConvertRow(row, cols, db2bin), idField) == RowId(row, idField)
  {
    ConvertRowOthers(row, cols, db2bin);
  }

  function ConvertRows(rows: seq<Row>, cols: seq<string>, db2bin: Value -> Value): (r: seq<Row>)
    ensures |r| == |rows|
  {
    seq(|rows|, i requires 0 <= i < |rows| => ConvertRow(rows[i], cols, db2bin))
  }

  /** The conversion loop of `forAllLogs`, row by row and column by column. */
  method ConvertChunk(rows: seq<Row>, cols: seq<string>, db2bin: Value -> Value) returns (converted: seq<Row>)
    ensures converted == ConvertRows(rows, cols, db2bin)
  {
    converted := rows;
    for i := 0 to |rows|
      invariant |converted| == |rows|
      invariant forall k :: 0 <= k < i ==> converted[k] == ConvertRow(rows[k], cols, db2bin)
      invariant forall k :: i <= k < |rows| ==> converted[k] == rows[k]
    {
      var row := converted[i];
      for b := 0 to |cols|
        invariant row == ConvertRow(rows[i], cols[..b], db2bin)
      {
        assert cols[..b + 1][..b] == cols[..b];
        if cols[b] in row && !IsEmpty(row[cols[b]]) {
          row := row[cols[b] := db2bin(row[cols[b]])];
        }
      }
      assert cols[..|cols|] == cols;
      converted := converted[i := row];
    }
  }

  // ---------------------------------------------------------------------
  // The paging query
  // ---------------------------------------------------------------------

  /** One entry of `$conditions`: column, operator and value. */
  datatype Condition = Condition(column: string, operator: string, value: Value)

  /** A query with its binds. */
  datatype Query = Query(sql: string, binds: seq<Value>)

  /** An array value becomes `IN (…)` over its elements; any other value `op ?`. */
  function ConditionSql(c: Condition, placeholders: seq<Value> -> string): string {
    if c.value.Arr? then " AND " + c.column + " IN (" + placeholders(c.value.items) + ")"
    else " AND " + c.column + " " + c.operator + " ?"
  }

  function ConditionBinds(c: Condition): seq<Value> {
    if c.value.Arr? then c.value.items else [c.value]
  }

  function ConditionsSql(cs: seq<Condition>, placeholders: seq<Value> -> string): string {
    if cs == [] then "" else ConditionsSql(cs[..|cs| - 1], placeholders) + ConditionSql(cs[|cs| - 1], placeholders)
  }

  function ConditionsBinds(cs: seq<Condition>): seq<Value> {
    if cs == [] then [] else ConditionsBinds(cs[..|cs| - 1]) + ConditionBinds(cs[|cs| - 1])
  }

  /** The binds follow the conditions' order: those of `a` come before those of `b`. */
  lemma {:induction false} ConditionsBindsAppend(a: seq<Condition>, b: seq<Condition>)
    ensures ConditionsBinds(a + b) == ConditionsBinds(a) + ConditionsBinds(b)
    decreases |b|
  {
    if b == [] {
      assert a + b == a;
    } else {
      var bi, last := b[..|b| - 1], b[|b| - 1];
      calc {
        ConditionsBinds(a + b);
      == { assert (a + b)[..|a + b| - 1] == a + bi && (a + b)[|a + b| - 1] == last; }
        ConditionsBinds(a + bi) + ConditionBinds(last);
      == { ConditionsBindsAppend(a, bi); }
        ConditionsBinds(a) + ConditionsBinds(bi) + ConditionBinds(last);
      ==
        ConditionsBinds(a) + (ConditionsBinds(bi) + ConditionBinds(last));
      ==
        ConditionsBinds(a) + ConditionsBinds(b);
      }
    }
  }

  /** Everything before the first condition, ending in the last-id placeholder. */
  function QueryHead(logTable: string, idField: string, fields: seq<string>, prefixTable: string -> string): string {
    "SELECT " + Join(fields, ", ") + " FROM " + prefixTable(logTable) + " WHERE " + idField + " > ?"
  }

  /** Everything after the conditions. */
  function QueryTail(idField: string, iterationStep: int): string {
    " ORDER BY " + idField + " ASC LIMIT " + IntToString(iterationStep)
  }

  /** The text of the paging query and its binds (without the leading last-id bind). */
  function IterationQuery(logTable: string, idField: string, fields: seq<string>, conditions: seq<Condition>,
                          iterationStep: int, prefixTable: string -> string, placeholders: seq<Value> -> string): Query
  {
    Query(QueryHead(logTable, idField, fields, prefixTable) + ConditionsSql(conditions, placeholders)
          + QueryTail(idField, iterationStep),
          ConditionsBinds(conditions))
  }

  lemma ConditionsSnoc(head: string, cs: seq<Condition>, j: nat, placeholders: seq<Value> -> string)
    requires j < |cs|
    ensures head + ConditionsSql(cs[..j + 1], placeholders) == (head + ConditionsSql(cs[..j], placeholders)) + ConditionSql(cs[j], placeholders)
    ensures ConditionsBinds(cs[..j + 1]) == ConditionsBinds(cs[..j]) + ConditionBinds(cs[j])
  {
    assert cs[..j + 1][..j] == cs[..j];
  }

  /** `createLogIterationQuery`: appends one clause and its binds per condition. */
  method CreateLogIterationQuery(logTable: string, idField: string, fields: seq<string>, conditions: seq<Condition>,
                                 iterationStep: int, prefixTable: string -> string, placeholders: seq<Value> -> string)
    returns (sql: string, bind: seq<Value>)
    ensures Query(sql, bind) == IterationQuery(logTable, idField, fields, conditions, iterationStep, prefixTable, placeholders)
  {
    bind := [];
    var head := QueryHead(logTable, idField, fields, prefixTable);
    sql := head;
    for j := 0 to |conditions|
      invariant sql == head + ConditionsSql(conditions[..j], placeholders)
      invariant bind == ConditionsBinds(conditions[..j])
    {
      ConditionsSnoc(head, conditions, j, placeholders);
      var condition := conditions[j];
      sql := sql + ConditionSql(condition, placeholders);
      if condition.value.Arr? {
        bind := bind + condition.value.items;
      } else {
        bind := bind + [condition.value];
      }
    }
    assert conditions[..|conditions|] == conditions;
    sql := sql + QueryTail(idField, iterationStep);
  }

  /** Neither the names nor the operator of a condition hold a placeholder of their own. */
  predicate PlainCondition(c: Condition, placeholders: seq<Value> -> string) {
    '?' !in c.column &&
    (c.value.Arr? ==> CountChar(placeholders(c.value.items), '?') == |c.value.items|) &&
    (!c.value.Arr? ==> '?' !in c.operator)
  }

  lemma ConditionPlaceholders(c: Condition, placeholders: seq<Value> -> string)
    requires PlainCondition(c, placeholders)
    ensures CountChar(ConditionSql(c, placeholders), '?') == |ConditionBinds(c)|
  {
    if c.value.Arr? {
      CountCharAppend(" AND " + c.column + " IN (", placeholders(c.value.items), '?');
      CountCharAppend(" AND " + c.column + " IN (" + placeholders(c.value.items), ")", '?');
      CountCharAppend(" AND ", c.column, '?');
      CountCharAppend(" AND " + c.column, " IN (", '?');
    } else {
      CountCharAppend(" AND ", c.column, '?');
      CountCharAppend(" AND " + c.column, " ", '?');
      CountCharAppend(" AND " + c.column + " ", c.operator, '?');
      CountCharAppend(" AND " + c.column + " " + c.operator, " ?", '?');
    }
  }

  lemma {:induction false} ConditionsPlaceholders(cs: seq<Condition>, placeholders: seq<Value> -> string)
    requires forall j :: 0 <= j < |cs| ==> PlainCondition(cs[j], placeholders)
    ensures CountChar(ConditionsSql(cs, placeholders), '?') == |ConditionsBinds(cs)|
  {
    if cs != [] {
      var init := cs[..|cs| - 1];
      assert forall j :: 0 <= j < |init| ==> init[j] == cs[j];
      ConditionsPlaceholders(init, placeholders);
      ConditionPlaceholders(cs[|cs| - 1], placeholders);
      CountCharAppend(ConditionsSql(init, placeholders), ConditionSql(cs[|cs| - 1], placeholders), '?');
    }
  }

  lemma {:induction false} JoinWithout(parts: seq<string>, sep: string, c: char)
    requires forall j :: 0 <= j < |parts| ==> c !in parts[j]
    requires c !in sep
    ensures c !in Join(parts, sep)
  {
    if |parts| > 1 {
      JoinWithout(parts[1..], sep, c);
      CountCharAppend(parts[0], sep, c);
      CountCharAppend(parts[0] + sep, Join(parts[1..], sep), c);
    }
  }

  lemma HeadPlaceholders(logTable: string, idField: string, fields: seq<string>, prefixTable: string -> string)
    requires forall j :: 0 <= j < |fields| ==> '?' !in fields[j]
    requires '?' !in prefixTable(logTable) && '?' !in idField
    ensures CountChar(QueryHead(logTable, idField, fields, prefixTable), '?') == 1
  {
    var select := "SELECT " + Join(fields, ", ") + " FROM " + prefixTable(logTable) + " WHERE " + idField;
    JoinWithout(fields, ", ", '?');
    assert '?' !in select;
    CountCharAppend(select, " > ?", '?');
  }

  lemma TailPlaceholders(idField: string, iterationStep: int)
    requires '?' !in idField
    ensures CountChar(QueryTail(idField, iterationStep), '?') == 0
  {
    IntToStringChars(iterationStep);
  }

  /**
   * The paging query has one placeholder more than binds, the leading one
   * for the last id: when names carry no `?` of their own and each list of
   * placeholders has one `?` per element, every `?` has its value.
   */
  lemma IterationQueryPlaceholders(logTable: string, idField: string, fields: seq<string>, conditions: seq<Condition>,
                                   iterationStep: int, prefixTable: string -> string, placeholders: seq<Value> -> string)
    requires forall j :: 0 <= j < |fields| ==> '?' !in fields[j]
    requires '?' !in prefixTable(logTable) && '?' !in idField
    requires forall j :: 0 <= j < |conditions| ==> PlainCondition(conditions[j], placeholders)
    ensures var q := IterationQuery(logTable, idField, fields, conditions, iterationStep, prefixTable, placeholders);
      CountChar(q.sql, '?') == 1 + |q.binds|
  {
    var head := QueryHead(logTable, idField, fields, prefixTable);
    var conds := ConditionsSql(conditions, placeholders);
    HeadPlaceholders(logTable, idField, fields, prefixTable);
    ConditionsPlaceholders(conditions, placeholders);
    TailPlaceholders(idField, iterationStep);
    CountCharAppend(head, conds, '?');
    CountCharAppend(head + conds, QueryTail(idField, iterationStep), '?');
  }

  // ---------------------------------------------------------------------
  // Keyset paging
  // ---------------------------------------------------------------------

  /** The rows are in strictly ascending id order: the id column is unique. */
  predicate Ascending(rows: seq<Row>, idField: string) {
    forall i, j :: 0 <= i < j < |rows| ==> RowId(rows[i], idField) < RowId(rows[j], idField)
  }

  /** The rows are in `ORDER BY id ASC` order, where ids may repeat. */
  predicate Sorted(rows: seq<Row>, idField: string) {
    forall i, j :: 0 <= i < j < |rows| ==> RowId(rows[i], idField) <= RowId(rows[j], idField)
  }

  /** Every row has a positive id, as auto-incremented ids are. */
  predicate PositiveIds(rows: seq<Row>, idField: string) {
    forall i :: 0 <= i < |rows| ==> RowId(rows[i], idField) > 0
  }

  /** No other row carries the id of row `i`. */
  predicate UniqueIdAt(rows: seq<Row>, idField: string, i: int)
    requires 0 <= i < |rows|
  {
    forall j :: 0 <= j < |rows| && j != i ==> RowId(rows[j], idField) != RowId(rows[i], idField)
  }

  /** `WHERE id > lastId`, keeping the order. */
  function Above(rows: seq<Row>, idField: string, lastId: int): (r: seq<Row>)
    ensures |r| <= |rows|
  {
    if rows == [] then []
    else (if RowId(rows[0], idField) > lastId then [rows[0]] else []) + Above(rows[1..], idField, lastId)
  }

  /** Each row above the last id is a row of the table with a larger id. */
  lemma {:induction false} AboveElement(rows: seq<Row>, idField: string, lastId: int, j: nat)
    requires j < |Above(rows, idField, lastId)|
    ensures Above(rows, idField, lastId)[j] in rows && RowId(Above(rows, idField, lastId)[j], idField) > lastId
  {
    var head := if RowId(rows[0], idField) > lastId then [rows[0]] else [];
    if j >= |head| {
      AboveElement(rows[1..], idField, lastId, j - |head|);
    }
  }

  function Min(a: int, b: int): int {
    if a < b then a else b
  }

  /** The database's answer to the paging query: `id > lastId … ORDER BY id ASC LIMIT limit`. */
  function Page(rows: seq<Row>, idField: string, lastId: int, limit: int): (r: seq<Row>)
  {
    var above := Above(rows, idField, lastId);
    if limit <= 0 then [] else above[..Min(limit, |above|)]
  }

  /** The database answers the paging query for every last id it may be given. */
  ghost predicate Answers(fetchAll: (string, seq<Value>) -> seq<Row>, q: Query,
                          matching: seq<Row>, idField: string, limit: int)
  {
    forall lastId: Value :: fetchAll(q.sql, [lastId] + q.binds) == Page(matching, idField, IntCast(lastId), limit)
  }

  /** A larger last id leaves no more rows above it. */
  lemma {:induction false} AboveMonotone(rows: seq<Row>, idField: string, a: int, b: int)
    requires a <= b
    ensures |Above(rows, idField, b)| <= |Above(rows, idField, a)|
  {
    if rows != [] {
      AboveMonotone(rows[1..], idField, a, b);
    }
  }

  /** Moving the last id past a row that was above it leaves fewer rows above. */
  lemma {:induction false} AboveShrinks(rows: seq<Row>, idField: string, a: int, b: int, x: Row)
    requires x in rows && a < RowId(x, idField) <= b
    ensures |Above(rows, idField, b)| < |Above(rows, idField, a)|
  {
    if rows[0] == x {
      AboveMonotone(rows[1..], idField, a, b);
    } else {
      assert x in rows[1..];
      AboveShrinks(rows[1..], idField, a, b, x);
    }
  }

  /**
   * The pages `forAllLogs` fetches after `lastId`: the next page of the
   * query; after a full page, the pages after the id of its last row; a
   * page shorter than the step is the last, and an empty one is not kept.
   */
  function Pages(matching: seq<Row>, idField: string, lastId: int, limit: int): seq<seq<Row>>
    requires limit > 0
    decreases |Above(matching, idField, lastId)|
  {
    var page := Page(matching, idField, lastId, limit);
    if |page| < limit then (if page == [] then [] else [page])
    else
      var next := RowId(page[|page| - 1], idField);
      AboveElement(matching, idField, lastId, |page| - 1);
      AboveShrinks(matching, idField, lastId, next, page[|page| - 1]);
      [page] + Pages(matching, idField, next, limit)
  }

  /** A page holds at most a step of rows. */
  lemma PageLength(matching: seq<Row>, idField: string, lastId: int, limit: int)
    requires limit > 0
    ensures |Page(matching, idField, lastId, limit)| <= limit
  {
  }

  /** A page shorter than the step ends the paging; an empty one adds no page. */
  lemma PagesShort(matching: seq<Row>, idField: string, lastId: int, limit: int)
    requires limit > 0 && |Page(matching, idField, lastId, limit)| < limit
    ensures var page := Page(matching, idField, lastId, limit);
      Pages(matching, idField, lastId, limit) == if page == [] then [] else [page]
  {
  }

  /** A full page is followed by the pages after the id of its last row, of which fewer rows remain. */
  lemma PagesFull(matching: seq<Row>, idField: string, lastId: int, limit: int)
    requires limit > 0 && |Page(matching, idField, lastId, limit)| == limit
    ensures var page := Page(matching, idField, lastId, limit);
      var next := RowId(page[limit - 1], idField);
      |Above(matching, idField, next)| < |Above(matching, idField, lastId)| &&
      Pages(matching, idField, lastId, limit) == [page] + Pages(matching, idField, next, limit)
  {
    var page := Page(matching, idField, lastId, limit);
    AboveElement(matching, idField, lastId, limit - 1);
    AboveShrinks(matching, idField, lastId, RowId(page[limit - 1], idField), page[limit - 1]);
  }

  /** The rows handed to the callback, one chunk after the other. */
  function Flatten(chunks: seq<seq<Row>>): seq<Row> {
    if chunks == [] then [] else chunks[0] + Flatten(chunks[1..])
  }

  lemma FlattenCons(c: seq<Row>, chunks: seq<seq<Row>>)
    ensures Flatten([c] + chunks) == c + Flatten(chunks)
  {
    assert ([c] + chunks)[1..] == chunks;
  }

  /** Chunk sizes: none empty, none above the step, and all full but possibly the last. */
  predicate ChunkSizes(chunks: seq<seq<Row>>, limit: int) {
    (forall j :: 0 <= j < |chunks| ==> 0 < |chunks[j]| <= limit) &&
    (forall j :: 0 <= j < |chunks| - 1 ==> |chunks[j]| == limit)
  }

  /** Every page is non-empty and at most a step long, and all but the last are full. */
  lemma {:induction false} PagesSizes(matching: seq<Row>, idField: string, lastId: int, limit: int)
    requires limit > 0
    ensures ChunkSizes(Pages(matching, idField, lastId, limit), limit)
    decreases |Above(matching, idField, lastId)|
  {
    var page := Page(matching, idField, lastId, limit);
    PageLength(matching, idField, lastId, limit);
    if |page| < limit {
      PagesShort(matching, idField, lastId, limit);
    } else {
      PagesFull(matching, idField, lastId, limit);
      var next := RowId(page[limit - 1], idField);
      PagesSizes(matching, idField, next, limit);
      ChunkSizesCons(page, Pages(matching, idField, next, limit), limit);
    }
  }

  lemma ChunkSizesCons(c: seq<Row>, chunks: seq<seq<Row>>, limit: int)
    requires |c| == limit > 0 && ChunkSizes(chunks, limit)
    ensures ChunkSizes([c] + chunks, limit)
  {
    assert forall j :: 1 <= j < |chunks| + 1 ==> ([c] + chunks)[j] == chunks[j - 1];
  }

  /** Every delivered row is a matching row with an id above the start. */
  lemma {:induction false} PagesRowsMatch(matching: seq<Row>, idField: string, lastId: int, limit: int, x: Row)
    requires limit > 0 && x in Flatten(Pages(matching, idField, lastId, limit))
    ensures x in matching && RowId(x, idField) > lastId
    decreases |Above(matching, idField, lastId)|
  {
    var page := Page(matching, idField, lastId, limit);
    PageLength(matching, idField, lastId, limit);
    if |page| < limit {
      PagesAfterShort(matching, idField, lastId, limit);
    } else {
      PagesAfterFull(matching, idField, lastId, limit);
    }
    if x in page {
      var j :| 0 <= j < |page| && page[j] == x;
      assert page[j] == Above(matching, idField, lastId)[j];
      AboveElement(matching, idField, lastId, j);
    } else {
      AboveElement(matching, idField, lastId, limit - 1);
      PagesRowsMatch(matching, idField, RowId(page[limit - 1], idField), limit, x);
    }
  }

  /** On rows in id order, the rows above a last id are a suffix: the first `k` rows are not above it. */
  lemma {:induction false} AboveOfSorted(rows: seq<Row>, idField: string, lastId: int) returns (k: nat)
    requires Sorted(rows, idField)
    ensures k <= |rows| && Above(rows, idField, lastId) == rows[k..]
    ensures forall i :: 0 <= i < k ==> RowId(rows[i], idField) <= lastId
    ensures forall i :: k <= i < |rows| ==> RowId(rows[i], idField) > lastId
  {
    if rows == [] {
      k := 0;
    } else if RowId(rows[0], idField) > lastId {
      k := 0;
      AboveSplit(rows, idField, lastId, 0);
    } else {
      var tail := rows[1..];
      assert forall i :: 0 <= i < |tail| ==> tail[i] == rows[i + 1];
      var k' := AboveOfSorted(tail, idField, lastId);
      k := k' + 1;
      assert tail[k'..] == rows[k..];
    }
  }

  lemma {:induction false} AboveSplit(rows: seq<Row>, idField: string, lastId: int, k: nat)
    requires k <= |rows|
    requires forall i :: 0 <= i < k ==> RowId(rows[i], idField) <= lastId
    requires forall i :: k <= i < |rows| ==> RowId(rows[i], idField) > lastId
    ensures Above(rows, idField, lastId) == rows[k..]
  {
    if rows != [] {
      var tail := rows[1..];
      if k == 0 {
        assert forall i :: 0 <= i < |tail| ==> tail[i] == rows[i + 1];
        AboveSplit(tail, idField, lastId, 0);
        assert rows == [rows[0]] + tail;
      } else {
        assert forall i :: 0 <= i < |tail| ==> tail[i] == rows[i + 1];
        AboveSplit(tail, idField, lastId, k - 1);
        assert tail[k - 1..] == rows[k..];
      }
    }
  }

  /** On rows in id order, a page is the run of rows that starts after those not above the last id. */
  lemma PageOfSorted(matching: seq<Row>, idField: string, lastId: int, limit: int) returns (k: nat)
    requires limit > 0 && Sorted(matching, idField)
    ensures k <= |matching|
    ensures forall i :: 0 <= i < k ==> RowId(matching[i], idField) <= lastId
    ensures Above(matching, idField, lastId) == matching[k..]
    ensures Page(matching, idField, lastId, limit) == matching[k..k + Min(limit, |matching| - k)]
  {
    k := AboveOfSorted(matching, idField, lastId);
  }

  /** After a full page, the pages that follow start after the id of its last row. */
  lemma PagesAfterFull(matching: seq<Row>, idField: string, lastId: int, limit: int)
    requires limit > 0 && |Page(matching, idField, lastId, limit)| == limit
    ensures var page := Page(matching, idField, lastId, limit);
      var next := RowId(page[limit - 1], idField);
      |Above(matching, idField, next)| < |Above(matching, idField, lastId)| &&
      Flatten(Pages(matching, idField, lastId, limit)) == page + Flatten(Pages(matching, idField, next, limit))
  {
    var page := Page(matching, idField, lastId, limit);
    PagesFull(matching, idField, lastId, limit);
    FlattenCons(page, Pages(matching, idField, RowId(page[limit - 1], idField), limit));
  }

  /** A short page is the last one. */
  lemma PagesAfterShort(matching: seq<Row>, idField: string, lastId: int, limit: int)
    requires limit > 0 && |Page(matching, idField, lastId, limit)| < limit
    ensures Flatten(Pages(matching, idField, lastId, limit)) == Page(matching, idField, lastId, limit)
  {
    var page := Page(matching, idField, lastId, limit);
    PagesShort(matching, idField, lastId, limit);
    if page != [] {
      FlattenCons(page, []);
    }
  }

  /** On a unique key, the rows above the id of the n-th row are the rows after it. */
  lemma AboveAfterRow(matching: seq<Row>, idField: string, n: nat)
    requires Ascending(matching, idField) && 0 < n <= |matching|
    ensures Above(matching, idField, RowId(matching[n - 1], idField)) == matching[n..]
  {
    var v := RowId(matching[n - 1], idField);
    assert forall i :: 0 <= i < n ==> RowId(matching[i], idField) <= v by {
      forall i | 0 <= i < n ensures RowId(matching[i], idField) <= v {
        if i < n - 1 {
          assert RowId(matching[i], idField) < v;
        }
      }
    }
    AboveSplit(matching, idField, v, n);
  }

  /**
   * Paging on a unique key: when the ids strictly ascend, the pages after
   * `lastId` hand over exactly the rows above it, each once and in order.
   */
  lemma {:induction false} PagesEveryRowAbove(matching: seq<Row>, idField: string, lastId: int, limit: int)
    requires limit > 0 && Ascending(matching, idField)
    ensures Flatten(Pages(matching, idField, lastId, limit)) == Above(matching, idField, lastId)
    decreases |Above(matching, idField, lastId)|
  {
    var page := Page(matching, idField, lastId, limit);
    PageLength(matching, idField, lastId, limit);
    if |page| < limit {
      PagesAfterShort(matching, idField, lastId, limit);
    } else {
      var next := RowId(page[limit - 1], idField);
      PagesAfterFull(matching, idField, lastId, limit);
      PagesEveryRowAbove(matching, idField, next, limit);
      FullPageOfAscending(matching, idField, lastId, limit);
    }
  }

  /** On a unique key, the rows above the last id are a full page followed by the rows above its last id. */
  lemma FullPageOfAscending(matching: seq<Row>, idField: string, lastId: int, limit: int)
    requires limit > 0 && Ascending(matching, idField) && |Page(matching, idField, lastId, limit)| == limit
    ensures var page := Page(matching, idField, lastId, limit);
      Above(matching, idField, lastId) == page + Above(matching, idField, RowId(page[limit - 1], idField))
  {
    AscendingSorted(matching, idField);
    var k := PageOfSorted(matching, idField, lastId, limit);
    var n := k + limit;
    AboveAfterRow(matching, idField, n);
    assert matching[k..n] + matching[n..] == matching[k..];
  }

  lemma AscendingSorted(rows: seq<Row>, idField: string)
    requires Ascending(rows, idField)
    ensures Sorted(rows, idField)
  {
  }

  /** Paging from last id 0 on a unique, positive key hands over every matching row once, in order. */
  lemma PagesEveryRow(matching: seq<Row>, idField: string, limit: int)
    requires limit > 0 && Ascending(matching, idField) && PositiveIds(matching, idField)
    ensures Flatten(Pages(matching, idField, 0, limit)) == matching
  {
    PagesEveryRowAbove(matching, idField, 0, limit);
    AboveSplit(matching, idField, 0, 0);
  }

  /**
   * Paging on an id that may repeat (`idvisit` of the conversion tables):
   * a row above the last id whose id no other row carries is handed over.
   * A row can be missed only when another row shares its id.
   */
  lemma {:induction false} UniqueIdDelivered(matching: seq<Row>, idField: string, lastId: int, limit: int, i: nat)
    requires limit > 0 && Sorted(matching, idField)
    requires i < |matching| && RowId(matching[i], idField) > lastId && UniqueIdAt(matching, idField, i)
    ensures matching[i] in Flatten(Pages(matching, idField, lastId, limit))
    decreases |Above(matching, idField, lastId)|
  {
    var k := PageOfSorted(matching, idField, lastId, limit);
    var page := Page(matching, idField, lastId, limit);
    var n := k + |page|;
    PageLength(matching, idField, lastId, limit);
    assert k <= i;
    if |page| < limit {
      PagesAfterShort(matching, idField, lastId, limit);
      assert matching[i] == page[i - k];
    } else {
      var next := RowId(page[limit - 1], idField);
      assert page[limit - 1] == matching[n - 1];
      PagesAfterFull(matching, idField, lastId, limit);
      if i < n {
        assert matching[i] == page[i - k];
      } else {
        assert RowId(matching[i], idField) > next by {
          assert RowId(matching[n - 1], idField) <= RowId(matching[i], idField);
        }
        UniqueIdDelivered(matching, idField, next, limit, i);
      }
    }
  }

  /**
   * Two rows of one visit, paged one at a time: the first page ends at the
   * visit's id, the next asks for ids above it, and the second row is never
   * handed over.
   */
  lemma RepeatedIdLost(r1: Row, r2: Row, idField: string)
    requires r1 != r2 && RowId(r1, idField) == RowId(r2, idField) > 0
    ensures Pages([r1, r2], idField, 0, 1) == [[r1]]
    ensures r2 !in Flatten(Pages([r1, r2], idField, 0, 1))
  {
    var v := RowId(r1, idField);
    assert Above([r1, r2], idField, 0) == [r1, r2] by {
      assert [r1, r2][1..] == [r2];
      assert Above([r2], idField, 0) == [r2] + Above([], idField, 0);
    }
    assert Above([r1, r2], idField, v) == [] by {
      assert [r1, r2][1..] == [r2];
      assert Above([r2], idField, v) == [] + Above([], idField, v);
    }
    assert Page([r1, r2], idField, v, 1) == [];
    FlattenCons([r1], []);
  }

  /** The chunks handed to the callback: each page with its binary columns converted. */
  function ConvertPages(pages: seq<seq<Row>>, cols: seq<string>, db2bin: Value -> Value): (r: seq<seq<Row>>)
    ensures |r| == |pages|
  {
    seq(|pages|, j requires 0 <= j < |pages| => ConvertRows(pages[j], cols, db2bin))
  }

  /** Converting page by page converts the rows they hold, and keeps every chunk's size. */
  lemma {:induction false} ConvertPagesFlatten(pages: seq<seq<Row>>, cols: seq<string>, db2bin: Value -> Value)
    ensures Flatten(ConvertPages(pages, cols, db2bin)) == ConvertRows(Flatten(pages), cols, db2bin)
    ensures forall j :: 0 <= j < |pages| ==> |ConvertPages(pages, cols, db2bin)[j]| == |pages[j]|
  {
    if pages != [] {
      var c := ConvertPages(pages, cols, db2bin);
      assert c[1..] == ConvertPages(pages[1..], cols, db2bin);
      ConvertPagesFlatten(pages[1..], cols, db2bin);
      var a := pages[0];
      var b := Flatten(pages[1..]);
      assert ConvertRows(a + b, cols, db2bin) == ConvertRows(a, cols, db2bin) + ConvertRows(b, cols, db2bin);
    }
  }

  lemma ConvertPagesCons(c: seq<Row>, pages: seq<seq<Row>>, cols: seq<string>, db2bin: Value -> Value)
    ensures ConvertPages([c] + pages, cols, db2bin) == [ConvertRows(c, cols, db2bin)] + ConvertPages(pages, cols, db2bin)
  {
    var l := ConvertPages([c] + pages, cols, db2bin);
    var r := [ConvertRows(c, cols, db2bin)] + ConvertPages(pages, cols, db2bin);
    assert forall j :: 1 <= j < |l| ==> ([c] + pages)[j] == pages[j - 1];
    assert forall j :: 0 <= j < |l| ==> l[j] == r[j];
  }

  /** One more page handed on: what is left to hand on shrinks by that page. */
  lemma PagingStep(matching: seq<Row>, idField: string, cols: seq<string>, db2bin: Value -> Value, limit: int,
                   lastId: Value, rows: seq<Row>)
    requires limit > 0 && rows == Page(matching, idField, IntCast(lastId), limit)
    ensures |rows| <= limit
    ensures |rows| < limit ==>
      ConvertPages(Pages(matching, idField, IntCast(lastId), limit), cols, db2bin) ==
      (if rows == [] then [] else [ConvertRows(rows, cols, db2bin)])
    ensures |rows| == limit ==>
      ConvertPages(Pages(matching, idField, IntCast(lastId), limit), cols, db2bin) ==
      [ConvertRows(rows, cols, db2bin)] + ConvertPages(Pages(matching, idField, IntCast(LastIdOf(rows, idField)), limit), cols, db2bin)
  {
    var v := IntCast(lastId);
    PageLength(matching, idField, v, limit);
    if |rows| == limit {
      PagesFull(matching, idField, v, limit);
      LastIdOfRow(rows, idField);
      ConvertPagesCons(rows, Pages(matching, idField, IntCast(LastIdOf(rows, idField)), limit), cols, db2bin);
    } else {
      PagesShort(matching, idField, v, limit);
      if rows != [] {
        assert ConvertPages([rows], cols, db2bin) == [ConvertRows(rows, cols, db2bin)];
      }
    }
  }

  /**
   * A full page keeps the paging loop's invariant: the chunks handed on,
   * followed by the converted pages still to come, are all the converted
   * pages, and fewer pages are left to come.
   */
  lemma PagingRoundFull(matching: seq<Row>, idField: string, cols: seq<string>, db2bin: Value -> Value, limit: int,
                        all: seq<seq<Row>>, chunks0: seq<seq<Row>>, lastId0: Value, rows: seq<Row>,
                        chunks: seq<seq<Row>>, lastId: Value)
    requires limit > 0 && rows == Page(matching, idField, IntCast(lastId0), limit) && |rows| == limit
    requires all == chunks0 + ConvertPages(Pages(matching, idField, IntCast(lastId0), limit), cols, db2bin)
    requires chunks == chunks0 + [ConvertRows(rows, cols, db2bin)]
    requires lastId == LastIdOf(rows, idField)
    ensures all == chunks + ConvertPages(Pages(matching, idField, IntCast(lastId), limit), cols, db2bin)
    ensures |Pages(matching, idField, IntCast(lastId), limit)| < |Pages(matching, idField, IntCast(lastId0), limit)|
  {
    PagingStep(matching, idField, cols, db2bin, limit, lastId0, rows);
    var rest := Pages(matching, idField, IntCast(lastId), limit);
    ChunksAssoc(chunks0, ConvertRows(rows, cols, db2bin), ConvertPages(rest, cols, db2bin));
  }

  lemma ChunksAssoc(a: seq<seq<Row>>, c: seq<Row>, b: seq<seq<Row>>)
    ensures a + ([c] + b) == (a + [c]) + b
  {
  }

  /** A short page ends the paging loop with every converted page handed on. */
  lemma PagingRoundLast(matching: seq<Row>, idField: string, cols: seq<string>, db2bin: Value -> Value, limit: int,
                        all: seq<seq<Row>>, chunks0: seq<seq<Row>>, lastId0: Value, rows: seq<Row>, chunks: seq<seq<Row>>)
    requires limit > 0 && rows == Page(matching, idField, IntCast(lastId0), limit) && |rows| != limit
    requires all == chunks0 + ConvertPages(Pages(matching, idField, IntCast(lastId0), limit), cols, db2bin)
    requires chunks == if rows == [] then chunks0 else chunks0 + [ConvertRows(rows, cols, db2bin)]
    ensures all == chunks
  {
    PagingStep(matching, idField, cols, db2bin, limit, lastId0, rows);
  }

  /** The last id read back from a page is the id of its last row. */
  lemma LastIdOfRow(rows: seq<Row>, idField: string)
    requires rows != []
    ensures IntCast(LastIdOf(rows, idField)) == RowId(rows[|rows| - 1], idField)
  {
  }

  /** `$rows[$count - 1][$idField]`, null when the column is missing. */
  function LastIdOf(rows: seq<Row>, idField: string): Value
    requires rows != []
  {
    if idField in rows[|rows| - 1] then rows[|rows| - 1][idField] else Null
  }

  /**
   * The `do … while` loop of `forAllLogs`: keyset paging from last id 0.
   * Each non-empty page moves the last id to the page's last row, has its
   * non-empty binary columns converted and goes to the callback; the paging
   * stops after a page shorter than the step. The chunks the callback
   * receives are the query's pages, converted.
   */
  method PageThrough(query: string, bind: seq<Value>, idField: string, binaryColumns: seq<string>, iterationStep: int,
                     matching: seq<Row>, fetchAll: (string, seq<Value>) -> seq<Row>, db2bin: Value -> Value)
    returns (chunks: seq<seq<Row>>)
    requires iterationStep > 0
    requires Answers(fetchAll, Query(query, bind), matching, idField, iterationStep)
    ensures chunks == ConvertPages(Pages(matching, idField, 0, iterationStep), binaryColumns, db2bin)
  {
    ghost var all := ConvertPages(Pages(matching, idField, 0, iterationStep), binaryColumns, db2bin);
    chunks := [];
    var lastId: Value := Int(0);
    var done := false;
    while !done
      invariant !done ==> all == chunks + ConvertPages(Pages(matching, idField, IntCast(lastId), iterationStep), binaryColumns, db2bin)
      invariant done ==> all == chunks
      decreases if done then 0 else |Pages(matching, idField, IntCast(lastId), iterationStep)| + 1
    {
      var rows := fetchAll(query, [lastId] + bind);
      ghost var chunks0, lastId0 := chunks, lastId;
      if |rows| > 0 {
        lastId := LastIdOf(rows, idField);
        var converted := ConvertChunk(rows, binaryColumns, db2bin);
        chunks := chunks + [converted];
      }
      done := |rows| != iterationStep;
      if done {
        PagingRoundLast(matching, idField, binaryColumns, db2bin, iterationStep, all, chunks0, lastId0, rows, chunks);
      } else {
        PagingRoundFull(matching, idField, binaryColumns, db2bin, iterationStep, all, chunks0, lastId0, rows, chunks, lastId);
      }
    }
  }

  /**
   * `forAllLogs`: an unknown table throws before any query; otherwise the
   * callback receives the query's pages in turn, converted, each non-empty
   * and every one but the last a full step. On a unique, positive id
   * (`log_visit`, `log_link_visit_action`, `log_action`) that is every
   * matching row once, in id order.
   */
  method ForAllLogs(logTable: string, fields: seq<string>, conditions: seq<Condition>, iterationStep: int,
                    matching: seq<Row>, fetchAll: (string, seq<Value>) -> seq<Row>, db2bin: Value -> Value,
                    prefixTable: string -> string, placeholders: seq<Value> -> string)
    returns (r: Result<seq<seq<Row>>>)
    requires iterationStep > 0
    requires logTable in LogTables ==>
      var idField := IdFieldForLogTable(logTable).value;
      Answers(fetchAll, IterationQuery(logTable, idField, fields, conditions, iterationStep, prefixTable, placeholders),
              matching, idField, iterationStep)
    ensures r.Ok? <==> logTable in LogTables
    ensures r.Err? ==> r.error == "Unknown log table '" + logTable + "'."
    ensures r.Ok? ==> r.value == ConvertPages(Pages(matching, IdFieldForLogTable(logTable).value, 0, iterationStep),
                                              BinaryColumns(logTable).value, db2bin)
    ensures r.Ok? ==> ChunkSizes(r.value, iterationStep)
    ensures r.Ok? && Ascending(matching, IdFieldForLogTable(logTable).value) &&
            PositiveIds(matching, IdFieldForLogTable(logTable).value) ==>
      Flatten(r.value) == ConvertRows(matching, BinaryColumns(logTable).value, db2bin)
  {
    var idResult := IdFieldForLogTable(logTable);
    if idResult.Err? {
      return Err(idResult.error);
    }
    var idField := idResult.value;
    var query, bind := CreateLogIterationQuery(logTable, idField, fields, conditions, iterationStep, prefixTable, placeholders);
    var binaryColumns := BinaryColumns(logTable).value;
    var chunks := PageThrough(query, bind, idField, binaryColumns, iterationStep, matching, fetchAll, db2bin);
    ghost var pages := Pages(matching, idField, 0, iterationStep);
    PagesSizes(matching, idField, 0, iterationStep);
    ConvertPagesFlatten(pages, binaryColumns, db2bin);
    if Ascending(matching, idField) && PositiveIds(matching, idField) {
      PagesEveryRow(matching, idField, iterationStep);
    }
    r := Ok(chunks);
  }

  // ---------------------------------------------------------------------
  // Lists of integer ids
  // ---------------------------------------------------------------------

  /** The `(int)` casts of the ids, rendered in decimal. */
  function IntStrings(ids: seq<Value>): (r: seq<string>)
    ensures |r| == |ids|
    ensures forall j :: 0 <= j < |ids| ==> r[j] == IntToString(IntCast(ids[j]))
  {
    seq(|ids|, j requires 0 <= j < |ids| => IntToString(IntCast(ids[j])))
  }

  /** `getInFieldExpressionWithInts`: a comma-and-space separated list in parentheses. */
  method InFieldExpressionWithInts(idVisits: seq<Value>) returns (sql: string)
    ensures sql == "(" + Join(IntStrings(idVisits), ", ") + ")"
  {
    sql := "(";
    var isFirst := true;
    for j := 0 to |idVisits|
      invariant isFirst <==> j == 0
      invariant sql == "(" + Join(IntStrings(idVisits[..j]), ", ")
    {
      ghost var before := sql;
      if isFirst {
        isFirst := false;
      } else {
        sql := sql + ", ";
      }
      sql := sql + IntToString(IntCast(idVisits[j]));
      InListStep(idVisits, j, before, sql);
    }
    assert idVisits[..|idVisits|] == idVisits;
    sql := sql + ")";
  }

  /** One more id: the first one alone, any later one after `, `. */
  lemma InListStep(ids: seq<Value>, j: nat, before: string, after: string)
    requires j < |ids|
    requires before == "(" + Join(IntStrings(ids[..j]), ", ")
    requires after == (if j == 0 then before else before + ", ") + IntToString(IntCast(ids[j]))
    ensures after == "(" + Join(IntStrings(ids[..j + 1]), ", ")
  {
    IntStringsSnoc(ids, j);
    JoinBuiltStep("(", IntStrings(ids[..j]), IntToString(IntCast(ids[j])), ", ", before, after);
  }

  lemma IntStringsSnoc(ids: seq<Value>, j: nat)
    requires j < |ids|
    ensures IntStrings(ids[..j + 1]) == IntStrings(ids[..j]) + [IntToString(IntCast(ids[j]))]
    ensures j == 0 <==> IntStrings(ids[..j]) == []
  {
  }

  /** `(int)` of every comma-separated part. */
  function ParseInts(parts: seq<string>): (r: seq<int>)
    ensures |r| == |parts|
  {
    if parts == [] then [] else [IntCast(Str(parts[0]))] + ParseInts(parts[1..])
  }

  lemma LeadingIntAfterSpace(t: string)
    ensures LeadingInt(" " + t) == LeadingInt(t)
  {
    assert (" " + t)[1..] == t;
    assert SkipLeadingSpace(" " + t) == SkipLeadingSpace(t);
  }

  lemma NoCommaInInt(i: int)
    ensures ',' !in IntToString(i)
  {
    IntToStringChars(i);
  }

  /** The `(int)` casts of the ids. */
  function IntsOf(ids: seq<Value>): (r: seq<int>)
    ensures |r| == |ids|
  {
    if ids == [] then [] else [IntCast(ids[0])] + IntsOf(ids[1..])
  }

  /**
   * Reading the list back — splitting inside the parentheses at the commas
   * and casting each part with `(int)` — gives the ids' integer values, in
   * order.
   */
  lemma InListRoundTrip(ids: seq<Value>)
    requires ids != []
    ensures ParseInts(Split(Join(IntStrings(ids), ", "), ',')) == IntsOf(ids)
  {
    InListRoundTripFrom(ids, "");
    assert "" + Join(IntStrings(ids), ", ") == Join(IntStrings(ids), ", ");
  }

  lemma FirstPartCast(i: int, lead: string)
    requires lead == "" || lead == " "
    ensures IntCast(Str(lead + IntToString(i))) == i
    ensures ',' !in lead + IntToString(i)
  {
    IntCastOfIntToString(i);
    NoCommaInInt(i);
    if lead == " " {
      LeadingIntAfterSpace(IntToString(i));
    } else {
      assert lead + IntToString(i) == IntToString(i);
    }
  }

  lemma SplitLast(s: string)
    requires ',' !in s
    ensures Split(s, ',') == [s]
  {
    assert CharIndex(s, ',') == |s|;
  }

  lemma JoinComma(first: string, rest: seq<string>, lead: string)
    requires rest != []
    ensures lead + Join([first] + rest, ", ") == (lead + first) + [','] + (" " + Join(rest, ", "))
  {
    var parts := [first] + rest;
    assert parts[0] == first && parts[1..] == rest;
    assert Join(parts, ", ") == first + ", " + Join(rest, ", ");
    assert ", " == [','] + " ";
  }

  lemma {:induction false} InListRoundTripFrom(ids: seq<Value>, lead: string)
    requires ids != [] && (lead == "" || lead == " ")
    ensures ParseInts(Split(lead + Join(IntStrings(ids), ", "), ',')) == IntsOf(ids)
    decreases |ids|
  {
    var first := IntStrings(ids)[0];
    FirstPartCast(IntCast(ids[0]), lead);
    if |ids| == 1 {
      assert Join(IntStrings(ids), ", ") == first;
      SplitLast(lead + first);
    } else {
      var tail := Split(" " + Join(IntStrings(ids[1..]), ", "), ',');
      IntStringsTail(ids);
      SplitJoinStep(IntStrings(ids), lead);
      InListRoundTripFrom(ids[1..], " ");
      var split := [lead + first] + tail;
      assert split[0] == lead + first && split[1..] == tail;
    }
  }

  /** Splitting a list of two or more parts at the commas cuts off the first one, with `lead` before it. */
  lemma SplitJoinStep(parts: seq<string>, lead: string)
    requires |parts| > 1 && ',' !in lead + parts[0]
    ensures Split(lead + Join(parts, ", "), ',') == [lead + parts[0]] + Split(" " + Join(parts[1..], ", "), ',')
  {
    assert [parts[0]] + parts[1..] == parts;
    JoinComma(parts[0], parts[1..], lead);
    SplitAfterPart(lead + parts[0], " " + Join(parts[1..], ", "), ',');
  }

  lemma IntStringsTail(ids: seq<Value>)
    requires ids != []
    ensures IntStrings(ids)[1..] == IntStrings(ids[1..])
  {
  }
}
