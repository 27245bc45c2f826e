/**
 * The generic DAO base class (core/Db/DAO/Generic.php). Its four chunked
 * loops are the same code as the database facade's and are modelled once,
 * in module Db; this module adds the counting query built from a condition
 * array.
 */
module GenericDao {
  import opened Php

  /** A PHP condition array: raw SQL condition => bound value, in insertion order. */
  type Conditions = seq<(string, Value)>

  /** `array_keys`. */
  function Keys(where: Conditions): (r: seq<string>)
    ensures |r| == |where|
  {
    if where == [] then [] else [where[0].0] + Keys(where[1..])
  }

  /** `array_values`. */
  function Values(where: Conditions): (r: seq<Value>)
    ensures |r| == |where|
  {
    if where == [] then [] else [where[0].1] + Values(where[1..])
  }

  lemma {:induction false} KeysValuesAt(where: Conditions, j: nat)
    requires j < |where|
    ensures Keys(where)[j] == where[j].0 && Values(where)[j] == where[j].1
  {
    if j > 0 {
      KeysValuesAt(where[1..], j - 1);
    }
  }

  /** Everything before the first condition. */
  function CountHead(table: string): string {
    "SELECT COUNT(*) FROM " + table + " WHERE "
  }

  /** A query with its binds. */
  datatype Query = Query(sql: string, binds: seq<Value>)

  /**
   * The query `getCountFromWhere` sends: every condition of `where` after
   * `WHERE`, in order and separated by ` AND `, and the j-th bind is the
   * j-th condition's value.
   */
  function CountFromWhereQuery(table: string, where: Conditions): (q: Query)
    ensures StartsWith(q.sql, CountHead(table))
    ensures |q.binds| == |where|
    ensures forall j :: 0 <= j < |where| ==> q.binds[j] == where[j].1
  {
    var q := Query(CountHead(table) + Join(Keys(where), " AND "), Values(where));
    assert forall j :: 0 <= j < |where| ==> q.binds[j] == where[j].1 by {
      forall j | 0 <= j < |where| ensures q.binds[j] == where[j].1 {
        KeysValuesAt(where, j);
      }
    }
    q
  }

  /** `getCountFromWhere`: the database's answer to that query, cast to int. */
  function GetCountFromWhere(table: string, where: Conditions, fetchOne: (string, seq<Value>) -> Value): int {
    var q := CountFromWhereQuery(table, where);
    IntCast(fetchOne(q.sql, q.binds))
  }

  /**
   * The j-th condition appears in the counting query at its place in the
   * joined list (with `CountFromWhereSeparator`: the conditions keep their
   * array order, as the binds do).
   */
  lemma CountFromWhereCondition(table: string, where: Conditions, j: nat)
    requires j < |where|
    ensures OccursAt(CountFromWhereQuery(table, where).sql, where[j].0,
                     |CountHead(table)| + JoinOffset(Keys(where), " AND ", j))
  {
    var keys := Keys(where);
    assert CountFromWhereQuery(table, where).sql == CountHead(table) + Join(keys, " AND ");
    KeysValuesAt(where, j);
    JoinPartAt(keys, " AND ", j);
    OccursAtShift(CountHead(table), Join(keys, " AND "), keys[j], JoinOffset(keys, " AND ", j));
  }

  /** Right after each condition but the last comes ` AND ` and then the next condition. */
  lemma CountFromWhereSeparator(table: string, where: Conditions, j: nat)
    requires j + 1 < |where|
    ensures OccursAt(CountFromWhereQuery(table, where).sql, " AND ",
                     |CountHead(table)| + JoinOffset(Keys(where), " AND ", j) + |where[j].0|)
    ensures JoinOffset(Keys(where), " AND ", j) + |where[j].0| + 5 == JoinOffset(Keys(where), " AND ", j + 1)
  {
    var keys := Keys(where);
    assert CountFromWhereQuery(table, where).sql == CountHead(table) + Join(keys, " AND ");
    KeysValuesAt(where, j);
    JoinPartAt(keys, " AND ", j);
    JoinSeparatorAt(keys, " AND ", j);
    OccursAtShift(CountHead(table), Join(keys, " AND "), " AND ", JoinOffset(keys, " AND ", j) + |keys[j]|);
  }

  /** Between two consecutive parts of a join stands the separator. */
  lemma {:induction false} JoinSeparatorAt(parts: seq<string>, sep: string, j: nat)
    requires j + 1 < |parts|
    ensures OccursAt(Join(parts, sep), sep, JoinOffset(parts, sep, j) + |parts[j]|)
  {
    if j == 0 {
      assert Join(parts, sep) == parts[0] + sep + Join(parts[1..], sep);
      assert Join(parts, sep)[|parts[0]|..|parts[0]| + |sep|] == sep;
    } else {
      JoinSeparatorAt(parts[1..], sep, j - 1);
      assert Join(parts, sep) == (parts[0] + sep) + Join(parts[1..], sep);
      OccursAtShift(parts[0] + sep, Join(parts[1..], sep), sep, JoinOffset(parts[1..], sep, j - 1) + |parts[j]|);
    }
  }
}
