/**
 * The archive tables as the database holds them. Each month has a numeric
 * shard and a blob shard; a shard maps the primary key (idarchive, name) to
 * the rest of the row. Writers use INSERT IGNORE, so the first row stored
 * under a key stays. Named locks are a set of held lock names.
 */
module ArchiveDb {
  import opened Php

  /** Primary key of an archive row. */
  datatype Key = Key(idarchive: int, name: string)

  /** The remaining columns of an archive row. */
  datatype Row = Row(idsite: int, date1: string, date2: string, period: int, tsArchived: string, value: Value)

  /** A row about to be inserted. */
  datatype Record = Record(key: Key, row: Row)

  type Shard = map<Key, Row>

  /** A table-name suffix made of digits and underscores, such as "2012_01". */
  predicate IsMonthSuffix(ym: string) {
    forall i :: 0 <= i < |ym| ==> IsDigit(ym[i]) || ym[i] == '_'
  }

  /** The numeric shard of a month. */
  function NumericTable(ym: string): string {
    "archive_numeric_" + ym
  }

  /** The blob shard of a month. */
  function BlobTable(ym: string): string {
    "archive_blob_" + ym
  }

  /** `isBlob`: the table name mentions "archive_blob". */
  predicate IsBlob(table: string) {
    Contains(table, "archive_blob")
  }

  lemma BlobTableIsBlob(ym: string)
    ensures IsBlob(BlobTable(ym))
  {
    assert OccursAt(BlobTable(ym), "archive_blob", 0);
  }

  /** A numeric shard name is never taken for a blob shard. */
  lemma {:induction false} NumericTableIsNotBlob(ym: string)
    requires IsMonthSuffix(ym) || |ym| < 12
    ensures !IsBlob(NumericTable(ym))
  {
    var t := NumericTable(ym);
    forall j: nat | j <= |t|
      ensures !OccursAt(t, "archive_blob", j)
    {
      if j + 12 <= |t| {
        if j == 0 {
          assert t[j..j + 12][8] == 'n';
        } else if j < 16 {
          assert t[j..j + 12][0] == t[j] != 'a';
        } else {
          assert IsMonthSuffix(ym);
          assert t[j] == ym[j - 16];
          assert t[j..j + 12][0] == t[j] != 'a';
        }
      }
    }
  }

  /** INSERT IGNORE of one row. */
  function InsertIgnore(shard: Shard, rec: Record): Shard {
    if rec.key in shard then shard else shard[rec.key := rec.row]
  }

  /** INSERT IGNORE of several rows, in order. */
  function InsertIgnoreAll(shard: Shard, recs: seq<Record>): Shard
    decreases |recs|
  {
    if recs == [] then shard else InsertIgnoreAll(InsertIgnore(shard, recs[0]), recs[1..])
  }

  /** Index of the first record stored under `k`, or `|recs|`. */
  function FirstWithKey(recs: seq<Record>, k: Key): (i: nat)
    ensures i <= |recs|
    ensures i < |recs| ==> recs[i].key == k
    ensures forall j :: 0 <= j < i ==> recs[j].key != k
  {
    if recs == [] then 0 else if recs[0].key == k then 0 else 1 + FirstWithKey(recs[1..], k)
  }

  /**
   * After a batch INSERT IGNORE a key holds its old row if it had one,
   * otherwise the row of the first record of the batch with that key, and
   * is absent if neither exists.
   */
  lemma {:induction false} InsertIgnoreAllContents(shard: Shard, recs: seq<Record>, k: Key)
    ensures var r := InsertIgnoreAll(shard, recs);
            var i := FirstWithKey(recs, k);
            (k in r <==> k in shard || i < |recs|)
            && (k in shard ==> r[k] == shard[k])
            && (k !in shard && i < |recs| ==> r[k] == recs[i].row)
    decreases |recs|
  {
    if recs != [] {
      InsertIgnoreAllContents(InsertIgnore(shard, recs[0]), recs[1..], k);
    }
  }

  /** The keys after an INSERT IGNORE batch: the old ones and those of the batch. */
  lemma InsertIgnoreAllKeys(shard: Shard, recs: seq<Record>, k: Key)
    ensures k in InsertIgnoreAll(shard, recs) <==> k in shard || exists j :: 0 <= j < |recs| && recs[j].key == k
  {
    InsertIgnoreAllContents(shard, recs, k);
    var i := FirstWithKey(recs, k);
    if i < |recs| {
      assert recs[i].key == k;
    }
  }

  /** The rows of a table; a table not created yet reads as empty. */
  function ShardIn(tables: map<string, Shard>, t: string): Shard {
    if t in tables then tables[t] else map[]
  }

  /** The name under which a subtable of report `name` is stored: `name_<id>`. */
  function AppendIdSubtable(name: string, id: int): string {
    name + "_" + IntToString(id)
  }

  /** `IFNULL(MAX(idarchive), 0)` over a set of keys. */
  predicate IsMaxIdarchive(keys: set<Key>, m: int) {
    (keys == {} ==> m == 0)
    && (forall k :: k in keys ==> k.idarchive <= m)
    && (keys != {} ==> exists k :: k in keys && k.idarchive == m)
  }

  lemma {:induction false} MaxIdarchiveExists(keys: set<Key>)
    ensures exists m :: IsMaxIdarchive(keys, m)
    decreases |keys|
  {
    if keys != {} {
      var k :| k in keys;
      var rest := keys - {k};
      MaxIdarchiveExists(rest);
      var m :| IsMaxIdarchive(rest, m);
      if rest == {} || k.idarchive > m {
        assert IsMaxIdarchive(keys, k.idarchive);
      } else {
        assert IsMaxIdarchive(keys, m);
      }
    } else {
      assert IsMaxIdarchive(keys, 0);
    }
  }

  lemma MaxIdarchiveUnique(keys: set<Key>, m1: int, m2: int)
    requires IsMaxIdarchive(keys, m1) && IsMaxIdarchive(keys, m2)
    ensures m1 == m2
  {
  }

  /** The largest idarchive of a shard, 0 for an empty shard. */
  ghost function MaxIdarchive(keys: set<Key>): (m: int)
    ensures IsMaxIdarchive(keys, m)
  {
    MaxIdarchiveExists(keys);
    var m :| IsMaxIdarchive(keys, m);
    m
  }

  /** The database holding the archive shards and the named locks. */
  class ArchiveTables {
    var tables: map<string, Shard>
    var locks: set<string>

    constructor ()
      ensures tables == map[] && locks == {}
    {
      tables := map[];
      locks := {};
    }

    /** The rows of a table; a table not created yet reads as empty. */
    function ShardOf(t: string): Shard
      reads this
    {
      ShardIn(tables, t)
    }

    /** `CREATE TABLE IF NOT EXISTS`: an existing table is left untouched. */
    method CreateTableIfNotExists(t: string)
      modifies this
      ensures tables == if t in old(tables) then old(tables) else old(tables)[t := map[]]
      ensures locks == old(locks)
    {
      if t !in tables {
        tables := tables[t := map[]];
      }
    }

    /** `SELECT IFNULL(MAX(idarchive), 0) FROM t`. */
    method SelectMaxIdarchive(t: string) returns (m: int)
      ensures m == MaxIdarchive(ShardOf(t).Keys)
    {
      var all := ShardOf(t).Keys;
      var rest := all;
      m := 0;
      while rest != {}
        invariant rest <= all
        invariant forall k :: k in all - rest ==> k.idarchive <= m
        invariant all - rest == {} ==> m == 0
        invariant all - rest != {} ==> exists k :: k in all - rest && k.idarchive == m
        decreases |rest|
      {
        var k :| k in rest;
        if all - rest == {} || k.idarchive > m {
          m := k.idarchive;
        }
        rest := rest - {k};
      }
      MaxIdarchiveUnique(all, m, MaxIdarchive(all));
    }
  }
}
