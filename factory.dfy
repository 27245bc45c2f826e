/**
 * The DAO factory (core/Db/Factory.php): the adapter-specific folder, the
 * class name derived from a table name with its fall-back to the MySQL
 * classes, and the static cache of DAO instances, which test mode bypasses.
 *
 * The configured adapter and the existence of a class file are parameters.
 * A DAO instance is identified by its class, its table and the serial
 * number of its construction, so that a cached instance and a newly built
 * one can be told apart.
 */
module Factory {
  import opened Wrappers
  import opened Php

  // ---------------------------------------------------------------------
  // Class names
  // ---------------------------------------------------------------------

  /** `ucfirst` on every part. */
  function UcFirstAll(parts: seq<string>): (r: seq<string>)
    ensures |r| == |parts|
    ensures forall j :: 0 <= j < |parts| ==> r[j] == UcFirst(parts[j])
  {
    seq(|parts|, j requires 0 <= j < |parts| => UcFirst(parts[j]))
  }

  /** The DAO class of a table: its `_`-separated parts, each capitalised, run together. */
  function ClassName(table: string): string {
    Join(UcFirstAll(Split(table, '_')), "")
  }

  /** `classFromTable`: the loop capitalises the parts in place, then joins them. */
  method ClassFromTable(table: string) returns (r: string)
    ensures r == ClassName(table)
  {
    var parts := Split(table, '_');
    ghost var original := parts;
    for k := 0 to |parts|
      invariant |parts| == |original|
      invariant forall j :: 0 <= j < k ==> parts[j] == UcFirst(original[j])
      invariant forall j :: k <= j < |parts| ==> parts[j] == original[j]
    {
      parts := parts[k := UcFirst(parts[k])];
    }
    assert parts == UcFirstAll(original);
    r := Join(parts, "");
  }

  function SumLengths(parts: seq<string>): nat {
    if parts == [] then 0 else |parts[0]| + SumLengths(parts[1..])
  }

  lemma {:induction false} JoinLength(parts: seq<string>, sep: string)
    requires parts != []
    ensures |Join(parts, sep)| == SumLengths(parts) + (|parts| - 1) * |sep|
  {
    if |parts| > 1 {
      JoinLength(parts[1..], sep);
    }
  }

  lemma {:induction false} JoinCount(parts: seq<string>, c: char)
    requires parts != []
    requires forall j :: 0 <= j < |parts| ==> c !in parts[j]
    ensures CountChar(Join(parts, [c]), c) == |parts| - 1
  {
    if |parts| > 1 {
      JoinCount(parts[1..], c);
      CountCharAppend(parts[0], [c], c);
      CountCharAppend(parts[0] + [c], Join(parts[1..], [c]), c);
    }
  }

  lemma {:induction false} UcFirstAllLengths(parts: seq<string>)
    ensures SumLengths(UcFirstAll(parts)) == SumLengths(parts)
  {
    if parts != [] {
      UcFirstAllLengths(parts[1..]);
      assert UcFirstAll(parts)[1..] == UcFirstAll(parts[1..]);
    }
  }

  lemma {:induction false} JoinWithoutChar(parts: seq<string>, c: char)
    requires forall j :: 0 <= j < |parts| ==> c !in parts[j]
    ensures c !in Join(parts, "")
  {
    if |parts| > 1 {
      JoinWithoutChar(parts[1..], c);
      assert Join(parts, "") == parts[0] + Join(parts[1..], "");
    }
  }

  lemma UcFirstKeepsUnderscores(s: string)
    requires '_' !in s
    ensures '_' !in UcFirst(s)
  {
    if s != [] {
      assert UcFirst(s) == [ToUpperChar(s[0])] + s[1..];
    }
  }

  /** The class name keeps no underscore. */
  lemma ClassNameHasNoUnderscore(table: string)
    ensures '_' !in ClassName(table)
  {
    var parts := Split(table, '_');
    var caps := UcFirstAll(parts);
    forall j | 0 <= j < |caps| ensures '_' !in caps[j] {
      UcFirstKeepsUnderscores(parts[j]);
    }
    JoinWithoutChar(caps, '_');
  }

  /**
   * Every character of the table name but the underscores is kept (only
   * first letters change case): with `ClassNameHasNoUnderscore`, the class
   * name is the table name without its underscores.
   */
  lemma ClassNameLength(table: string)
    ensures |ClassName(table)| + CountChar(table, '_') == |table|
  {
    var parts := Split(table, '_');
    SplitLength(table);
    JoinLength(UcFirstAll(parts), "");
    UcFirstAllLengths(parts);
  }

  lemma SplitLength(table: string)
    ensures SumLengths(Split(table, '_')) + CountChar(table, '_') == |table|
  {
    var parts := Split(table, '_');
    JoinSplit(table, '_');
    JoinLength(parts, "_");
    JoinCount(parts, '_');
  }

  /** `folderName`: `pdo\pgsql` in any letter case selects the PostgreSQL classes; anything else MySQL's. */
  function FolderName(adapter: string): (r: string)
    ensures r == "Pgsql" || r == "Mysql"
    ensures r == "Pgsql" <==> ToLower(adapter) == "pdo\\pgsql"
  {
    if ToLower(adapter) == "pdo\\pgsql" then "Pgsql" else "Mysql"
  }

  /** Adapter names that differ only in letter case select the same folder. */
  lemma FolderNameIgnoresCase(a: string, b: string)
    requires |a| == |b|
    requires forall i :: 0 <= i < |a| ==> ToLowerChar(a[i]) == ToLowerChar(b[i])
    ensures FolderName(a) == FolderName(b)
  {
    assert ToLower(a) == ToLower(b);
  }

  function DaoClass(folder: string, className: string): string {
    "Piwik\\Db\\DAO\\" + folder + "\\" + className
  }

  /**
   * `getClassNameFromTableName`: the adapter's own DAO class when its file
   * exists, the MySQL one otherwise.
   */
  function GetClassNameFromTableName(folder: string, table: string, fileExists: string -> bool): (r: string)
    ensures fileExists(DaoClass(folder, ClassName(table))) ==> r == DaoClass(folder, ClassName(table))
    ensures !fileExists(DaoClass(folder, ClassName(table))) ==> r == DaoClass("Mysql", ClassName(table))
  {
    var fullClass := DaoClass(folder, ClassName(table));
    if !fileExists(fullClass) then DaoClass("Mysql", ClassName(table)) else fullClass
  }

  // ---------------------------------------------------------------------
  // The DAO cache
  // ---------------------------------------------------------------------

  /** A DAO object: its class, its table and which construction made it. */
  datatype Dao = Dao(className: string, table: string, serial: nat)

  /**
   * The static state of the factory: the DAO cache, the test flag, the
   * singleton (present or null, with the folder it chose) and the number of
   * DAO objects built so far.
   */
  class Factory {
    var daos: map<string, Dao>
    var isTest: bool
    var folder: Option<string>
    var built: nat

    /** Every cached DAO serves the table it is cached under and was built earlier. */
    predicate Valid()
      reads this
    {
      forall t :: t in daos ==> daos[t].table == t && daos[t].serial < built
    }

    constructor ()
      ensures Valid()
      ensures daos == map[] && !isTest && folder == None && built == 0
    {
      daos := map[];
      isTest := false;
      folder := None;
      built := 0;
    }

    /** `setInstance`: creates the singleton on first use. */
    method SetInstance(adapter: string)
      modifies this
      ensures folder == if old(folder).None? then Some(FolderName(adapter)) else old(folder)
      ensures daos == old(daos) && isTest == old(isTest) && built == old(built)
    {
      if folder.None? {
        folder := Some(FolderName(adapter));
      }
    }

    /** `refreshInstance`: a new singleton for the current adapter and an empty DAO cache. */
    method RefreshInstance(adapter: string)
      requires Valid()
      modifies this
      ensures Valid()
      ensures folder == Some(FolderName(adapter)) && daos == map[]
      ensures isTest == old(isTest) && built == old(built)
    {
      folder := Some(FolderName(adapter));
      daos := map[];
    }

    /** `setTest`: only a boolean changes the flag. */
    method SetTest(test: Value)
      requires Valid()
      modifies this
      ensures Valid()
      ensures isTest == if test.Bool? then test.b else old(isTest)
      ensures daos == old(daos) && folder == old(folder) && built == old(built)
    {
      if test.Bool? {
        isTest := test.b;
      }
    }

    /**
     * `dao`: the cached instance for the table unless test mode is on;
     * otherwise a new instance of the table's class, which replaces the
     * cached one.
     */
    method GetDao(table: string, fileExists: string -> bool) returns (dao: Dao)
      requires Valid() && folder.Some?
      modifies this
      ensures Valid()
      ensures folder == old(folder) && isTest == old(isTest)
      ensures table in old(daos) && !isTest ==> dao == old(daos)[table] && daos == old(daos) && built == old(built)
      ensures !(table in old(daos) && !isTest) ==>
        dao == Dao(GetClassNameFromTableName(folder.value, table, fileExists), table, old(built)) &&
        daos == old(daos)[table := dao] && built == old(built) + 1
    {
      if table in daos && !isTest {
        return daos[table];
      }
      var className := GetClassNameFromTableName(folder.value, table, fileExists);
      dao := Dao(className, table, built);
      built := built + 1;
      daos := daos[table := dao];
    }

    /** `getDAO`: creates the singleton if needed, then asks it for the DAO. */
    method GetDAO(table: string, adapter: string, fileExists: string -> bool) returns (dao: Dao)
      requires Valid()
      modifies this
      ensures Valid()
      ensures folder == if old(folder).None? then Some(FolderName(adapter)) else old(folder)
      ensures isTest == old(isTest)
      ensures table in old(daos) && !isTest ==> dao == old(daos)[table] && daos == old(daos) && built == old(built)
      ensures !(table in old(daos) && !isTest) ==>
        dao == Dao(GetClassNameFromTableName(folder.value, table, fileExists), table, old(built)) &&
        daos == old(daos)[table := dao] && built == old(built) + 1
    {
      SetInstance(adapter);
      dao := GetDao(table, fileExists);
    }
  }

  /**
   * Asking twice for the same table: outside test mode the second call
   * returns the very instance the first built; in test mode it builds
   * another instance of the same class.
   */
  method DaoAskedTwice(table: string, adapter: string, fileExists: string -> bool, test: bool)
    returns (first: Dao, second: Dao)
    ensures !test ==> first == second
    ensures test ==> first != second && first.className == second.className
    ensures first.className == GetClassNameFromTableName(FolderName(adapter), table, fileExists)
  {
    var factory := new Factory();
    factory.SetTest(Bool(test));
    first := factory.GetDAO(table, adapter, fileExists);
    second := factory.GetDAO(table, adapter, fileExists);
  }

  /** After `refreshInstance` the cache is gone: the next request builds a new instance. */
  method DaoAfterRefresh(table: string, adapter: string, fileExists: string -> bool)
    returns (before: Dao, after: Dao)
    ensures before != after && before.table == after.table
  {
    var factory := new Factory();
    before := factory.GetDAO(table, adapter, fileExists);
    factory.RefreshInstance(adapter);
    after := factory.GetDAO(table, adapter, fileExists);
  }
}
