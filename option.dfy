/**
 * The option cache (core/Option.php, class `Option`): a name => value map in front of the
 * option table, filled with every autoloaded option on first use and with
 * single options as they are read or written, and dropped as a whole when
 * options are deleted.
 *
 * The option table's DAO is not part of this model: what it answers (the
 * autoloaded rows, the stored value of one option or false) is a
 * parameter, and its writes are left out. Two ghost counters record how
 * often the cache asked the table.
 */
module Options {
  import opened Wrappers

  /** The cache after copying the autoloaded rows into it, in row order. */
  function LoadRows(all: map<string, string>, rows: seq<(string, string)>): map<string, string> {
    if rows == [] then all
    else LoadRows(all, rows[..|rows| - 1])[rows[|rows| - 1].0 := rows[|rows| - 1].1]
  }

  /** A name no row mentions keeps its cached value, or its absence. */
  lemma {:induction false} LoadRowsUntouched(all: map<string, string>, rows: seq<(string, string)>, name: string)
    requires forall i :: 0 <= i < |rows| ==> rows[i].0 != name
    ensures name in LoadRows(all, rows) <==> name in all
    ensures name in all ==> LoadRows(all, rows)[name] == all[name]
  {
    if rows != [] {
      LoadRowsUntouched(all, rows[..|rows| - 1], name);
    }
  }

  /** A name some row mentions is cached with the value of the last such row. */
  lemma {:induction false} LoadRowsLast(all: map<string, string>, rows: seq<(string, string)>, i: nat)
    requires i < |rows|
    requires forall j :: i < j < |rows| ==> rows[j].0 != rows[i].0
    ensures rows[i].0 in LoadRows(all, rows) && LoadRows(all, rows)[rows[i].0] == rows[i].1
  {
    if i < |rows| - 1 {
      LoadRowsLast(all, rows[..|rows| - 1], i);
    }
  }

  class OptionCache {
    var all: map<string, string>
    var loaded: bool
    /** How often the autoloaded rows were fetched. */
    ghost var autoloadFetches: nat
    /** How often a single option was looked up in the table. */
    ghost var lookups: nat

    constructor ()
      ensures all == map[] && !loaded
      ensures autoloadFetches == 0 && lookups == 0
    {
      all := map[];
      loaded := false;
      autoloadFetches := 0;
      lookups := 0;
    }

    /**
     * `autoload`: does nothing once loaded; otherwise fetches the
     * autoloaded rows once, copies them into the cache over what is there,
     * and marks the cache loaded.
     */
    method Autoload(rows: seq<(string, string)>)
      modifies this
      ensures old(loaded) ==> all == old(all) && autoloadFetches == old(autoloadFetches)
      ensures !old(loaded) ==> all == LoadRows(old(all), rows) && autoloadFetches == old(autoloadFetches) + 1
      ensures loaded && lookups == old(lookups)
    {
      if loaded {
        return;
      }
      autoloadFetches := autoloadFetches + 1;
      for j := 0 to |rows|
        invariant all == LoadRows(old(all), rows[..j])
        invariant autoloadFetches == old(autoloadFetches) + 1 && lookups == old(lookups)
      {
        assert rows[..j + 1][..j] == rows[..j];
        all := all[rows[j].0 := rows[j].1];
      }
      assert rows[..|rows|] == rows;
      loaded := true;
    }

    /**
     * `get`: after autoloading, a cached value is returned without asking
     * the table; otherwise the table's value is cached and returned, and a
     * missing option (false, here `None`) is returned without being cached.
     */
    method Get(name: string, rows: seq<(string, string)>, stored: Option<string>) returns (r: Option<string>)
      modifies this
      ensures var cached := if old(loaded) then old(all) else LoadRows(old(all), rows);
        (name in cached ==> r == Some(cached[name]) && all == cached && lookups == old(lookups)) &&
        (name !in cached ==> r == stored && lookups == old(lookups) + 1 &&
                             all == if stored.Some? then cached[name := stored.value] else cached)
      ensures loaded
      ensures autoloadFetches == old(autoloadFetches) + (if old(loaded) then 0 else 1)
    {
      Autoload(rows);
      if name in all {
        return Some(all[name]);
      }
      lookups := lookups + 1;
      r := stored;
      if r.None? {
        return;
      }
      all := all[name := r.value];
    }

    /** `set`: the value goes to the table (left out) and into the cache. */
    method Set(name: string, value: string)
      modifies this
      ensures all == old(all)[name := value]
      ensures loaded == old(loaded) && autoloadFetches == old(autoloadFetches) && lookups == old(lookups)
    {
      all := all[name := value];
    }

    /** `clearCache`: empty and not loaded. */
    method ClearCache()
      modifies this
      ensures all == map[] && !loaded
      ensures autoloadFetches == old(autoloadFetches) && lookups == old(lookups)
    {
      loaded := false;
      all := map[];
    }

    /** `delete`: the row goes from the table (left out) and the whole cache is cleared. */
    method Delete(name: string, value: Option<string>)
      modifies this
      ensures all == map[] && !loaded
      ensures autoloadFetches == old(autoloadFetches) && lookups == old(lookups)
    {
      ClearCache();
    }

    /** `deleteLike`: the matching rows go from the table (left out) and the whole cache is cleared. */
    method DeleteLike(pattern: string, value: Option<string>)
      modifies this
      ensures all == map[] && !loaded
      ensures autoloadFetches == old(autoloadFetches) && lookups == old(lookups)
    {
      ClearCache();
    }
  }

  /**
   * A value just set is what the next read returns, provided the table
   * (which received the same write) lists no other value for that name among
   * its autoloaded rows.
   */
  method SetThenGet(name: string, value: string, rows: seq<(string, string)>, stored: Option<string>)
    returns (r: Option<string>)
    requires forall i :: 0 <= i < |rows| && rows[i].0 == name ==> rows[i].1 == value
    ensures r == Some(value)
  {
    var option := new OptionCache();
    option.Set(name, value);
    var m := map[name := value];
    if i :| 0 <= i < |rows| && rows[i].0 == name {
      var last := LastRowFor(rows, name, i);
      LoadRowsLast(m, rows, last);
    } else {
      LoadRowsUntouched(m, rows, name);
    }
    r := option.Get(name, rows, stored);
  }

  /** The index of the last row for `name`, given one. */
  lemma LastRowFor(rows: seq<(string, string)>, name: string, i: nat) returns (last: nat)
    requires i < |rows| && rows[i].0 == name
    ensures last < |rows| && rows[last].0 == name
    ensures forall j :: last < j < |rows| ==> rows[j].0 != name
    decreases |rows| - i
  {
    if j :| i < j < |rows| && rows[j].0 == name {
      last := LastRowFor(rows, name, j);
    } else {
      last := i;
    }
  }

  /**
   * Reading the same option twice: the autoloaded rows are fetched once
   * (what the table would list the second time is ignored); a value found
   * the first time comes back from the cache, while false is not cached and
   * the table is asked again.
   */
  method GetTwice(name: string, rows1: seq<(string, string)>, stored1: Option<string>,
                  rows2: seq<(string, string)>, stored2: Option<string>)
    returns (first: Option<string>, second: Option<string>)
    ensures first.Some? ==> second == first
    ensures first.None? ==> second == stored2
  {
    var option := new OptionCache();
    first := option.Get(name, rows1, stored1);
    second := option.Get(name, rows2, stored2);
  }

  /**
   * After a delete the next read starts over: it fetches the autoloaded
   * rows again and ignores everything cached before.
   */
  method GetAfterDelete(name: string, rows1: seq<(string, string)>, stored1: Option<string>,
                        deleted: string, rows2: seq<(string, string)>, stored2: Option<string>)
    returns (r: Option<string>)
    ensures name in LoadRows(map[], rows2) ==> r == Some(LoadRows(map[], rows2)[name])
    ensures name !in LoadRows(map[], rows2) ==> r == stored2
  {
    var option := new OptionCache();
    var _ := option.Get(name, rows1, stored1);
    option.Delete(deleted, None);
    r := option.Get(name, rows2, stored2);
  }
}
