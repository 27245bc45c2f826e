/**
 * Site settings storage (core/Measurable/Settings/Storage.php): the names
 * marked for deletion, the current setting values, and how `save` writes
 * them to the site_setting table and `loadSettings` reads them back.
 *
 * The site_setting table is a map from (idsite, setting name) to the
 * serialized value, changed through the three DAO calls the storage makes
 * (core/Db/DAO/Mysql/SiteSetting.php). PHP's `serialize`/`unserialize` are
 * parameters.
 */
module SiteSettings {
  import opened Wrappers
  import opened Php
  import opened Assoc

  type Rows = map<(int, string), string>

  /** The table without any setting of the site. */
  function WithoutSite(rows: Rows, idSite: int): (r: Rows)
    ensures forall k :: k in r <==> k in rows && k.0 != idSite
    ensures forall k :: k in r ==> r[k] == rows[k]
  {
    map k | k in rows && k.0 != idSite :: rows[k]
  }

  /** The site_setting table, as the DAO sees it. */
  class SiteSettingTable {
    var rows: Rows

    constructor (rows: Rows)
      ensures this.rows == rows
    {
      this.rows := rows;
    }

    /** `deleteByIdsite`: every setting of the site goes. */
    method DeleteByIdsite(idSite: int)
      modifies this
      ensures rows == WithoutSite(old(rows), idSite)
    {
      rows := WithoutSite(rows, idSite);
    }

    /** `deleteByIdsiteAndSettingName`: one setting of one site goes. */
    method DeleteByIdsiteAndSettingName(idSite: int, name: string)
      modifies this
      ensures rows == old(rows) - {(idSite, name)}
    {
      rows := rows - {(idSite, name)};
    }

    /** `upsert`: the row is inserted, or its value replaced when it exists. */
    method Upsert(idSite: int, name: string, value: string)
      modifies this
      ensures rows == old(rows)[(idSite, name) := value]
    {
      rows := rows[(idSite, name) := value];
    }
  }

  /** The table after `save`'s first loop: each name flagged true deleted, in flag order. */
  function Deleted(rows: Rows, idSite: int, flags: seq<(string, bool)>): Rows
    decreases |flags|
  {
    if flags == [] then rows
    else
      var r := Deleted(rows, idSite, flags[..|flags| - 1]);
      var last := flags[|flags| - 1];
      if last.1 then r - {(idSite, last.0)} else r
  }

  /** The table after `save`'s second loop: each value upserted serialized, in value order. */
  function Upserted(rows: Rows, idSite: int, values: seq<(string, Value)>, serialize: Value -> string): Rows
    decreases |values|
  {
    if values == [] then rows
    else
      var last := values[|values| - 1];
      Upserted(rows, idSite, values[..|values| - 1], serialize)[(idSite, last.0) := serialize(last.1)]
  }

  /** The table after a whole `save`. */
  function Saved(rows: Rows, idSite: int, flags: seq<(string, bool)>, values: seq<(string, Value)>,
                 serialize: Value -> string): Rows
  {
    Upserted(Deleted(rows, idSite, flags), idSite, values, serialize)
  }

  /**
   * The first loop removes a row exactly when it belongs to the site and
   * its name is flagged true; every row it keeps keeps its value.
   */
  lemma {:induction false} DeletedAt(rows: Rows, idSite: int, flags: seq<(string, bool)>, k: (int, string))
    requires UniqueKeys(flags)
    ensures k in Deleted(rows, idSite, flags) <==> k in rows && !(k.0 == idSite && Find(flags, k.1) == Some(true))
    ensures k in Deleted(rows, idSite, flags) ==> Deleted(rows, idSite, flags)[k] == rows[k]
    decreases |flags|
  {
    if flags != [] {
      UniqueInit(flags);
      DeletedAt(rows, idSite, flags[..|flags| - 1], k);
      FindSnoc(flags, k.1);
    }
  }

  /**
   * The second loop stores, for every name with a value, that value
   * serialized under the site; every other row is left as it was.
   */
  lemma {:induction false} UpsertedAt(rows: Rows, idSite: int, values: seq<(string, Value)>,
                                      serialize: Value -> string, k: (int, string))
    requires UniqueKeys(values)
    ensures var r := Upserted(rows, idSite, values, serialize);
      if k.0 == idSite && HasKey(values, k.1) then k in r && r[k] == serialize(Find(values, k.1).value)
      else (k in r <==> k in rows) && (k in rows ==> r[k] == rows[k])
    decreases |values|
  {
    if values != [] {
      UniqueInit(values);
      UpsertedAt(rows, idSite, values[..|values| - 1], serialize, k);
      FindSnoc(values, k.1);
    }
  }

  /**
   * What `save` leaves for one setting of the site: its current value,
   * serialized, when it has one; nothing when it has none and was flagged
   * for deletion; otherwise the row that was there. Other sites' rows are
   * untouched.
   */
  lemma SavedAt(rows: Rows, idSite: int, flags: seq<(string, bool)>, values: seq<(string, Value)>,
                serialize: Value -> string, k: (int, string))
    requires UniqueKeys(flags) && UniqueKeys(values)
    ensures var r := Saved(rows, idSite, flags, values, serialize);
      if k.0 == idSite && HasKey(values, k.1) then k in r && r[k] == serialize(Find(values, k.1).value)
      else if k.0 == idSite && Find(flags, k.1) == Some(true) then k !in r
      else (k in r <==> k in rows) && (k in rows ==> r[k] == rows[k])
  {
    DeletedAt(rows, idSite, flags, k);
    UpsertedAt(Deleted(rows, idSite, flags), idSite, values, serialize, k);
  }

  /** The settings as `loadSettings` returns them: name => unserialized value, in row order. */
  function Flat(settings: seq<(string, string)>, unserialize: string -> Value): seq<(string, Value)>
    decreases |settings|
  {
    if settings == [] then []
    else
      var last := settings[|settings| - 1];
      Put(Flat(settings[..|settings| - 1], unserialize), last.0, unserialize(last.1))
  }

  /** With one row per name, each name maps to its own row's value, unserialized. */
  lemma {:induction false} FlatFind(settings: seq<(string, string)>, unserialize: string -> Value, n: string)
    requires UniqueKeys(settings)
    ensures Find(Flat(settings, unserialize), n)
            == if Find(settings, n).Some? then Some(unserialize(Find(settings, n).value)) else None
    decreases |settings|
  {
    if settings != [] {
      var last := settings[|settings| - 1];
      UniqueInit(settings);
      FlatFind(settings[..|settings| - 1], unserialize, n);
      PutFind(Flat(settings[..|settings| - 1], unserialize), last.0, unserialize(last.1), n);
      FindSnoc(settings, n);
    }
  }

  /** `getByIdsite`'s answer: exactly the site's rows, one per name, in some order. */
  ghost predicate ListsSite(settings: seq<(string, string)>, rows: Rows, idSite: int) {
    UniqueKeys(settings)
    && (forall i :: 0 <= i < |settings| ==> (idSite, settings[i].0) in rows && rows[(idSite, settings[i].0)] == settings[i].1)
    && (forall n :: (idSite, n) in rows ==> HasKey(settings, n))
  }

  lemma ListsSiteFind(settings: seq<(string, string)>, rows: Rows, idSite: int, n: string)
    requires ListsSite(settings, rows, idSite)
    ensures Find(settings, n) == if (idSite, n) in rows then Some(rows[(idSite, n)]) else None
  {
    if (idSite, n) in rows {
      var i :| 0 <= i < |settings| && settings[i].0 == n;
      FindUnique(settings, i);
    }
  }

  /**
   * Loading after saving gives back every current value (given that
   * `unserialize` undoes `serialize` on them) and no value for a name that
   * was deleted and not set again.
   */
  lemma LoadAfterSave(rows: Rows, idSite: int, flags: seq<(string, bool)>, values: seq<(string, Value)>,
                      serialize: Value -> string, unserialize: string -> Value,
                      settings: seq<(string, string)>, n: string)
    requires UniqueKeys(flags) && UniqueKeys(values)
    requires forall i :: 0 <= i < |values| ==> unserialize(serialize(values[i].1)) == values[i].1
    requires ListsSite(settings, Saved(rows, idSite, flags, values, serialize), idSite)
    ensures HasKey(values, n) ==> Find(Flat(settings, unserialize), n) == Find(values, n)
    ensures !HasKey(values, n) && Find(flags, n) == Some(true) ==> Find(Flat(settings, unserialize), n) == None
  {
    SavedAt(rows, idSite, flags, values, serialize, (idSite, n));
    ListsSiteFind(settings, Saved(rows, idSite, flags, values, serialize), idSite, n);
    FlatFind(settings, unserialize, n);
    if HasKey(values, n) {
      var i :| 0 <= i < |values| && values[i].0 == n;
      FindUnique(values, i);
    }
  }

  /** A value set after its deletion was asked for is saved, and not deleted. */
  lemma SetAfterDelete(rows: Rows, idSite: int, flags: seq<(string, bool)>, values: seq<(string, Value)>,
                       serialize: Value -> string, n: string, v: Value)
    requires UniqueKeys(flags) && UniqueKeys(values)
    ensures var r := Saved(rows, idSite, Put(Put(flags, n, true), n, false),
                           Put(Unset(values, n), n, v), serialize);
            (idSite, n) in r && r[(idSite, n)] == serialize(v)
  {
    PutUnique(flags, n, true);
    PutUnique(Put(flags, n, true), n, false);
    UnsetUnique(values, n);
    PutUnique(Unset(values, n), n, v);
    PutFind(Unset(values, n), n, v, n);
    SavedAt(rows, idSite, Put(Put(flags, n, true), n, false), Put(Unset(values, n), n, v), serialize, (idSite, n));
  }

  /** A setting deleted after it was set is removed from the table by the next save. */
  lemma DeleteAfterSet(rows: Rows, idSite: int, flags: seq<(string, bool)>, values: seq<(string, Value)>,
                       serialize: Value -> string, n: string, v: Value)
    requires UniqueKeys(flags) && UniqueKeys(values)
    ensures (idSite, n) !in Saved(rows, idSite, Put(Put(flags, n, false), n, true),
                                  Unset(Put(values, n, v), n), serialize)
  {
    PutUnique(flags, n, false);
    PutUnique(Put(flags, n, false), n, true);
    PutFind(Put(flags, n, false), n, true, n);
    PutUnique(values, n, v);
    UnsetUnique(Put(values, n, v), n);
    UnsetFind(Put(values, n, v), n, n);
    SavedAt(rows, idSite, Put(Put(flags, n, false), n, true), Unset(Put(values, n, v), n), serialize, (idSite, n));
  }

  /**
   * The storage of one site's settings. `settingsValues` belongs to the
   * parent class, which adds a value on `setValue` and removes it on
   * `deleteValue`.
   */
  class Storage {
    const idSite: int
    const table: SiteSettingTable
    var toBeDeleted: seq<(string, bool)>
    var settingsValues: seq<(string, Value)>

    predicate Valid()
      reads this
    {
      UniqueKeys(toBeDeleted) && UniqueKeys(settingsValues)
    }

    constructor (table: SiteSettingTable, idSite: int, settingsValues: seq<(string, Value)>)
      requires UniqueKeys(settingsValues)
      ensures Valid()
      ensures this.table == table && this.idSite == idSite
      ensures toBeDeleted == [] && this.settingsValues == settingsValues
    {
      this.table := table;
      this.idSite := idSite;
      toBeDeleted := [];
      this.settingsValues := settingsValues;
    }

    /** `deleteSettingsFromStorage`: all of the site's rows go. */
    method DeleteSettingsFromStorage()
      modifies table
      ensures table.rows == WithoutSite(old(table.rows), idSite)
    {
      table.DeleteByIdsite(idSite);
    }

    /** `deleteValue`: the name is flagged for deletion and its value dropped. */
    method DeleteValue(name: string)
      requires Valid()
      modifies this
      ensures Valid()
      ensures toBeDeleted == Put(old(toBeDeleted), name, true)
      ensures settingsValues == Unset(old(settingsValues), name)
    {
      PutUnique(toBeDeleted, name, true);
      UnsetUnique(settingsValues, name);
      toBeDeleted := Put(toBeDeleted, name, true);
      settingsValues := Unset(settingsValues, name);
    }

    /** `setValue`: the name is no longer flagged for deletion and holds the value. */
    method SetValue(name: string, value: Value)
      requires Valid()
      modifies this
      ensures Valid()
      ensures toBeDeleted == Put(old(toBeDeleted), name, false)
      ensures settingsValues == Put(old(settingsValues), name, value)
    {
      PutUnique(toBeDeleted, name, false);
      PutUnique(settingsValues, name, value);
      toBeDeleted := Put(toBeDeleted, name, false);
      settingsValues := Put(settingsValues, name, value);
    }

    /**
     * `save`: deletes the names flagged true, forgets the flags, then
     * upserts every current value serialized.
     */
    method Save(serialize: Value -> string)
      requires Valid()
      modifies this, table
      ensures Valid()
      ensures table.rows == Saved(old(table.rows), idSite, old(toBeDeleted), settingsValues, serialize)
      ensures toBeDeleted == [] && settingsValues == old(settingsValues)
    {
      for j := 0 to |toBeDeleted|
        invariant toBeDeleted == old(toBeDeleted) && settingsValues == old(settingsValues)
        invariant table.rows == Deleted(old(table.rows), idSite, toBeDeleted[..j])
      {
        assert toBeDeleted[..j + 1][..j] == toBeDeleted[..j];
        var (name, delete) := toBeDeleted[j];
        if delete {
          table.DeleteByIdsiteAndSettingName(idSite, name);
        }
      }
      assert toBeDeleted[..|toBeDeleted|] == toBeDeleted;
      toBeDeleted := [];
      ghost var deleted := table.rows;
      for j := 0 to |settingsValues|
        invariant toBeDeleted == [] && settingsValues == old(settingsValues)
        invariant table.rows == Upserted(deleted, idSite, settingsValues[..j], serialize)
      {
        assert settingsValues[..j + 1][..j] == settingsValues[..j];
        var (name, value) := settingsValues[j];
        table.Upsert(idSite, name, serialize(value));
      }
      assert settingsValues[..|settingsValues|] == settingsValues;
    }

    /** `loadSettings`: the rows `getByIdsite` answered, as name => unserialized value. */
    method LoadSettings(settings: seq<(string, string)>, unserialize: string -> Value)
      returns (flat: seq<(string, Value)>)
      ensures flat == Flat(settings, unserialize)
    {
      flat := [];
      for j := 0 to |settings|
        invariant flat == Flat(settings[..j], unserialize)
      {
        assert settings[..j + 1][..j] == settings[..j];
        flat := Put(flat, settings[j].0, unserialize(settings[j].1));
      }
      assert settings[..|settings|] == settings;
    }
  }
}
