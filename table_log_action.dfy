/**
 * Looking up action ids in the `log_action` table (core/Tracker/TableLogAction.php):
 * the tracker's name/type requests resolved to existing ids or queued for
 * insertion, and the segment filter that turns an action segment value into
 * an id or a sub-select.
 *
 * The action type constants live in core/Tracker/Action.php, which is not
 * part of this model: the request side keeps the integer type the caller
 * passes, the segment side uses the symbolic `ActionType`. The database calls
 * of the log_action DAO are parameters.
 */
module TableLogAction {
  import opened Wrappers
  import opened Php
  import opened Assoc
  import Segments

  /** The action types a segment name can stand for. */
  datatype ActionType = PageUrl | PageTitle | SiteSearch | EventCategory | EventAction | EventName

  /** A requested action: `array(name, type)` or `array(name, type, urlPrefix)`. */
  datatype ActionEntry =
    | Pair(name: string, actionType: int)
    | Triple(name: string, actionType: int, urlPrefix: Option<int>)

  /** A row `queryIdsAction` returns. */
  datatype ActionRow = ActionRow(name: string, actionType: int, idaction: int)

  /** A row `add` inserts into `log_action`, with the id the database assigned. */
  datatype NewAction = NewAction(name: string, actionType: int, urlPrefix: Option<int>, idaction: int)

  /** The field name to id map the tracker gets back; `None` is PHP's `false`. */
  type ActionIds = seq<(string, Option<int>)>

  // ---------------------------------------------------------------------
  // loadIdsAction
  // ---------------------------------------------------------------------

  /** A two-element request gets a null URL prefix. */
  function Pad(e: ActionEntry): (r: ActionEntry)
    ensures r.Triple? && r.name == e.name && r.actionType == e.actionType
    ensures e.Triple? ==> r == e
    ensures e.Pair? ==> r.urlPrefix == None
  {
    if e.Pair? then Triple(e.name, e.actionType, None) else e
  }

  /** Pads every request in place, keeping the field names. */
  method PadEntries(entries: seq<(string, ActionEntry)>) returns (padded: seq<(string, ActionEntry)>)
    ensures |padded| == |entries|
    ensures forall i :: 0 <= i < |entries| ==> padded[i] == (entries[i].0, Pad(entries[i].1))
  {
    padded := entries;
    for i := 0 to |padded|
      invariant |padded| == |entries|
      invariant forall j :: 0 <= j < i ==> padded[j] == (entries[j].0, Pad(entries[j].1))
      invariant forall j :: i <= j < |entries| ==> padded[j] == entries[j]
    {
      if padded[i].1.Pair? {
        padded := padded[i := (padded[i].0, Triple(padded[i].1.name, padded[i].1.actionType, None))];
      }
    }
  }

  predicate MatchesRow(row: ActionRow, name: string, actionType: int) {
    row.name == name && row.actionType == actionType
  }

  /** The id of the last row with this name and type: later matches overwrite earlier ones. */
  function LastMatch(rows: seq<ActionRow>, name: string, actionType: int): (r: Option<int>)
    ensures r.None? <==> forall j :: 0 <= j < |rows| ==> !MatchesRow(rows[j], name, actionType)
    ensures r.Some? ==> exists j :: (0 <= j < |rows| && MatchesRow(rows[j], name, actionType) && rows[j].idaction == r.value
      && forall l :: j < l < |rows| ==> !MatchesRow(rows[l], name, actionType))
    decreases |rows|
  {
    if rows == [] then None
    else
      var last := rows[|rows| - 1];
      if MatchesRow(last, name, actionType) then Some(last.idaction)
      else
        var r := LastMatch(rows[..|rows| - 1], name, actionType);
        assert forall j :: 0 <= j < |rows| - 1 ==> rows[..|rows| - 1][j] == rows[j];
        r
  }

  /** How one request resolves against the queried rows. */
  datatype Resolution = EmptyName | Known(idaction: int) | ToInsert

  function Resolve(rows: seq<ActionRow>, e: ActionEntry): Resolution {
    if IsEmptyString(e.name) then EmptyName
    else match LastMatch(rows, e.name, e.actionType)
      case Some(id) => Known(id)
      case None => ToInsert
  }

  /** What `processIdsToInsert` returns: the ids found (or false), and the field names to insert. */
  function Processed(entries: seq<(string, ActionEntry)>, rows: seq<ActionRow>): (ActionIds, seq<string>)
    decreases |entries|
  {
    if entries == [] then ([], [])
    else
      var prev := Processed(entries[..|entries| - 1], rows);
      var fieldName := entries[|entries| - 1].0;
      match Resolve(rows, entries[|entries| - 1].1)
      case EmptyName => (Put(prev.0, fieldName, None), prev.1)
      case Known(id) => (Put(prev.0, fieldName, Some(id)), prev.1)
      case ToInsert => (prev.0, prev.1 + [fieldName])
  }

  lemma ProcessedSnoc(entries: seq<(string, ActionEntry)>, rows: seq<ActionRow>, i: nat)
    requires i < |entries|
    ensures Processed(entries[..i + 1], rows) ==
      var prev := Processed(entries[..i], rows);
      match Resolve(rows, entries[i].1)
      case EmptyName => (Put(prev.0, entries[i].0, None), prev.1)
      case Known(id) => (Put(prev.0, entries[i].0, Some(id)), prev.1)
      case ToInsert => (prev.0, prev.1 + [entries[i].0])
  {
    assert entries[..i + 1][..i] == entries[..i];
  }

  /**
   * For each request: an empty name maps to false; otherwise every row with
   * the same name and type assigns its id, so the last one wins; a name no
   * row matches is queued for insertion.
   */
  method ProcessIdsToInsert(entries: seq<(string, ActionEntry)>, actionIds: seq<ActionRow>)
    returns (fieldNameToActionId: ActionIds, fieldNamesToInsert: seq<string>)
    ensures (fieldNameToActionId, fieldNamesToInsert) == Processed(entries, actionIds)
  {
    fieldNameToActionId, fieldNamesToInsert := [], [];
    for i := 0 to |entries|
      invariant (fieldNameToActionId, fieldNamesToInsert) == Processed(entries[..i], actionIds)
    {
      ProcessedSnoc(entries, actionIds, i);
      var fieldName := entries[i].0;
      var name := entries[i].1.name;
      var actionType := entries[i].1.actionType;
      if IsEmptyString(name) {
        fieldNameToActionId := Put(fieldNameToActionId, fieldName, None);
      } else {
        var found := false;
        ghost var before := fieldNameToActionId;
        for j := 0 to |actionIds|
          invariant found == LastMatch(actionIds[..j], name, actionType).Some?
          invariant found ==> fieldNameToActionId == Put(before, fieldName, Some(LastMatch(actionIds[..j], name, actionType).value))
          invariant !found ==> fieldNameToActionId == before
        {
          assert actionIds[..j + 1][..j] == actionIds[..j];
          var row := actionIds[j];
          if name == row.name && actionType == row.actionType {
            if found {
              PutPut(before, fieldName, Some(LastMatch(actionIds[..j], name, actionType).value), Some(row.idaction));
            }
            found := true;
            fieldNameToActionId := Put(fieldNameToActionId, fieldName, Some(row.idaction));
          }
        }
        assert actionIds[..|actionIds|] == actionIds;
        if !found {
          fieldNamesToInsert := fieldNamesToInsert + [fieldName];
        }
      }
    }
    assert entries[..|entries|] == entries;
  }

  /**
   * The request under a field name; a missing key reads as PHP null, which
   * `list()` spreads as a null name, type and prefix (here "", 0 and `None`).
   */
  function EntryOf(entries: seq<(string, ActionEntry)>, fieldName: string): (e: ActionEntry)
    ensures HasKey(entries, fieldName) ==> Find(entries, fieldName) == Some(e)
  {
    match Find(entries, fieldName)
    case Some(e) => e
    case None => Triple("", 0, None)
  }

  function UrlPrefixOf(e: ActionEntry): Option<int> {
    if e.Triple? then e.urlPrefix else None
  }

  /**
   * What `insertNewIdsAction` produces: the new ids by field name and the
   * rows added, where the database hands out consecutive ids from `nextId`.
   */
  function Inserted(entries: seq<(string, ActionEntry)>, toInsert: seq<string>, nextId: int): (ActionIds, seq<NewAction>)
    decreases |toInsert|
  {
    if toInsert == [] then ([], [])
    else
      var prev := Inserted(entries, toInsert[..|toInsert| - 1], nextId);
      var fieldName := toInsert[|toInsert| - 1];
      var e := EntryOf(entries, fieldName);
      var id := nextId + |prev.1|;
      (Put(prev.0, fieldName, Some(id)), prev.1 + [RowFor(e, id)])
  }

  /** Adds one `log_action` row per queued field name and records its new id. */
  method InsertNewIdsAction(entries: seq<(string, ActionEntry)>, fieldNamesToInsert: seq<string>, nextId: int)
    returns (inserted: ActionIds, added: seq<NewAction>)
    ensures (inserted, added) == Inserted(entries, fieldNamesToInsert, nextId)
  {
    inserted, added := [], [];
    for i := 0 to |fieldNamesToInsert|
      invariant (inserted, added) == Inserted(entries, fieldNamesToInsert[..i], nextId)
    {
      assert fieldNamesToInsert[..i + 1][..i] == fieldNamesToInsert[..i];
      var fieldName := fieldNamesToInsert[i];
      var action := EntryOf(entries, fieldName);
      var actionId := nextId + |added|;
      added := added + [RowFor(action, actionId)];
      inserted := Put(inserted, fieldName, Some(actionId));
    }
    assert fieldNamesToInsert[..|fieldNamesToInsert|] == fieldNamesToInsert;
  }

  /** The row added for a queued request, with the id the database gave it. */
  function RowFor(e: ActionEntry, id: int): NewAction {
    NewAction(e.name, e.actionType, UrlPrefixOf(e), id)
  }

  lemma {:induction false} InsertedLength(entries: seq<(string, ActionEntry)>, toInsert: seq<string>, nextId: int)
    ensures |Inserted(entries, toInsert, nextId).1| == |toInsert|
    decreases |toInsert|
  {
    if toInsert != [] {
      InsertedLength(entries, toInsert[..|toInsert| - 1], nextId);
    }
  }

  /** The j-th queued field gets the j-th new id, and the j-th added row carries its request. */
  lemma {:induction false} InsertedRows(entries: seq<(string, ActionEntry)>, toInsert: seq<string>, nextId: int)
    ensures |Inserted(entries, toInsert, nextId).1| == |toInsert|
    ensures forall j :: 0 <= j < |toInsert| ==>
      Inserted(entries, toInsert, nextId).1[j] == RowFor(EntryOf(entries, toInsert[j]), nextId + j)
    decreases |toInsert|
  {
    if toInsert != [] {
      var n := |toInsert| - 1;
      var init := toInsert[..n];
      InsertedRows(entries, init, nextId);
      var prev := Inserted(entries, init, nextId).1;
      assert Inserted(entries, toInsert, nextId).1 == prev + [RowFor(EntryOf(entries, toInsert[n]), nextId + n)];
      forall j | 0 <= j < n
        ensures Inserted(entries, toInsert, nextId).1[j] == RowFor(EntryOf(entries, toInsert[j]), nextId + j)
      {
        assert init[j] == toInsert[j];
      }
    }
  }

  /** With distinct field names, the j-th queued field maps to the j-th new id. */
  lemma {:induction false} InsertedFindAt(entries: seq<(string, ActionEntry)>, toInsert: seq<string>, nextId: int, j: nat)
    requires forall a, b :: 0 <= a < b < |toInsert| ==> toInsert[a] != toInsert[b]
    requires j < |toInsert|
    ensures Find(Inserted(entries, toInsert, nextId).0, toInsert[j]) == Some(Some(nextId + j))
    decreases |toInsert|
  {
    var n := |toInsert| - 1;
    var init := toInsert[..n];
    InsertedLength(entries, init, nextId);
    var prev := Inserted(entries, init, nextId);
    assert Inserted(entries, toInsert, nextId).0 == Put(prev.0, toInsert[n], Some(nextId + n));
    PutFind(prev.0, toInsert[n], Some(nextId + n), toInsert[j]);
    if j < n {
      assert init[j] == toInsert[j];
      assert forall a, b :: 0 <= a < b < |init| ==> init[a] != init[b];
      InsertedFindAt(entries, init, nextId, j);
    }
  }

  /** A field that was not queued gets no new id. */
  lemma {:induction false} InsertedFindAbsent(entries: seq<(string, ActionEntry)>, toInsert: seq<string>, nextId: int, k: string)
    requires k !in toInsert
    ensures Find(Inserted(entries, toInsert, nextId).0, k) == None
    decreases |toInsert|
  {
    if toInsert != [] {
      var n := |toInsert| - 1;
      var init := toInsert[..n];
      assert k !in init by {
        assert forall i :: 0 <= i < |init| ==> init[i] == toInsert[i];
      }
      InsertedFindAbsent(entries, init, nextId, k);
      InsertedLength(entries, init, nextId);
      var prev := Inserted(entries, init, nextId);
      PutFind(prev.0, toInsert[n], Some(nextId + n), k);
    }
  }

  /** What a request under key `k` comes to in the map `processIdsToInsert` returns. */
  function FoundEntry(entries: seq<(string, ActionEntry)>, rows: seq<ActionRow>, k: string): Option<Option<int>> {
    if !HasKey(entries, k) then None else
      match Resolve(rows, EntryOf(entries, k))
      case EmptyName => Some(None)
      case Known(id) => Some(Some(id))
      case ToInsert => None
  }

  predicate Queued(entries: seq<(string, ActionEntry)>, rows: seq<ActionRow>, k: string) {
    HasKey(entries, k) && Resolve(rows, EntryOf(entries, k)) == ToInsert
  }

  /**
   * The result of `processIdsToInsert` key by key: false for an empty name,
   * the last matching id for a found one; a queued name is absent from the
   * map and present, once, in the insertion list.
   */
  lemma {:induction false} ProcessedFind(entries: seq<(string, ActionEntry)>, rows: seq<ActionRow>, k: string)
    requires UniqueKeys(entries)
    ensures Find(Processed(entries, rows).0, k) == FoundEntry(entries, rows, k)
    ensures k in Processed(entries, rows).1 <==> Queued(entries, rows, k)
    decreases |entries|
  {
    if entries != [] {
      var n := |entries| - 1;
      var init := entries[..n];
      var (f, e) := entries[n];
      UniqueInit(entries);
      ProcessedFind(init, rows, k);
      var (q0, ins0) := Processed(init, rows);
      assert entries == init + [entries[n]];
      FindConcat(init, [entries[n]], k);
      UniqueInit(entries);
      if k == f {
        assert Find([entries[n]], k) == Some(e);
      }
      match Resolve(rows, e)
      case EmptyName =>
        PutFind(q0, f, None, k);
      case Known(id) =>
        PutFind(q0, f, Some(id), k);
      case ToInsert =>
        ProcessedFind(init, rows, f);
    }
  }

  /** The fields `processIdsToInsert` queues are distinct keys of the requests. */
  lemma {:induction false} ProcessedQueue(entries: seq<(string, ActionEntry)>, rows: seq<ActionRow>)
    requires UniqueKeys(entries)
    ensures forall f :: f in Processed(entries, rows).1 ==> HasKey(entries, f)
    ensures var ins := Processed(entries, rows).1; forall a, b :: 0 <= a < b < |ins| ==> ins[a] != ins[b]
    decreases |entries|
  {
    if entries != [] {
      var n := |entries| - 1;
      var init := entries[..n];
      UniqueInit(entries);
      ProcessedQueue(init, rows);
      var ins0 := Processed(init, rows).1;
      forall f | f in ins0 ensures HasKey(entries, f) {
        var i :| 0 <= i < |init| && init[i].0 == f;
        assert entries[i].0 == f;
      }
      assert HasKey(entries, entries[n].0);
      if Resolve(rows, entries[n].1) == ToInsert {
        ProcessedFind(init, rows, entries[n].0);
        UniqueInit(entries);
      }
    }
  }

  /** How one request resolves after padding: padding changes neither the name nor the type. */
  lemma PadResolves(rows: seq<ActionRow>, e: ActionEntry)
    ensures Resolve(rows, Pad(e)) == Resolve(rows, e)
  {
  }

  /**
   * `loadIdsAction`: pads the requests, queries the rows for them, resolves
   * each against the rows, inserts the unresolved ones and returns the found
   * ids plus the inserted ones (PHP `+`). Every key of the request gets
   * false for an empty name, the last matching id when a row matches, and
   * otherwise the id of the row inserted for it; the rows inserted are
   * exactly one per unresolved key, with consecutive ids.
   */
  method LoadIdsAction(entries: seq<(string, ActionEntry)>, queryIdsAction: seq<(string, ActionEntry)> -> seq<ActionRow>, nextId: int)
    returns (queriedIds: ActionIds, added: seq<NewAction>)
    requires UniqueKeys(entries)
    ensures forall k :: !HasKey(entries, k) ==> Find(queriedIds, k) == None
    ensures forall k :: FoundEntry(entries, queryIdsAction(PadAll(entries)), k).Some? ==>
      Find(queriedIds, k) == FoundEntry(entries, queryIdsAction(PadAll(entries)), k)
    ensures forall k :: Queued(entries, queryIdsAction(PadAll(entries)), k) ==>
      exists j :: 0 <= j < |added| && added[j] == RowFor(Pad(EntryOf(entries, k)), nextId + j)
                  && Find(queriedIds, k) == Some(Some(nextId + j))
    ensures forall j :: 0 <= j < |added| ==>
      RowForQueued(entries, queryIdsAction(PadAll(entries)), added[j], nextId + j)
  {
    var padded := PadEntries(entries);
    assert padded == PadAll(entries);
    var actionIds := queryIdsAction(padded);
    var fieldNamesToInsert;
    queriedIds, fieldNamesToInsert := ProcessIdsToInsert(padded, actionIds);
    var insertedIds;
    insertedIds, added := InsertNewIdsAction(padded, fieldNamesToInsert, nextId);
    LoadIdsResult(entries, actionIds, nextId, queriedIds, fieldNamesToInsert, insertedIds, added);
    queriedIds := Union(queriedIds, insertedIds);
  }

  /** Every request padded, under its own field name. */
  function PadAll(entries: seq<(string, ActionEntry)>): (r: seq<(string, ActionEntry)>)
    ensures |r| == |entries|
    ensures forall i :: 0 <= i < |entries| ==> r[i] == (entries[i].0, Pad(entries[i].1))
  {
    if entries == [] then [] else [(entries[0].0, Pad(entries[0].1))] + PadAll(entries[1..])
  }

  lemma {:induction false} PadAllKeys(entries: seq<(string, ActionEntry)>)
    requires UniqueKeys(entries)
    ensures UniqueKeys(PadAll(entries))
    ensures forall k :: HasKey(PadAll(entries), k) == HasKey(entries, k)
    ensures forall k :: HasKey(entries, k) ==> EntryOf(PadAll(entries), k) == Pad(EntryOf(entries, k))
  {
    var p := PadAll(entries);
    forall k ensures HasKey(p, k) == HasKey(entries, k) {
      if HasKey(p, k) {
        var i :| 0 <= i < |p| && p[i].0 == k;
        assert entries[i].0 == k;
      }
      if HasKey(entries, k) {
        var i :| 0 <= i < |entries| && entries[i].0 == k;
        assert p[i].0 == k;
      }
    }
    forall k | HasKey(entries, k) ensures EntryOf(p, k) == Pad(EntryOf(entries, k)) {
      var i :| 0 <= i < |entries| && entries[i].0 == k;
      FindUnique(entries, i);
      FindUnique(p, i);
    }
  }

  /** Padding keeps each key's resolution. */
  lemma PaddedResolution(entries: seq<(string, ActionEntry)>, rows: seq<ActionRow>, k: string)
    requires UniqueKeys(entries)
    ensures FoundEntry(PadAll(entries), rows, k) == FoundEntry(entries, rows, k)
    ensures Queued(PadAll(entries), rows, k) == Queued(entries, rows, k)
    ensures HasKey(entries, k) ==> EntryOf(PadAll(entries), k) == Pad(EntryOf(entries, k))
  {
    PadAllKeys(entries);
    if HasKey(entries, k) {
      PadResolves(rows, EntryOf(entries, k));
    }
  }

  /** `row` is the row inserted, with id `id`, for some request that no queried row resolves. */
  ghost predicate RowForQueued(entries: seq<(string, ActionEntry)>, rows: seq<ActionRow>, row: NewAction, id: int) {
    exists k :: Queued(entries, rows, k) && row == RowFor(Pad(EntryOf(entries, k)), id)
  }

  /** What `loadIdsAction` returns for one key. */
  lemma LoadIdsKey(entries: seq<(string, ActionEntry)>, rows: seq<ActionRow>, nextId: int,
                   q: ActionIds, toInsert: seq<string>, ins: ActionIds, added: seq<NewAction>, k: string)
    requires UniqueKeys(entries)
    requires (q, toInsert) == Processed(PadAll(entries), rows)
    requires (ins, added) == Inserted(PadAll(entries), toInsert, nextId)
    ensures !HasKey(entries, k) ==> Find(Union(q, ins), k) == None
    ensures FoundEntry(entries, rows, k).Some? ==> Find(Union(q, ins), k) == FoundEntry(entries, rows, k)
    ensures Queued(entries, rows, k) ==>
      exists j :: 0 <= j < |added| && added[j] == RowFor(Pad(EntryOf(entries, k)), nextId + j)
                  && Find(Union(q, ins), k) == Some(Some(nextId + j))
  {
    var padded := PadAll(entries);
    PadAllKeys(entries);
    ProcessedQueue(padded, rows);
    ProcessedFind(padded, rows, k);
    PaddedResolution(entries, rows, k);
    UnionFind(q, ins, k);
    if k in toInsert {
      var j :| 0 <= j < |toInsert| && toInsert[j] == k;
      InsertedRows(padded, toInsert, nextId);
      InsertedFindAt(padded, toInsert, nextId, j);
      assert added[j] == RowFor(EntryOf(padded, k), nextId + j);
    } else {
      InsertedFindAbsent(padded, toInsert, nextId, k);
    }
  }

  /** Each row `loadIdsAction` inserts belongs to a queued key. */
  lemma LoadIdsRow(entries: seq<(string, ActionEntry)>, rows: seq<ActionRow>, nextId: int,
                   toInsert: seq<string>, added: seq<NewAction>, j: nat)
    requires UniqueKeys(entries)
    requires toInsert == Processed(PadAll(entries), rows).1
    requires added == Inserted(PadAll(entries), toInsert, nextId).1
    requires j < |added|
    ensures RowForQueued(entries, rows, added[j], nextId + j)
  {
    var padded := PadAll(entries);
    InsertedRows(padded, toInsert, nextId);
    var k := toInsert[j];
    PadAllKeys(entries);
    ProcessedFind(padded, rows, k);
    PaddedResolution(entries, rows, k);
    assert added[j] == RowFor(EntryOf(padded, k), nextId + j);
  }

  lemma LoadIdsResult(entries: seq<(string, ActionEntry)>, rows: seq<ActionRow>, nextId: int,
                      q: ActionIds, toInsert: seq<string>, ins: ActionIds, added: seq<NewAction>)
    requires UniqueKeys(entries)
    requires (q, toInsert) == Processed(PadAll(entries), rows)
    requires (ins, added) == Inserted(PadAll(entries), toInsert, nextId)
    ensures forall k :: !HasKey(entries, k) ==> Find(Union(q, ins), k) == None
    ensures forall k :: FoundEntry(entries, rows, k).Some? ==> Find(Union(q, ins), k) == FoundEntry(entries, rows, k)
    ensures forall k :: Queued(entries, rows, k) ==>
      exists j :: 0 <= j < |added| && added[j] == RowFor(Pad(EntryOf(entries, k)), nextId + j)
                  && Find(Union(q, ins), k) == Some(Some(nextId + j))
    ensures forall j :: 0 <= j < |added| ==>
      RowForQueued(entries, rows, added[j], nextId + j)
  {
    forall k
      ensures !HasKey(entries, k) ==> Find(Union(q, ins), k) == None
      ensures FoundEntry(entries, rows, k).Some? ==> Find(Union(q, ins), k) == FoundEntry(entries, rows, k)
      ensures Queued(entries, rows, k) ==>
        exists j :: 0 <= j < |added| && added[j] == RowFor(Pad(EntryOf(entries, k)), nextId + j)
                    && Find(Union(q, ins), k) == Some(Some(nextId + j))
    {
      LoadIdsKey(entries, rows, nextId, q, toInsert, ins, added, k);
    }
    forall j | 0 <= j < |added|
      ensures RowForQueued(entries, rows, added[j], nextId + j)
    {
      LoadIdsRow(entries, rows, nextId, toInsert, added, j);
    }
  }

  // ---------------------------------------------------------------------
  // Segments on actions
  // ---------------------------------------------------------------------

  const ExactMatchNames: seq<(string, ActionType)> :=
    [("eventAction", EventAction), ("eventCategory", EventCategory), ("eventName", EventName)]

  /**
   * `guessActionTypeFromSegment`: the three event segments by exact name,
   * then case-insensitive substring tests for `pageurl`, `pagetitle` and
   * `sitesearch`, in that order; anything else is refused.
   */
  function GuessActionType(segmentName: string): (r: Result<ActionType>)
    ensures Find(ExactMatchNames, segmentName).Some? ==> r == Ok(Find(ExactMatchNames, segmentName).value)
    ensures Find(ExactMatchNames, segmentName).None? ==>
      (r == Ok(PageUrl) <==> Contains(ToLower(segmentName), "pageurl"))
      && (r == Ok(PageTitle) <==> !Contains(ToLower(segmentName), "pageurl") && Contains(ToLower(segmentName), "pagetitle"))
      && (r == Ok(SiteSearch) <==> !Contains(ToLower(segmentName), "pageurl") && !Contains(ToLower(segmentName), "pagetitle")
                                   && Contains(ToLower(segmentName), "sitesearch"))
      && (r.Err? <==> !Contains(ToLower(segmentName), "pageurl") && !Contains(ToLower(segmentName), "pagetitle")
                      && !Contains(ToLower(segmentName), "sitesearch"))
  {
    match Find(ExactMatchNames, segmentName)
    case Some(t) => Ok(t)
    case None =>
      var lower := ToLower(segmentName);
      if Contains(lower, "pageurl") then Ok(PageUrl)
      else if Contains(lower, "pagetitle") then Ok(PageTitle)
      else if Contains(lower, "sitesearch") then Ok(SiteSearch)
      else Err("We cannot guess the action type from the segment " + segmentName + ".")
  }

  /** Drops `prefix` when `s` starts with it, ignoring ASCII case. */
  function DropPrefixIgnoringCase(s: string, prefix: string): (r: string)
    ensures StartsWith(ToLower(s), prefix) ==> r == s[|prefix|..]
    ensures !StartsWith(ToLower(s), prefix) ==> r == s
  {
    if StartsWith(ToLower(s), prefix) then s[|prefix|..] else s
  }

  /** `preg_replace('@^http[s]?://(www\.)?@i', '', $value)`. */
  function StripUrlScheme(value: string): (r: string)
  {
    var lower := ToLower(value);
    if StartsWith(lower, "http://") then DropPrefixIgnoringCase(value[7..], "www.")
    else if StartsWith(lower, "https://") then DropPrefixIgnoringCase(value[8..], "www.")
    else value
  }

  /**
   * Stripping removes only a leading scheme and `www.`: the result is a
   * suffix of the value, a value without an http(s) scheme is unchanged,
   * and at most 12 characters go.
   */
  lemma StripUrlSchemeSuffix(value: string)
    ensures var r := StripUrlScheme(value);
      |r| <= |value| && r == value[|value| - |r|..] && |value| - |r| <= 12
    ensures !StartsWith(ToLower(value), "http://") && !StartsWith(ToLower(value), "https://") ==> StripUrlScheme(value) == value
  {
    var lower := ToLower(value);
    if StartsWith(lower, "http://") {
      var rest := value[7..];
      assert rest == value[|value| - |rest|..];
    } else if StartsWith(lower, "https://") {
      var rest := value[8..];
      assert rest == value[|value| - |rest|..];
    }
  }

  /**
   * `getIdActionFromSegment`, the filter of the action segments: for `==`
   * and `!=` the id of the action with this name and type, or -100 when
   * there is none; for other match types a sub-select on `log_action` bound
   * to the value. Page URLs lose their scheme and `www.` first. `sanitize`
   * stands for the input sanitising round trip, `getIdaction` and
   * `sqlIdactionFromSegment` for the DAO's lookups.
   */
  function IdActionFromSegment(valueToMatch: string, matchType: Segments.MatchType, segmentName: string,
                               sanitize: string -> string,
                               getIdaction: (string, ActionType) -> Option<int>,
                               sqlIdactionFromSegment: (Segments.MatchType, ActionType) -> Result<string>)
    : (r: Result<Segments.SegmentValue>)
    ensures GuessActionType(segmentName).Err? ==> r == Err(GuessActionType(segmentName).error)
    ensures GuessActionType(segmentName).Ok? && (matchType == Segments.Compare("==") || matchType == Segments.Compare("!=")) ==>
      r.Ok? && r.value.IdAction?
      && (r.value.id == -100 <==> var id := getIdaction(ValueToLookUp(valueToMatch, segmentName, sanitize), GuessActionType(segmentName).value);
                                  id.None? || id.value == 0 || id.value == -100)
      && (var id := getIdaction(ValueToLookUp(valueToMatch, segmentName, sanitize), GuessActionType(segmentName).value);
          id.Some? && id.value != 0 ==> r.value.id == id.value)
    ensures GuessActionType(segmentName).Ok? && matchType != Segments.Compare("==") && matchType != Segments.Compare("!=") ==>
      r.Err? == sqlIdactionFromSegment(matchType, GuessActionType(segmentName).value).Err?
      && (r.Ok? ==> r.value == Segments.SubSql(sqlIdactionFromSegment(matchType, GuessActionType(segmentName).value).value,
                                              [Str(ValueToLookUp(valueToMatch, segmentName, sanitize))]))
  {
    match GuessActionType(segmentName)
    case Err(e) => Err(e)
    case Ok(actionType) =>
      var value := ValueToLookUp(valueToMatch, segmentName, sanitize);
      if matchType == Segments.Compare("==") || matchType == Segments.Compare("!=") then
        var idAction := getIdaction(value, actionType);
        Ok(Segments.IdAction(if idAction.None? || idAction.value == 0 then -100 else idAction.value))
      else
        match sqlIdactionFromSegment(matchType, actionType)
        case Err(e) => Err(e)
        case Ok(sql) => Ok(Segments.SubSql(sql, [Str(value)]))
  }

  /** The value looked up: scheme and `www.` stripped for page URLs, then sanitised. */
  function ValueToLookUp(valueToMatch: string, segmentName: string, sanitize: string -> string): string {
    var v := if GuessActionType(segmentName) == Ok(PageUrl) then StripUrlScheme(valueToMatch) else valueToMatch;
    sanitize(v)
  }
}
