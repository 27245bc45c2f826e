/**
 * The static helpers of the database facade (core/Db.php) that do more than
 * pass a query through: the chunked `segmented*` loops (shared, line for
 * line, by core/Db/DAO/Generic.php), the named-lock retry loop, the batched
 * delete, table locking and optimisation, and the cached lock-privilege
 * probe. Each database call is a parameter.
 */
module Db {
  import opened Wrappers
  import opened Php

  // ---------------------------------------------------------------------
  // Chunks
  // ---------------------------------------------------------------------

  /** The loop test: `$i <= $last` for a positive step, `$i >= $last` otherwise. */
  predicate InRange(i: int, last: int, step: int) {
    if step > 0 then i <= last else i >= last
  }

  /** A zero step loops for ever unless the range is empty from the start. */
  predicate Terminates(first: int, last: int, step: int) {
    step != 0 || !InRange(first, last, step)
  }

  function Distance(i: int, last: int, step: int): int {
    if step > 0 then last - i + 1 else if step < 0 then i - last + 1 else 0
  }

  /**
   * The chunk starts the loops visit: `first`, then one step further each
   * time, for as long as the loop test holds.
   */
  function ChunkStarts(first: int, last: int, step: int): (r: seq<int>)
    requires Terminates(first, last, step)
    ensures r != [] ==> r[0] == first
    ensures forall j :: 0 <= j < |r| ==> InRange(r[j], last, step)
    ensures !InRange(if r == [] then first else r[|r| - 1] + step, last, step)
    decreases Distance(first, last, step)
  {
    if !InRange(first, last, step) then [] else [first] + ChunkStarts(first + step, last, step)
  }

  /** The binds of the chunk starting at `i`: the caller's, then `i` and `i + step`. */
  function ChunkBind(params: seq<Value>, i: int, step: int): seq<Value> {
    params + [Int(i), Int(i + step)]
  }

  /** The binds of every chunk, in chunk order. */
  function ChunkBinds(starts: seq<int>, params: seq<Value>, step: int): seq<seq<Value>> {
    if starts == [] then [] else [ChunkBind(params, starts[0], step)] + ChunkBinds(starts[1..], params, step)
  }

  /** Exactly one query per chunk, the j-th bound to the j-th chunk's range. */
  lemma {:induction false} ChunkBindsAt(starts: seq<int>, params: seq<Value>, step: int, j: nat)
    requires j < |starts|
    ensures |ChunkBinds(starts, params, step)| == |starts|
    ensures ChunkBinds(starts, params, step)[j] == params + [Int(starts[j]), Int(starts[j] + step)]
  {
    if j > 0 {
      ChunkBindsAt(starts[1..], params, step, j - 1);
    } else {
      ChunkBindsLength(starts[1..], params, step);
    }
  }

  lemma {:induction false} ChunkBindsLength(starts: seq<int>, params: seq<Value>, step: int)
    ensures |ChunkBinds(starts, params, step)| == |starts|
  {
    if starts != [] {
      ChunkBindsLength(starts[1..], params, step);
    }
  }

  /** The first chunk value that is not false, or false. */
  function FetchFirst(starts: seq<int>, params: seq<Value>, step: int, fetchOne: seq<Value> -> Option<Value>): (r: Option<Value>)
    ensures r.None? <==> forall j :: 0 <= j < |starts| ==> fetchOne(ChunkBind(params, starts[j], step)).None?
    ensures r.Some? ==> exists j :: (0 <= j < |starts| && r == fetchOne(ChunkBind(params, starts[j], step))
      && forall l :: 0 <= l < j ==> fetchOne(ChunkBind(params, starts[l], step)).None?)
  {
    if starts == [] then None
    else
      match fetchOne(ChunkBind(params, starts[0], step))
      case Some(v) => Some(v)
      case None =>
        var r := FetchFirst(starts[1..], params, step, fetchOne);
        assert forall j :: 1 <= j < |starts| ==> starts[1..][j - 1] == starts[j];
        r
  }

  /** One fetched value per chunk. */
  function FetchEach(starts: seq<int>, params: seq<Value>, step: int, fetchOne: seq<Value> -> Option<Value>): seq<Option<Value>> {
    if starts == [] then [] else [fetchOne(ChunkBind(params, starts[0], step))] + FetchEach(starts[1..], params, step, fetchOne)
  }

  /** One value per chunk, the j-th fetched with the j-th chunk's binds. */
  lemma {:induction false} FetchEachAt(starts: seq<int>, params: seq<Value>, step: int, fetchOne: seq<Value> -> Option<Value>, j: nat)
    requires j < |starts|
    ensures |FetchEach(starts, params, step, fetchOne)| == |starts|
    ensures FetchEach(starts, params, step, fetchOne)[j] == fetchOne(ChunkBind(params, starts[j], step))
  {
    if j > 0 {
      FetchEachAt(starts[1..], params, step, fetchOne, j - 1);
    } else {
      FetchEachLength(starts[1..], params, step, fetchOne);
    }
  }

  lemma {:induction false} FetchEachLength(starts: seq<int>, params: seq<Value>, step: int, fetchOne: seq<Value> -> Option<Value>)
    ensures |FetchEach(starts, params, step, fetchOne)| == |starts|
  {
    if starts != [] {
      FetchEachLength(starts[1..], params, step, fetchOne);
    }
  }

  /** Every chunk's rows, concatenated in chunk order. */
  function FetchConcat(starts: seq<int>, params: seq<Value>, step: int, fetchAll: seq<Value> -> seq<Value>): seq<Value> {
    if starts == [] then [] else fetchAll(ChunkBind(params, starts[0], step)) + FetchConcat(starts[1..], params, step, fetchAll)
  }

  /** Fetching two runs of chunks gives the rows of the first run, then those of the second. */
  lemma {:induction false} FetchConcatAppend(a: seq<int>, b: seq<int>, params: seq<Value>, step: int, fetchAll: seq<Value> -> seq<Value>)
    ensures FetchConcat(a + b, params, step, fetchAll) == FetchConcat(a, params, step, fetchAll) + FetchConcat(b, params, step, fetchAll)
  {
    if a == [] {
      assert a + b == b;
    } else {
      assert (a + b)[0] == a[0];
      assert (a + b)[1..] == a[1..] + b;
      FetchConcatAppend(a[1..], b, params, step, fetchAll);
    }
  }

  /** Each chunk's rows sit in the result at the offset of the rows fetched before it. */
  lemma {:induction false} FetchConcatChunk(starts: seq<int>, params: seq<Value>, step: int, fetchAll: seq<Value> -> seq<Value>, j: nat)
    requires j < |starts|
    ensures var before := FetchConcat(starts[..j], params, step, fetchAll);
      var rows := fetchAll(ChunkBind(params, starts[j], step));
      |before| + |rows| <= |FetchConcat(starts, params, step, fetchAll)|
      && FetchConcat(starts, params, step, fetchAll)[|before|..|before| + |rows|] == rows
  {
    assert starts == starts[..j] + [starts[j]] + starts[j + 1..];
    FetchConcatAppend(starts[..j] + [starts[j]], starts[j + 1..], params, step, fetchAll);
    FetchConcatAppend(starts[..j], [starts[j]], params, step, fetchAll);
    assert FetchConcat([starts[j]], params, step, fetchAll) == fetchAll(ChunkBind(params, starts[j], step));
  }

  /** One chunk step of the loops: the range from `i` is `i` followed by the range from `i + step`. */
  lemma ChunkStartsStep(i: int, last: int, step: int)
    requires Terminates(i, last, step) && InRange(i, last, step)
    ensures Terminates(i + step, last, step)
    ensures ChunkStarts(i, last, step) == [i] + ChunkStarts(i + step, last, step)
  {
  }

  lemma ChunkBindsStep(i: int, last: int, step: int, params: seq<Value>)
    requires Terminates(i, last, step) && InRange(i, last, step)
    ensures Terminates(i + step, last, step)
    ensures ChunkBinds(ChunkStarts(i, last, step), params, step) ==
      [ChunkBind(params, i, step)] + ChunkBinds(ChunkStarts(i + step, last, step), params, step)
  {
    ChunkStartsStep(i, last, step);
    assert ChunkStarts(i, last, step)[1..] == ChunkStarts(i + step, last, step);
  }

  lemma FetchEachStep(i: int, last: int, step: int, params: seq<Value>, fetchOne: seq<Value> -> Option<Value>)
    requires Terminates(i, last, step) && InRange(i, last, step)
    ensures Terminates(i + step, last, step)
    ensures FetchEach(ChunkStarts(i, last, step), params, step, fetchOne) ==
      [fetchOne(ChunkBind(params, i, step))] + FetchEach(ChunkStarts(i + step, last, step), params, step, fetchOne)
  {
    ChunkStartsStep(i, last, step);
    assert ChunkStarts(i, last, step)[1..] == ChunkStarts(i + step, last, step);
  }

  lemma FetchConcatStep(i: int, last: int, step: int, params: seq<Value>, fetchAll: seq<Value> -> seq<Value>)
    requires Terminates(i, last, step) && InRange(i, last, step)
    ensures Terminates(i + step, last, step)
    ensures FetchConcat(ChunkStarts(i, last, step), params, step, fetchAll) ==
      fetchAll(ChunkBind(params, i, step)) + FetchConcat(ChunkStarts(i + step, last, step), params, step, fetchAll)
  {
    ChunkStartsStep(i, last, step);
    assert ChunkStarts(i, last, step)[1..] == ChunkStarts(i + step, last, step);
  }

  lemma ChunkBindsLoopStep(first: int, last: int, step: int, params: seq<Value>, issued: seq<seq<Value>>, i: int)
    requires Terminates(first, last, step) && Terminates(i, last, step) && InRange(i, last, step)
    requires ChunkBinds(ChunkStarts(first, last, step), params, step) ==
      issued + ChunkBinds(ChunkStarts(i, last, step), params, step)
    ensures Terminates(i + step, last, step)
    ensures ChunkBinds(ChunkStarts(first, last, step), params, step) ==
      (issued + [ChunkBind(params, i, step)]) + ChunkBinds(ChunkStarts(i + step, last, step), params, step)
  {
    ChunkBindsStep(i, last, step, params);
  }

  /**
   * `segmentedQuery`: one query per chunk; the result is the binds of the
   * queries issued, in order.
   */
  method SegmentedQuery(first: int, last: int, step: int, params: seq<Value>) returns (issued: seq<seq<Value>>)
    requires Terminates(first, last, step)
    ensures issued == ChunkBinds(ChunkStarts(first, last, step), params, step)
  {
    issued := [];
    var i := first;
    while InRange(i, last, step)
      invariant Terminates(i, last, step)
      invariant ChunkBinds(ChunkStarts(first, last, step), params, step) == issued + ChunkBinds(ChunkStarts(i, last, step), params, step)
      decreases Distance(i, last, step)
    {
      ChunkBindsLoopStep(first, last, step, params, issued, i);
      var currentParams := ChunkBind(params, i, step);
      issued := issued + [currentParams];
      i := i + step;
    }
  }

  /** `segmentedFetchFirst`: stops at the first chunk whose value is not false. */
  method SegmentedFetchFirst(first: int, last: int, step: int, params: seq<Value>, fetchOne: seq<Value> -> Option<Value>)
    returns (result: Option<Value>)
    requires Terminates(first, last, step)
    ensures result == FetchFirst(ChunkStarts(first, last, step), params, step, fetchOne)
  {
    result := None;
    var i := first;
    while result == None && InRange(i, last, step)
      invariant Terminates(i, last, step)
      invariant FetchFirst(ChunkStarts(first, last, step), params, step, fetchOne) ==
        if result.Some? then result else FetchFirst(ChunkStarts(i, last, step), params, step, fetchOne)
      decreases Distance(i, last, step)
    {
      ChunkStartsStep(i, last, step);
      assert ChunkStarts(i, last, step)[1..] == ChunkStarts(i + step, last, step);
      result := fetchOne(ChunkBind(params, i, step));
      i := i + step;
    }
  }

  lemma FetchEachLoopStep(first: int, last: int, step: int, params: seq<Value>, fetchOne: seq<Value> -> Option<Value>,
                          result: seq<Option<Value>>, i: int)
    requires Terminates(first, last, step) && Terminates(i, last, step) && InRange(i, last, step)
    requires FetchEach(ChunkStarts(first, last, step), params, step, fetchOne) ==
      result + FetchEach(ChunkStarts(i, last, step), params, step, fetchOne)
    ensures Terminates(i + step, last, step)
    ensures FetchEach(ChunkStarts(first, last, step), params, step, fetchOne) ==
      (result + [fetchOne(ChunkBind(params, i, step))]) + FetchEach(ChunkStarts(i + step, last, step), params, step, fetchOne)
  {
    FetchEachStep(i, last, step, params, fetchOne);
  }

  lemma FetchConcatLoopStep(first: int, last: int, step: int, params: seq<Value>, fetchAll: seq<Value> -> seq<Value>,
                            result: seq<Value>, i: int)
    requires Terminates(first, last, step) && Terminates(i, last, step) && InRange(i, last, step)
    requires FetchConcat(ChunkStarts(first, last, step), params, step, fetchAll) ==
      result + FetchConcat(ChunkStarts(i, last, step), params, step, fetchAll)
    ensures Terminates(i + step, last, step)
    ensures FetchConcat(ChunkStarts(first, last, step), params, step, fetchAll) ==
      (result + fetchAll(ChunkBind(params, i, step))) + FetchConcat(ChunkStarts(i + step, last, step), params, step, fetchAll)
  {
    FetchConcatStep(i, last, step, params, fetchAll);
  }

  /** `segmentedFetchOne`: one value per chunk, in chunk order. */
  method SegmentedFetchOne(first: int, last: int, step: int, params: seq<Value>, fetchOne: seq<Value> -> Option<Value>)
    returns (result: seq<Option<Value>>)
    requires Terminates(first, last, step)
    ensures result == FetchEach(ChunkStarts(first, last, step), params, step, fetchOne)
  {
    result := [];
    var i := first;
    while InRange(i, last, step)
      invariant Terminates(i, last, step)
      invariant FetchEach(ChunkStarts(first, last, step), params, step, fetchOne) ==
        result + FetchEach(ChunkStarts(i, last, step), params, step, fetchOne)
      decreases Distance(i, last, step)
    {
      FetchEachLoopStep(first, last, step, params, fetchOne, result, i);
      result := result + [fetchOne(ChunkBind(params, i, step))];
      i := i + step;
    }
  }

  /** `segmentedFetchAll`: the rows of every chunk, concatenated in chunk order. */
  method SegmentedFetchAll(first: int, last: int, step: int, params: seq<Value>, fetchAll: seq<Value> -> seq<Value>)
    returns (result: seq<Value>)
    requires Terminates(first, last, step)
    ensures result == FetchConcat(ChunkStarts(first, last, step), params, step, fetchAll)
  {
    result := [];
    var i := first;
    while InRange(i, last, step)
      invariant Terminates(i, last, step)
      invariant FetchConcat(ChunkStarts(first, last, step), params, step, fetchAll) ==
        result + FetchConcat(ChunkStarts(i, last, step), params, step, fetchAll)
      decreases Distance(i, last, step)
    {
      FetchConcatLoopStep(first, last, step, params, fetchAll, result, i);
      var currentParams := ChunkBind(params, i, step);
      result := result + fetchAll(currentParams);
      i := i + step;
    }
  }

  /** An ascending range of 0..20 in steps of 10 has chunks at 0, 10 and 20; a descending one mirrors it. */
  lemma ChunkStartsExample()
    ensures ChunkStarts(0, 20, 10) == [0, 10, 20]
    ensures ChunkStarts(20, 0, -10) == [20, 10, 0]
    ensures ChunkStarts(5, 0, 10) == []
  {
    assert ChunkStarts(30, 20, 10) == [];
    assert ChunkStarts(20, 20, 10) == [20];
    assert ChunkStarts(10, 20, 10) == [10, 20];
    assert ChunkStarts(-10, 0, -10) == [];
    assert ChunkStarts(0, 0, -10) == [0];
    assert ChunkStarts(10, 0, -10) == [10, 0];
  }

  // ---------------------------------------------------------------------
  // Named lock
  // ---------------------------------------------------------------------

  /**
   * `getDbLock`: tries `GET_LOCK` up to `maxRetries` times; `granted(k)` is
   * the answer to the k-th attempt. Stops at the first success.
   */
  method GetDbLock(lockName: string, maxRetries: int, granted: nat -> bool) returns (obtained: bool, attempts: nat)
    ensures obtained <==> exists k: nat :: k < maxRetries && granted(k)
    ensures obtained ==> 1 <= attempts <= maxRetries && granted(attempts - 1)
    ensures forall k: nat :: k < attempts - 1 ==> !granted(k)
    ensures !obtained ==> attempts == if maxRetries > 0 then maxRetries else 0
  {
    var retries := maxRetries;
    attempts := 0;
    while retries > 0
      invariant retries == maxRetries - attempts || (maxRetries <= 0 && attempts == 0)
      invariant retries >= 0 || attempts == 0
      invariant forall k: nat :: k < attempts ==> !granted(k)
      decreases retries
    {
      if granted(attempts) {
        attempts := attempts + 1;
        return true, attempts;
      }
      retries := retries - 1;
      attempts := attempts + 1;
    }
    obtained := false;
  }

  // ---------------------------------------------------------------------
  // Batched delete
  // ---------------------------------------------------------------------

  /** The DELETE statement `deleteAllRows` repeats. */
  function DeleteAllRowsSql(table: string, where: string, orderBy: string, maxRowsPerQuery: int): string {
    var orderByClause := if !IsEmptyString(orderBy) then "ORDER BY " + orderBy else "";
    "DELETE FROM " + table + " " + where + " " + orderByClause + " LIMIT " + IntToString(maxRowsPerQuery)
  }

  /** The number of DELETE passes for `remaining` matching rows: the loop goes on while a pass is full. */
  function Passes(remaining: nat, limit: nat): nat
    requires limit > 0
    decreases remaining
  {
    if remaining < limit then 1 else 1 + Passes(remaining - limit, limit)
  }

  /** One pass more than the number of full batches: `Passes - 1` is the quotient of `remaining` by `limit`. */
  lemma {:induction false} PassesCount(remaining: nat, limit: nat)
    requires limit > 0
    ensures (Passes(remaining, limit) - 1) * limit <= remaining < Passes(remaining, limit) * limit
    decreases remaining
  {
    var p := Passes(remaining, limit);
    if remaining >= limit {
      PassesCount(remaining - limit, limit);
      assert p == 1 + Passes(remaining - limit, limit);
      assert p * limit == (p - 1) * limit + limit;
      assert (p - 1) * limit == (p - 2) * limit + limit;
    } else {
      assert p == 1;
    }
  }

  /**
   * `deleteAllRows`: a DELETE with `LIMIT maxRowsPerQuery` is repeated while
   * a pass deletes at least that many rows. The table is modelled by the
   * number of rows the WHERE clause matches; a pass deletes up to the limit.
   * All of them go, and the number of passes is one more than the number of
   * full batches.
   */
  method DeleteAllRows(table: string, where: string, orderBy: string, maxRowsPerQuery: int, matching: nat)
    returns (sql: string, totalRowsDeleted: nat, passes: nat)
    requires maxRowsPerQuery > 0
    ensures sql == DeleteAllRowsSql(table, where, orderBy, maxRowsPerQuery)
    ensures totalRowsDeleted == matching
    ensures passes == Passes(matching, maxRowsPerQuery)
  {
    sql := DeleteAllRowsSql(table, where, orderBy, maxRowsPerQuery);
    var remaining: nat := matching;
    totalRowsDeleted := 0;
    passes := 0;
    var rowsDeleted: nat;
    while true
      invariant totalRowsDeleted + remaining == matching
      invariant passes + Passes(remaining, maxRowsPerQuery) == Passes(matching, maxRowsPerQuery)
      decreases remaining
    {
      rowsDeleted := if remaining < maxRowsPerQuery then remaining else maxRowsPerQuery;
      remaining := remaining - rowsDeleted;
      totalRowsDeleted := totalRowsDeleted + rowsDeleted;
      passes := passes + 1;
      if rowsDeleted < maxRowsPerQuery {
        return;
      }
    }
  }

  // ---------------------------------------------------------------------
  // Table locks and optimisation
  // ---------------------------------------------------------------------

  /** A table argument: one name or a list of names. */
  datatype Tables = One(name: string) | Many(names: seq<string>)

  function TableList(t: Tables): (r: seq<string>)
    ensures t.One? ==> r == [t.name]
    ensures t.Many? ==> r == t.names
  {
    match t
    case One(name) => [name]
    case Many(names) => names
  }

  /** The lock expressions: every table to write, then every table to read. */
  function LockExprs(write: seq<string>, read: seq<string>): (r: seq<string>)
    ensures |r| == |write| + |read|
    ensures forall j :: 0 <= j < |write| ==> r[j] == write[j] + " WRITE"
    ensures forall j :: 0 <= j < |read| ==> r[|write| + j] == read[j] + " READ"
  {
    if write != [] then [write[0] + " WRITE"] + LockExprs(write[1..], read)
    else if read != [] then [read[0] + " READ"] + LockExprs([], read[1..])
    else []
  }

  /** `lockTables`: wraps single names, then locks the tables to write before the tables to read. */
  method LockTables(tablesToRead: Tables, tablesToWrite: Tables) returns (sql: string)
    ensures sql == "LOCK TABLES " + Join(LockExprs(TableList(tablesToWrite), TableList(tablesToRead)), ", ")
  {
    var read := TableList(tablesToRead);
    var write := TableList(tablesToWrite);
    var lockExprs: seq<string> := [];
    for j := 0 to |write|
      invariant lockExprs == LockExprs(write[..j], [])
    {
      WriteLocksSnoc(write, j);
      lockExprs := lockExprs + [write[j] + " WRITE"];
    }
    assert write[..|write|] == write;
    for j := 0 to |read|
      invariant lockExprs == LockExprs(write, read[..j])
    {
      ReadLocksSnoc(write, read, j);
      lockExprs := lockExprs + [read[j] + " READ"];
    }
    assert read[..|read|] == read;
    sql := "LOCK TABLES " + Join(lockExprs, ", ");
  }

  lemma WriteLocksSnoc(write: seq<string>, j: nat)
    requires j < |write|
    ensures LockExprs(write[..j + 1], []) == LockExprs(write[..j], []) + [write[j] + " WRITE"]
  {
    var a := LockExprs(write[..j + 1], []);
    var b := LockExprs(write[..j], []) + [write[j] + " WRITE"];
    assert |a| == |b|;
    forall k | 0 <= k < |a| ensures a[k] == b[k] {
      if k < j {
        assert write[..j + 1][k] == write[..j][k];
      }
    }
  }

  lemma ReadLocksSnoc(write: seq<string>, read: seq<string>, j: nat)
    requires j < |read|
    ensures LockExprs(write, read[..j + 1]) == LockExprs(write, read[..j]) + [read[j] + " READ"]
  {
    var a := LockExprs(write, read[..j + 1]);
    var b := LockExprs(write, read[..j]) + [read[j] + " READ"];
    assert |a| == |b|;
    forall k | 0 <= k < |a| ensures a[k] == b[k] {
      if k < |write| {
      } else if k < |write| + j {
        assert read[..j + 1][k - |write|] == read[..j][k - |write|];
      }
    }
  }

  /** A row of `SHOW TABLE STATUS`. */
  datatype TableStatus = TableStatus(name: string, engine: string)

  /** What `optimizeTables` does: nothing when disabled, false when nothing qualifies, or the OPTIMIZE statement. */
  datatype OptimizeResult = Disabled | NothingToOptimize | Optimize(sql: string)

  predicate Optimizable(row: TableStatus, tables: seq<string>) {
    ToLower(row.engine) != "innodb" && row.name in tables
  }

  /** The requested tables that are not InnoDB, in `SHOW TABLE STATUS` order. */
  function NonInnoDbTables(status: seq<TableStatus>, tables: seq<string>): (r: seq<string>)
    ensures forall t :: t in r <==> exists k :: 0 <= k < |status| && status[k].name == t && Optimizable(status[k], tables)
    decreases |status|
  {
    if status == [] then []
    else
      var init := NonInnoDbTables(status[..|status| - 1], tables);
      var row := status[|status| - 1];
      assert forall k :: 0 <= k < |status| - 1 ==> status[..|status| - 1][k] == status[k];
      if Optimizable(row, tables) then init + [row.name] else init
  }

  predicate TablesEmpty(t: Tables) {
    match t
    case One(name) => IsEmptyString(name)
    case Many(names) => names == []
  }

  /**
   * `optimizeTables`: nothing unless optimisation is enabled in the
   * configuration; false for no tables or when every requested table is
   * InnoDB; otherwise one OPTIMIZE TABLE over the rest.
   */
  method OptimizeTables(tables: Tables, optimizeEnabled: bool, status: seq<TableStatus>) returns (r: OptimizeResult)
    ensures !optimizeEnabled ==> r == Disabled
    ensures optimizeEnabled && TablesEmpty(tables) ==> r == NothingToOptimize
    ensures optimizeEnabled && !TablesEmpty(tables) ==>
      r == if NonInnoDbTables(status, TableList(tables)) == [] then NothingToOptimize
           else Optimize("OPTIMIZE TABLE " + Join(NonInnoDbTables(status, TableList(tables)), ","))
  {
    if !optimizeEnabled {
      return Disabled;
    }
    if TablesEmpty(tables) {
      return NothingToOptimize;
    }
    var list := TableList(tables);
    var nonInnoDbTables: seq<string> := [];
    for k := 0 to |status|
      invariant nonInnoDbTables == NonInnoDbTables(status[..k], list)
    {
      assert status[..k + 1][..k] == status[..k];
      var row := status[k];
      if ToLower(row.engine) != "innodb" && row.name in list {
        nonInnoDbTables := nonInnoDbTables + [row.name];
      }
    }
    assert status[..|status|] == status;
    if nonInnoDbTables == [] {
      return NothingToOptimize;
    }
    r := Optimize("OPTIMIZE TABLE " + Join(nonInnoDbTables, ","));
  }

  // ---------------------------------------------------------------------
  // Lock privilege
  // ---------------------------------------------------------------------

  /** The static cache of `isLockPrivilegeGranted` (null until first asked). */
  class LockPrivilegeCache {
    var lockPrivilegeGranted: Option<bool>

    constructor()
      ensures lockPrivilegeGranted == None
    {
      lockPrivilegeGranted := None;
    }

    /**
     * `isLockPrivilegeGranted`: asks the database (`probe`) only while
     * nothing is cached, and answers from the cache afterwards.
     */
    method IsLockPrivilegeGranted(probe: bool) returns (granted: bool)
      modifies this
      ensures old(lockPrivilegeGranted).Some? ==> granted == old(lockPrivilegeGranted).value && lockPrivilegeGranted == old(lockPrivilegeGranted)
      ensures old(lockPrivilegeGranted).None? ==> granted == probe
      ensures lockPrivilegeGranted == Some(granted)
    {
      if lockPrivilegeGranted.None? {
        lockPrivilegeGranted := Some(probe);
      }
      granted := lockPrivilegeGranted.value;
    }
  }

  /** Once cached, the answer no longer depends on the database: a second call returns the first call's answer. */
  method LockPrivilegeAskedTwice(probe1: bool, probe2: bool) returns (first: bool, second: bool)
    ensures first == probe1 && second == probe1
  {
    var cache := new LockPrivilegeCache();
    first := cache.IsLockPrivilegeGranted(probe1);
    second := cache.IsLockPrivilegeGranted(probe2);
  }
}
