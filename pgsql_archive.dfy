/**
 * The PostgreSQL archive DAO. It inherits the MySQL one and changes how
 * shards are created (indexes are separate statements), how rows are
 * inserted (plain multi-row INSERT statements of at most 100 rows, and a
 * temporary-table detour to ignore duplicates), and how blob values are
 * stored: a `bytea` column cannot hold the `\` of namespaced class names
 * inside serialized data, so `Piwik\A\B` is stored as `Piwik_A_B` and
 * turned back when read.
 */
module PgsqlArchive {
  import opened Wrappers
  import opened Php
  import opened ArchiveDb
  import MysqlArchive
  import Periods

  // ---------------------------------------------------------------------
  // Class names inside serialized values
  // ---------------------------------------------------------------------

  /**
   * The matches of the pattern `<lead>[^"]*"`, scanning left to right,
   * each without its closing quote (that is, after `trim($f, '"')`).
   */
  function ClassRuns(s: string, lead: string): (runs: seq<string>)
    ensures forall i :: 0 <= i < |runs| ==> StartsWith(runs[i], lead) && '"' !in runs[i][|lead|..]
    decreases |s|
  {
    var j := IndexOf(s, lead);
    if j < 0 then []
    else
      var rest := s[j + |lead|..];
      var k := CharIndex(rest, '"');
      if k == |rest| then []
      else
        assert (lead + rest[..k])[|lead|..] == rest[..k];
        [lead + rest[..k]] + ClassRuns(rest[k + 1..], lead)
  }

  /** `str_replace($find, $replace, $s)` with arrays: each pair in turn, over the whole string. */
  function ReplaceEach(s: string, find: seq<string>, replace: seq<string>): string
    requires |find| == |replace|
    decreases |find|
  {
    if find == [] then s else ReplaceEach(ReplaceAll(s, find[0], replace[0]), find[1..], replace[1..])
  }

  /** Each run with one character replaced by another. */
  function ReplaceCharInAll(runs: seq<string>, a: char, b: char): (r: seq<string>)
    ensures |r| == |runs|
    ensures forall i :: 0 <= i < |runs| ==> r[i] == ReplaceChar(runs[i], a, b)
  {
    seq(|runs|, i requires 0 <= i < |runs| => ReplaceChar(runs[i], a, b))
  }

  /** `namespaceToUnderscore`: in every `Piwik\...` run up to a quote, `\` becomes `_`. */
  function NamespaceToUnderscore(s: string): string {
    var find := ClassRuns(s, "Piwik\\");
    ReplaceEach(s, find, ReplaceCharInAll(find, '\\', '_'))
  }

  /**
   * `underscoreToNamespace` as evidently intended: in every `Piwik_...` run
   * up to a quote, `_` becomes `\`, and the quote stays, mirroring
   * `NamespaceToUnderscore`. The code as written drops the quote
   * (`UnderscoreToNamespaceAsWritten`).
   */
  function UnderscoreToNamespace(s: string): string {
    var find := ClassRuns(s, "Piwik_");
    ReplaceEach(s, find, ReplaceCharInAll(find, '_', '\\'))
  }

  /** Text without a `Piwik\` run is stored as it is. */
  lemma NamespaceToUnderscoreWithoutRun(s: string)
    requires !Contains(s, "Piwik\\")
    ensures NamespaceToUnderscore(s) == s
  {
  }

  /** Text without a `Piwik_` run is read back as it is. */
  lemma UnderscoreToNamespaceWithoutRun(s: string)
    requires !Contains(s, "Piwik_")
    ensures UnderscoreToNamespace(s) == s
  {
  }

  /** A string free of `P` holds no run. */
  lemma NoRunWithoutP(s: string, lead: string)
    requires lead != [] && lead[0] == 'P' && 'P' !in s
    ensures !Contains(s, lead)
  {
    forall j: nat | j <= |s| ensures !OccursAt(s, lead, j) {
      if j + |lead| <= |s| {
        assert s[j..j + |lead|][0] == s[j];
      }
    }
  }

  /** The first occurrence of `lead` in `pre + lead + x` is right after `pre` when `pre` lacks its first character. */
  lemma IndexAfterPrefix(pre: string, lead: string, x: string)
    requires lead != [] && lead[0] !in pre
    ensures IndexOf(pre + lead + x, lead) == |pre|
  {
    var s := pre + lead + x;
    assert s[|pre|..|pre| + |lead|] == lead;
    assert OccursAt(s, lead, |pre|);
    forall j: nat | j < |pre| ensures !OccursAt(s, lead, j) {
      assert s[j] == pre[j];
      assert s[j..j + |lead|][0] == s[j];
    }
  }

  /** Text without `lead` holds no run. */
  lemma ClassRunsNone(s: string, lead: string)
    requires !Contains(s, lead)
    ensures ClassRuns(s, lead) == []
  {
  }

  /** A closing quote right after the body ends the run there. */
  lemma ClassRunsFirst(s: string, lead: string, pre: string, body: string, post: string)
    requires lead != [] && lead[0] !in pre && '"' !in body
    requires s == pre + lead + (body + ("\"" + post))
    ensures ClassRuns(s, lead) == [lead + body] + ClassRuns(post, lead)
  {
    IndexAfterPrefix(pre, lead, body + ("\"" + post));
    var rest := s[|pre| + |lead|..];
    assert rest == body + ("\"" + post);
    CharIndexOfPart(body, "\"" + post, '"');
    assert rest[..|body|] == body;
    assert rest[|body| + 1..] == post;
  }

  /** The runs of `pre + lead + body + '"' + post` when `pre` and `post` hold no `P`. */
  lemma SingleRun(pre: string, lead: string, body: string, post: string)
    requires lead != [] && lead[0] == 'P' && 'P' !in pre && 'P' !in post && '"' !in body
    ensures ClassRuns(pre + lead + body + "\"" + post, lead) == [lead + body]
  {
    FirstRunOf(pre, lead, body, post);
    NoRunWithoutP(post, lead);
    ClassRunsNone(post, lead);
    assert [lead + body] + [] == [lead + body];
  }

  lemma FirstRunOf(pre: string, lead: string, body: string, post: string)
    requires lead != [] && lead[0] !in pre && '"' !in body
    ensures ClassRuns(pre + lead + body + "\"" + post, lead) == [lead + body] + ClassRuns(post, lead)
  {
    var s := pre + lead + body + "\"" + post;
    assert s == pre + lead + (body + ("\"" + post));
    ClassRunsFirst(s, lead, pre, body, post);
  }

  /** `str_replace` with a single pair is `ReplaceAll`. */
  lemma ReplaceEachSingle(s: string, f: string, g: string)
    ensures ReplaceEach(s, [f], [g]) == ReplaceAll(s, f, g)
  {
    assert [f][1..] == [] && [g][1..] == [];
  }

  lemma ReplaceCharAppend(x: string, y: string, a: char, b: char)
    ensures ReplaceChar(x + y, a, b) == ReplaceChar(x, a, b) + ReplaceChar(y, a, b)
  {
  }

  /** The single run found is the single pair `str_replace` receives. */
  lemma SingleRunPair(pre: string, lead: string, body: string, post: string, a: char, b: char)
    requires lead != [] && lead[0] == 'P' && 'P' !in pre && 'P' !in post && '"' !in body
    ensures var s := pre + lead + body + "\"" + post;
            var find := ClassRuns(s, lead);
            ReplaceEach(s, find, ReplaceCharInAll(find, a, b)) == ReplaceAll(s, lead + body, ReplaceChar(lead + body, a, b))
  {
    var s := pre + lead + body + "\"" + post;
    SingleRun(pre, lead, body, post);
    assert ReplaceCharInAll([lead + body], a, b) == [ReplaceChar(lead + body, a, b)];
    ReplaceEachSingle(s, lead + body, ReplaceChar(lead + body, a, b));
  }

  /** Replacing the one occurrence of a run that starts with `P` in text whose other parts hold no `P`. */
  lemma ReplaceRunOnce(pre: string, f: string, post: string, g: string)
    requires f != [] && f[0] == 'P' && 'P' !in pre && 'P' !in post
    ensures ReplaceAll(pre + f + "\"" + post, f, g) == pre + g + "\"" + post
  {
    NoRunWithoutP("\"" + post, f);
    assert pre + f + "\"" + post == pre + f + ("\"" + post);
    ReplaceAllSingle(pre, f, "\"" + post, g);
    assert pre + g + ("\"" + post) == pre + g + "\"" + post;
  }

  /**
   * The rewrite both directions share: the one run `lead + body` of the
   * value gets `a` replaced by `b`, and nothing else changes.
   */
  lemma RewriteSingleRun(pre: string, lead: string, body: string, post: string, a: char, b: char)
    requires lead != [] && lead[0] == 'P' && 'P' !in pre && 'P' !in post && '"' !in body
    ensures var s := pre + lead + body + "\"" + post;
            var find := ClassRuns(s, lead);
            ReplaceEach(s, find, ReplaceCharInAll(find, a, b))
              == pre + ReplaceChar(lead, a, b) + ReplaceChar(body, a, b) + "\"" + post
  {
    SingleRunPair(pre, lead, body, post, a, b);
    RunReplaced(pre, lead, body, post, ReplaceChar(lead + body, a, b));
    ReplaceCharAround(pre, lead, body, post, a, b);
  }

  lemma RunReplaced(pre: string, lead: string, body: string, post: string, g: string)
    requires lead != [] && lead[0] == 'P' && 'P' !in pre && 'P' !in post
    ensures ReplaceAll(pre + lead + body + "\"" + post, lead + body, g) == pre + g + "\"" + post
  {
    assert pre + lead + body + "\"" + post == pre + (lead + body) + "\"" + post;
    ReplaceRunOnce(pre, lead + body, post, g);
  }

  lemma ReplaceCharAround(pre: string, lead: string, body: string, post: string, a: char, b: char)
    ensures pre + ReplaceChar(lead + body, a, b) + "\"" + post
            == pre + ReplaceChar(lead, a, b) + ReplaceChar(body, a, b) + "\"" + post
  {
    ReplaceCharAppend(lead, body, a, b);
    var x := ReplaceChar(lead, a, b);
    var y := ReplaceChar(body, a, b);
    assert pre + (x + y) + "\"" + post == pre + x + y + "\"" + post;
  }

  /**
   * A value holding one namespaced class name `Piwik\<body>` whose body has
   * no quote, surrounded by text without a `P`, is stored with underscores
   * in the class name.
   */
  lemma NamespaceStored(pre: string, body: string, post: string)
    requires 'P' !in pre && 'P' !in post && '"' !in body
    ensures NamespaceToUnderscore(pre + "Piwik\\" + body + "\"" + post)
            == pre + "Piwik_" + ReplaceChar(body, '\\', '_') + "\"" + post
  {
    RewriteSingleRun(pre, "Piwik\\", body, post, '\\', '_');
    assert ReplaceChar("Piwik\\", '\\', '_') == "Piwik_";
  }

  /** The stored form `Piwik_<body>` of a class name whose body has no quote is read back with `\` for each `_`. */
  lemma NamespaceRead(pre: string, body: string, post: string)
    requires 'P' !in pre && 'P' !in post && '"' !in body
    ensures UnderscoreToNamespace(pre + "Piwik_" + body + "\"" + post)
            == pre + "Piwik\\" + ReplaceChar(body, '_', '\\') + "\"" + post
  {
    RewriteSingleRun(pre, "Piwik_", body, post, '_', '\\');
    assert ReplaceChar("Piwik_", '_', '\\') == "Piwik\\";
  }

  /**
   * A value holding one namespaced class name `Piwik\<body>` whose parts
   * have no `_` and no quote, surrounded by text without a `P`, is read back
   * exactly as it was stored.
   */
  lemma NamespaceRoundTrip(pre: string, body: string, post: string)
    requires 'P' !in pre && 'P' !in post && '"' !in body && '_' !in body
    ensures UnderscoreToNamespace(NamespaceToUnderscore(pre + "Piwik\\" + body + "\"" + post))
            == pre + "Piwik\\" + body + "\"" + post
  {
    var stored := ReplaceChar(body, '\\', '_');
    NamespaceStored(pre, body, post);
    assert '"' !in stored;
    NamespaceRead(pre, stored, post);
    assert ReplaceChar(stored, '_', '\\') == body;
  }

  /** Each run followed by the closing quote the pattern matched. */
  function WithClosingQuote(runs: seq<string>): (r: seq<string>)
    ensures |r| == |runs|
    ensures forall i :: 0 <= i < |runs| ==> r[i] == runs[i] + "\""
  {
    seq(|runs|, i requires 0 <= i < |runs| => runs[i] + "\"")
  }

  /**
   * `underscoreToNamespace` as written: its loop runs over `$find` by
   * value, so the trim reaches only the copy and each searched match keeps
   * its closing quote, while the replacement, built from the trimmed copy,
   * has none. `UnderscoreToNamespace` is the evidently intended rewrite
   * that the rest of this model uses.
   */
  function UnderscoreToNamespaceAsWritten(s: string): string {
    var runs := ClassRuns(s, "Piwik_");
    ReplaceEach(s, WithClosingQuote(runs), ReplaceCharInAll(runs, '_', '\\'))
  }

  /** As written, the stored form `Piwik_<body>"` is read back as `Piwik\<body>`: the closing quote is lost. */
  lemma NamespaceReadAsWritten(pre: string, body: string, post: string)
    requires 'P' !in pre && 'P' !in post && '"' !in body
    ensures UnderscoreToNamespaceAsWritten(pre + "Piwik_" + body + "\"" + post)
            == pre + "Piwik\\" + ReplaceChar(body, '_', '\\') + post
  {
    RewriteQuotedRun(pre, "Piwik_", body, post, '_', '\\');
    StoredLeadRead();
  }

  /** The stored lead `Piwik_` reads back as `Piwik\\`. */
  lemma StoredLeadRead()
    ensures ReplaceChar("Piwik_", '_', '\\') == "Piwik\\"
  {
    assert ReplaceChar("Piwik_", '_', '\\') == ['P', 'i', 'w', 'i', 'k', '\\'];
  }

  /** As written, the one run `lead + body` is rewritten and its closing quote dropped; nothing else changes. */
  lemma RewriteQuotedRun(pre: string, lead: string, body: string, post: string, a: char, b: char)
    requires lead != [] && lead[0] == 'P' && 'P' !in pre && 'P' !in post && '"' !in body
    ensures var s := pre + lead + body + "\"" + post;
            var runs := ClassRuns(s, lead);
            ReplaceEach(s, WithClosingQuote(runs), ReplaceCharInAll(runs, a, b))
              == pre + ReplaceChar(lead, a, b) + ReplaceChar(body, a, b) + post
  {
    var s := pre + lead + body + "\"" + post;
    var g := ReplaceChar(lead + body, a, b);
    var x, y := ReplaceChar(lead, a, b), ReplaceChar(body, a, b);
    assert g == x + y by { ReplaceCharAppend(lead, body, a, b); }
    assert ReplaceAll(s, lead + body + "\"", g) == pre + g + post by {
      QuotedRunReplaced(pre, lead, body, post, g);
    }
    assert pre + (x + y) + post == pre + x + y + post;
    QuotedRunPair(pre, lead, body, post, a, b);
  }

  /** As written, the single run found, with its quote, is the single search string `str_replace` receives. */
  lemma QuotedRunPair(pre: string, lead: string, body: string, post: string, a: char, b: char)
    requires lead != [] && lead[0] == 'P' && 'P' !in pre && 'P' !in post && '"' !in body
    ensures var s := pre + lead + body + "\"" + post;
            var runs := ClassRuns(s, lead);
            ReplaceEach(s, WithClosingQuote(runs), ReplaceCharInAll(runs, a, b))
              == ReplaceAll(s, lead + body + "\"", ReplaceChar(lead + body, a, b))
  {
    var s := pre + lead + body + "\"" + post;
    SingleRun(pre, lead, body, post);
    assert WithClosingQuote([lead + body]) == [lead + body + "\""];
    assert ReplaceCharInAll([lead + body], a, b) == [ReplaceChar(lead + body, a, b)];
    ReplaceEachSingle(s, lead + body + "\"", ReplaceChar(lead + body, a, b));
  }

  /** Replacing the one quoted run drops it together with its quote. */
  lemma QuotedRunReplaced(pre: string, lead: string, body: string, post: string, g: string)
    requires lead != [] && lead[0] == 'P' && 'P' !in pre && 'P' !in post
    ensures ReplaceAll(pre + lead + body + "\"" + post, lead + body + "\"", g) == pre + g + post
  {
    var f := lead + body + "\"";
    assert pre + lead + body + "\"" + post == pre + f + post;
    NoRunWithoutP(post, f);
    ReplaceAllSingle(pre, f, post, g);
  }

  /**
   * As written, the round trip fails: a value holding a namespaced class
   * name comes back one character short, without the quote that closes the
   * class name in the serialized data, where the intended rewrite restores
   * it exactly (`NamespaceRoundTrip`).
   */
  lemma NamespaceRoundTripAsWritten(pre: string, body: string, post: string)
    requires 'P' !in pre && 'P' !in post && '"' !in body && '_' !in body
    ensures var stored := pre + "Piwik\\" + body + "\"" + post;
            UnderscoreToNamespaceAsWritten(NamespaceToUnderscore(stored)) == pre + "Piwik\\" + body + post
            && |UnderscoreToNamespaceAsWritten(NamespaceToUnderscore(stored))| == |stored| - 1
            && UnderscoreToNamespace(NamespaceToUnderscore(stored)) == stored
  {
    var stored := ReplaceChar(body, '\\', '_');
    NamespaceStored(pre, body, post);
    NamespaceReadAsWritten(pre, stored, post);
    assert ReplaceChar(stored, '_', '\\') == body;
    NamespaceRoundTrip(pre, body, post);
  }

  /**
   * The serialized row `O:19:"Piwik\DataTable\Row":0:{}` is stored as
   * `O:19:"Piwik_DataTable_Row":0:{}` and, as written, read back as
   * `O:19:"Piwik\DataTable\Row:0:{}`, which `unserialize` refuses.
   */
  lemma SerializedRowAsWritten()
    ensures var pre, body, post := "O:19:\"", "DataTable\\Row", ":0:{}";
            UnderscoreToNamespaceAsWritten(NamespaceToUnderscore(pre + "Piwik\\" + body + "\"" + post))
            == pre + "Piwik\\" + body + post
  {
    NamespaceRoundTripAsWritten("O:19:\"", "DataTable\\Row", ":0:{}");
  }



  // ---------------------------------------------------------------------
  // Batched inserts
  // ---------------------------------------------------------------------

  /** The most rows one INSERT statement of `insertBatch` carries. */
  const BatchSize := 100

  /** The rows split into consecutive statements of `BatchSize` rows, the last holding the remainder. */
  function ChunksOf(rows: seq<Record>): seq<seq<Record>>
    decreases |rows|
  {
    if rows == [] then []
    else if |rows| <= BatchSize then [rows]
    else [rows[..BatchSize]] + ChunksOf(rows[BatchSize..])
  }

  function Flatten(chunks: seq<seq<Record>>): seq<Record> {
    if chunks == [] then [] else chunks[0] + Flatten(chunks[1..])
  }

  /** Every row is sent exactly once and in order. */
  lemma {:induction false} ChunksOfFlatten(rows: seq<Record>)
    ensures Flatten(ChunksOf(rows)) == rows
    decreases |rows|
  {
    if |rows| > BatchSize {
      ChunksOfFlatten(rows[BatchSize..]);
      assert rows == rows[..BatchSize] + rows[BatchSize..];
    } else if rows != [] {
      assert Flatten([rows]) == rows + Flatten([]);
    }
  }

  /** Each statement holds between 1 and `BatchSize` rows, and all but the last exactly `BatchSize`. */
  lemma {:induction false} ChunksOfSizes(rows: seq<Record>)
    ensures var cs := ChunksOf(rows);
            (forall i :: 0 <= i < |cs| ==> 0 < |cs[i]| <= BatchSize)
            && (forall i :: 0 <= i < |cs| - 1 ==> |cs[i]| == BatchSize)
    decreases |rows|
  {
    if |rows| > BatchSize {
      ChunksOfSizes(rows[BatchSize..]);
      var cs := ChunksOf(rows);
      assert cs[1..] == ChunksOf(rows[BatchSize..]);
      forall i | 1 <= i < |cs| ensures cs[i] == ChunksOf(rows[BatchSize..])[i - 1] { }
    }
  }

  lemma {:induction false} ChunksOfAppend(a: seq<Record>, b: seq<Record>)
    requires |a| % BatchSize == 0
    ensures ChunksOf(a + b) == ChunksOf(a) + ChunksOf(b)
    decreases |a|
  {
    if a == [] {
      assert a + b == b;
    } else if b == [] {
      assert a + b == a;
    } else {
      FullBatchesStep(|a|);
      var head, rest := a[..BatchSize], a[BatchSize..];
      assert ChunksOf(a + b) == [head] + ChunksOf(rest + b) by {
        assert (a + b)[..BatchSize] == head && (a + b)[BatchSize..] == rest + b;
      }
      if rest == [] {
        assert ChunksOf(a) == [head] && rest + b == b;
      } else {
        ChunksOfAppend(rest, b);
      }
    }
  }

  /** A positive whole number of full statements holds at least one, and one fewer is still whole. */
  lemma FullBatchesStep(n: nat)
    requires n > 0 && n % BatchSize == 0
    ensures n >= BatchSize && (n - BatchSize) % BatchSize == 0
  {
  }

  /** No two rows share a key. */
  predicate DistinctKeys(recs: seq<Record>) {
    forall i, j :: 0 <= i < j < |recs| ==> recs[i].key != recs[j].key
  }

  /** No two rows share a key, and none collides with the table. */
  predicate FreshKeys(shard: Shard, recs: seq<Record>) {
    (forall i :: 0 <= i < |recs| ==> recs[i].key !in shard) && DistinctKeys(recs)
  }

  /** One plain multi-row INSERT: a key already present, or repeated, fails the whole statement. */
  function InsertStatement(shard: Shard, recs: seq<Record>): Result<Shard> {
    if FreshKeys(shard, recs) then Ok(InsertIgnoreAll(shard, recs))
    else Err("duplicate key value violates unique constraint")
  }

  /** The statements executed in order; the first failure stops the batch, earlier statements stay. */
  function RunStatements(shard: Shard, chunks: seq<seq<Record>>): (Shard, Outcome)
    decreases |chunks|
  {
    if chunks == [] then (shard, Success)
    else
      var (s, r) := RunStatements(shard, chunks[..|chunks| - 1]);
      if r.Failure? then (s, r)
      else match InsertStatement(s, chunks[|chunks| - 1])
        case Ok(s2) => (s2, Success)
        case Err(e) => (s, Failure(e))
  }

  lemma {:induction false} RunStatementsStopped(shard: Shard, a: seq<seq<Record>>, b: seq<seq<Record>>)
    requires RunStatements(shard, a).1.Failure?
    ensures RunStatements(shard, a + b) == RunStatements(shard, a)
    decreases |b|
  {
    if b == [] {
      assert a + b == a;
    } else {
      assert (a + b)[..|a + b| - 1] == a + b[..|b| - 1];
      RunStatementsStopped(shard, a, b[..|b| - 1]);
    }
  }

  /** The batch as the PostgreSQL DAO sends it to a table with a primary key. */
  function InsertBatchResult(shard: Shard, rows: seq<Record>): (Shard, Outcome) {
    RunStatements(shard, ChunksOf(rows))
  }

  /** With keys fresh for the table and distinct, the batch stores every row. */
  lemma InsertBatchOfFreshKeys(shard: Shard, rows: seq<Record>)
    requires FreshKeys(shard, rows)
    ensures InsertBatchResult(shard, rows) == (InsertIgnoreAll(shard, rows), Success)
  {
    ChunksOfFlatten(rows);
    RunFreshChunks(shard, ChunksOf(rows));
  }

  lemma FreshKeysSplit(shard: Shard, a: seq<Record>, b: seq<Record>)
    requires FreshKeys(shard, a + b)
    ensures FreshKeys(shard, a) && FreshKeys(InsertIgnoreAll(shard, a), b)
  {
    assert forall i :: 0 <= i < |a| ==> a[i] == (a + b)[i];
    assert forall i :: 0 <= i < |b| ==> b[i] == (a + b)[|a| + i];
    forall i | 0 <= i < |b| ensures b[i].key !in InsertIgnoreAll(shard, a) {
      InsertIgnoreAllKeys(shard, a, b[i].key);
      forall j | 0 <= j < |a| ensures a[j].key != b[i].key {
        assert a[j] == (a + b)[j] && b[i] == (a + b)[|a| + i];
      }
    }
  }

  lemma {:induction false} RunFreshChunks(shard: Shard, chunks: seq<seq<Record>>)
    requires FreshKeys(shard, Flatten(chunks))
    ensures RunStatements(shard, chunks) == (InsertIgnoreAll(shard, Flatten(chunks)), Success)
    decreases |chunks|
  {
    if chunks != [] {
      var init := chunks[..|chunks| - 1];
      var last := chunks[|chunks| - 1];
      assert chunks == init + [last];
      FlattenSnoc(init, last);
      FreshKeysSplit(shard, Flatten(init), last);
      RunFreshChunks(shard, init);
      InsertIgnoreAllAppend(shard, Flatten(init), last);
    }
  }

  lemma {:induction false} FlattenSnoc(init: seq<seq<Record>>, last: seq<Record>)
    ensures Flatten(init + [last]) == Flatten(init) + last
    decreases |init|
  {
    if init == [] {
      assert init + [last] == [last];
      assert Flatten([last]) == last + Flatten([]);
    } else {
      assert (init + [last])[1..] == init[1..] + [last];
      FlattenSnoc(init[1..], last);
    }
  }

  lemma {:induction false} InsertIgnoreAllAppend(shard: Shard, a: seq<Record>, b: seq<Record>)
    ensures InsertIgnoreAll(shard, a + b) == InsertIgnoreAll(InsertIgnoreAll(shard, a), b)
    decreases |a|
  {
    if a == [] {
      assert a + b == b;
    } else {
      assert (a + b)[0] == a[0] && (a + b)[1..] == a[1..] + b;
      InsertIgnoreAllAppend(InsertIgnore(shard, a[0]), a[1..], b);
    }
  }

  /**
   * The loop of `insertBatch`: a statement for every 100 buffered rows, then
   * one for a non-empty remainder; the first failing statement stops it.
   */
  method SendBatches(shard0: Shard, rows: seq<Record>) returns (shard: Shard, r: Outcome)
    ensures (shard, r) == InsertBatchResult(shard0, rows)
  {
    shard := shard0;
    var parts: seq<Record> := [];
    var count := 0;
    var i := 0;
    ghost var flushed: nat := 0;
    while i < |rows|
      invariant 0 <= count < BatchSize && i == flushed + count <= |rows|
      invariant flushed % BatchSize == 0
      invariant parts == rows[flushed..i]
      invariant RunStatements(shard0, ChunksOf(rows[..flushed])) == (shard, Success)
    {
      assert rows[flushed..i + 1] == parts + [rows[i]];
      parts := parts + [rows[i]];
      count := count + 1;
      i := i + 1;
      if count == BatchSize {
        var sent;
        shard, sent := SendFull(shard0, rows, flushed, shard, parts);
        if sent.Failure? {
          return shard, sent;
        }
        count := 0;
        parts := [];
        flushed := i;
      }
    }
    shard, r := SendRest(shard0, rows, flushed, shard, parts);
  }

  /** The end of `insertBatch`'s loop: a statement for a non-empty remainder. */
  method SendRest(ghost shard0: Shard, ghost rows: seq<Record>, ghost flushed: nat, shard: Shard, parts: seq<Record>)
    returns (next: Shard, r: Outcome)
    requires flushed % BatchSize == 0 && flushed <= |rows| && |parts| < BatchSize
    requires parts == rows[flushed..]
    requires RunStatements(shard0, ChunksOf(rows[..flushed])) == (shard, Success)
    ensures (next, r) == InsertBatchResult(shard0, rows)
  {
    assert rows == rows[..flushed] + parts;
    if parts != [] {
      RunChunksSnoc(shard0, rows[..flushed], parts);
      match InsertStatement(shard, parts) {
        case Err(e) =>
          return shard, Failure(e);
        case Ok(s2) =>
          return s2, Success;
      }
    } else {
      assert rows[..flushed] == rows;
      return shard, Success;
    }
  }

  /**
   * One full buffer of `insertBatch`'s loop sent as a statement: the
   * batch so far extended by it, or, when it fails, the whole batch's
   * outcome.
   */
  method SendFull(ghost shard0: Shard, ghost rows: seq<Record>, ghost flushed: nat, shard: Shard, parts: seq<Record>)
    returns (next: Shard, r: Outcome)
    requires flushed % BatchSize == 0 && flushed + BatchSize <= |rows|
    requires parts == rows[flushed..flushed + BatchSize]
    requires RunStatements(shard0, ChunksOf(rows[..flushed])) == (shard, Success)
    ensures (flushed + BatchSize) % BatchSize == 0
    ensures r.Success? ==> RunStatements(shard0, ChunksOf(rows[..flushed + BatchSize])) == (next, Success)
    ensures r.Failure? ==> (next, r) == InsertBatchResult(shard0, rows)
  {
    FlushStep(shard0, rows, flushed, shard);
    match InsertStatement(shard, parts) {
      case Err(e) =>
        FailedBatchStops(shard0, rows, flushed + BatchSize);
        return shard, Failure(e);
      case Ok(s2) =>
        return s2, Success;
    }
  }

  /** A PostgreSQL archive DAO; `isBlobTable` remembers the kind of the table last prepared. */
  class PgsqlArchiveDao {
    var isBlobTable: bool
    const db: ArchiveTables

    constructor (db: ArchiveTables)
      ensures this.db == db && !isBlobTable
    {
      this.db := db;
      isBlobTable := false;
    }

    /**
     * `insertBatch`: rows are buffered and a statement is sent each time 100
     * rows are buffered; a final statement sends a non-empty remainder.
     */
    method InsertBatch(table: string, rows: seq<Record>) returns (r: Outcome)
      modifies db
      ensures db.locks == old(db.locks)
      ensures var res := InsertBatchResult(old(db.ShardOf(table)), rows);
              r == res.1 && db.tables == old(db.tables)[table := res.0]
    {
      var shard;
      shard, r := SendBatches(db.ShardOf(table), rows);
      db.tables := db.tables[table := shard];
    }

    /**
     * `insertIgnoreBatch`. Blob values are stored as `bin2db` of the value
     * with class names rewritten. With duplicates ignored, the rows go to a
     * temporary copy of the table without its primary key and from there,
     * in one statement, those whose key is not in the table yet; otherwise
     * they go straight to the table through `insertBatch`.
     */
    method InsertIgnoreBatch(table: string, rows: seq<Record>, ignoreWhenDuplicate: bool, bin2db: Value -> string)
      returns (r: Outcome)
      modifies db
      ensures db.locks == old(db.locks)
      ensures var stored := if IsBlob(table) then BlobRecords(rows, bin2db) else rows;
              var res := if ignoreWhenDuplicate then InsertNewKeys(old(db.ShardOf(table)), stored)
                         else InsertBatchResult(old(db.ShardOf(table)), stored);
              r == res.1 && db.tables == old(db.tables)[table := res.0]
    {
      var values := rows;
      if IsBlob(table) {
        var k := 0;
        values := [];
        while k < |rows|
          invariant 0 <= k <= |rows|
          invariant values == BlobRecords(rows[..k], bin2db)
        {
          assert rows[..k + 1][..k] == rows[..k];
          values := values + [BlobRecord(rows[k], bin2db)];
          k := k + 1;
        }
        assert rows[..k] == rows;
      }
      if ignoreWhenDuplicate {
        var shard := db.ShardOf(table);
        var res := InsertNewKeys(shard, values);
        db.tables := db.tables[table := res.0];
        r := res.1;
      } else {
        r := InsertBatch(table, values);
      }
    }

    /**
     * `insertRecord`: one row through the adapter's insert-ignore; in a blob
     * table a value that is set is stored with its class names rewritten.
     */
    method InsertRecord(table: string, rec: Record, bin2db: Value -> string)
      modifies db
      ensures db.locks == old(db.locks)
      ensures var stored := if IsBlob(table) && !rec.row.value.Null? then BlobRecord(rec, bin2db) else rec;
              db.tables == old(db.tables)[table := InsertIgnore(old(db.ShardOf(table)), stored)]
    {
      var stored := rec;
      if IsBlob(table) && !rec.row.value.Null? {
        stored := BlobRecord(rec, bin2db);
      }
      MysqlArchive.InsertRecord(db, table, stored);
    }
  }

  /**
   * `loadNextIdarchive`: the MySQL statement with `COALESCE` for `IFNULL`,
   * under a lock whose name is a number derived from the table's name.
   */
  method LoadNextIdarchive(db: ArchiveTables, table: string, locked: string, idsite: int, date: string, lockGranted: bool)
    returns (r: Outcome)
    modifies db
    ensures r.Success? <==> lockGranted
    ensures db.locks == old(db.locks)
    ensures !lockGranted ==> db.tables == old(db.tables)
    ensures lockGranted ==>
      var before := old(db.ShardOf(table));
      var id := MaxIdarchive(before.Keys) + 1;
      (forall k :: k in before ==> k.idarchive < id)
      && db.tables == old(db.tables)[table := before[Key(id, locked) := MysqlArchive.ClaimRow(idsite, date)]]
  {
    r := MysqlArchive.LoadNextIdarchive(db, table, locked, idsite, date, lockGranted);
  }

  /** Sending one more statement after a run of full ones. */
  lemma RunChunksSnoc(shard0: Shard, done: seq<Record>, parts: seq<Record>)
    requires |done| % BatchSize == 0 && 0 < |parts| <= BatchSize
    ensures var (s, out) := RunStatements(shard0, ChunksOf(done));
            RunStatements(shard0, ChunksOf(done + parts)) ==
              if out.Failure? then (s, out)
              else match InsertStatement(s, parts)
                case Ok(s2) => (s2, Success)
                case Err(e) => (s, Failure(e))
  {
    ChunksOfAppend(done, parts);
    assert ChunksOf(parts) == [parts];
    var cs := ChunksOf(done) + [parts];
    assert cs[..|cs| - 1] == ChunksOf(done);
  }

  /** Sending a full statement of the next `BatchSize` rows. */
  lemma FlushStep(shard0: Shard, rows: seq<Record>, j: nat, shard: Shard)
    requires j % BatchSize == 0 && j + BatchSize <= |rows|
    requires RunStatements(shard0, ChunksOf(rows[..j])) == (shard, Success)
    ensures (j + BatchSize) % BatchSize == 0
    ensures RunStatements(shard0, ChunksOf(rows[..j + BatchSize])) ==
              match InsertStatement(shard, rows[j..j + BatchSize])
                case Ok(s2) => (s2, Success)
                case Err(e) => (shard, Failure(e))
  {
    var head, next := rows[..j], rows[j..j + BatchSize];
    calc {
      RunStatements(shard0, ChunksOf(rows[..j + BatchSize]));
    == { assert rows[..j + BatchSize] == head + next; }
      RunStatements(shard0, ChunksOf(head + next));
    == { RunChunksSnoc(shard0, head, next); }
      match InsertStatement(shard, next)
        case Ok(s2) => (s2, Success)
        case Err(e) => (shard, Failure(e));
    }
  }

  lemma {:induction false} FailedBatchStops(shard0: Shard, rows: seq<Record>, i: nat)
    requires i <= |rows| && i % BatchSize == 0
    requires RunStatements(shard0, ChunksOf(rows[..i])).1.Failure?
    ensures InsertBatchResult(shard0, rows) == RunStatements(shard0, ChunksOf(rows[..i]))
  {
    assert rows == rows[..i] + rows[i..];
    ChunksOfAppend(rows[..i], rows[i..]);
    RunStatementsStopped(shard0, ChunksOf(rows[..i]), ChunksOf(rows[i..]));
  }

  /** A blob row as stored: `namespaceToUnderscore(bin2db(value))`. */
  function BlobRecord(rec: Record, bin2db: Value -> string): Record {
    rec.(row := rec.row.(value := Str(NamespaceToUnderscore(bin2db(rec.row.value)))))
  }

  function BlobRecords(rows: seq<Record>, bin2db: Value -> string): (r: seq<Record>)
    ensures |r| == |rows|
    ensures forall i :: 0 <= i < |rows| ==> r[i] == BlobRecord(rows[i], bin2db)
    decreases |rows|
  {
    if rows == [] then [] else BlobRecords(rows[..|rows| - 1], bin2db) + [BlobRecord(rows[|rows| - 1], bin2db)]
  }

  /** The rows whose key is not in the table. */
  function NewKeyRows(shard: Shard, rows: seq<Record>): (r: seq<Record>)
    ensures forall i :: 0 <= i < |r| ==> r[i].key !in shard && r[i] in rows
    ensures forall i :: 0 <= i < |rows| && rows[i].key !in shard ==> rows[i] in r
    decreases |rows|
  {
    if rows == [] then []
    else if rows[0].key in shard then NewKeyRows(shard, rows[1..])
    else [rows[0]] + NewKeyRows(shard, rows[1..])
  }

  /**
   * `INSERT INTO t SELECT * FROM tmp WHERE (idarchive, name) NOT IN (SELECT
   * idarchive, name FROM t)`: the rows with new keys, in one statement,
   * which fails if two of them share a key.
   */
  function InsertNewKeys(shard: Shard, rows: seq<Record>): (Shard, Outcome) {
    match InsertStatement(shard, NewKeyRows(shard, rows))
    case Ok(s) => (s, Success)
    case Err(e) => (shard, Failure(e))
  }

  /**
   * When the batch itself has no repeated key, ignoring duplicates keeps
   * every existing row and adds each new row: the same table as MySQL's
   * INSERT IGNORE produces.
   */
  lemma {:induction false} InsertNewKeysIsInsertIgnore(shard: Shard, rows: seq<Record>)
    requires DistinctKeys(rows)
    ensures InsertNewKeys(shard, rows) == (InsertIgnoreAll(shard, rows), Success)
  {
    var newRows := NewKeyRows(shard, rows);
    NewKeyRowsDistinct(shard, rows);
    assert FreshKeys(shard, newRows);
    var a := InsertIgnoreAll(shard, newRows);
    var b := InsertIgnoreAll(shard, rows);
    forall k ensures (k in a <==> k in b) && (k in a ==> a[k] == b[k]) {
      InsertIgnoreAllContents(shard, newRows, k);
      InsertIgnoreAllContents(shard, rows, k);
      var i := FirstWithKey(rows, k);
      var j := FirstWithKey(newRows, k);
      if k !in shard {
        if i < |rows| {
          assert rows[i] in newRows;
          var jj :| 0 <= jj < |newRows| && newRows[jj] == rows[i];
          assert j <= jj;
          assert newRows[j].key == k;
          assert newRows[j] in rows;
          var ii :| 0 <= ii < |rows| && rows[ii] == newRows[j];
          assert ii == i;
        }
        if j < |newRows| {
          assert newRows[j] in rows;
        }
      }
    }
    assert a == b;
  }

  lemma {:induction false} NewKeyRowsDistinct(shard: Shard, rows: seq<Record>)
    requires DistinctKeys(rows)
    ensures DistinctKeys(NewKeyRows(shard, rows))
    decreases |rows|
  {
    if rows != [] {
      var tail := rows[1..];
      DistinctTail(rows);
      NewKeyRowsDistinct(shard, tail);
      var rest := NewKeyRows(shard, tail);
      if rows[0].key !in shard {
        assert NewKeyRows(shard, rows) == [rows[0]] + rest;
        NewKeyRowsAvoidHead(shard, rows);
        DistinctCons(rows[0], rest);
      } else {
        assert NewKeyRows(shard, rows) == rest;
      }
    }
  }

  lemma DistinctTail(rows: seq<Record>)
    requires rows != [] && DistinctKeys(rows)
    ensures DistinctKeys(rows[1..])
  {
    var tail := rows[1..];
    forall i, j | 0 <= i < j < |tail| ensures tail[i].key != tail[j].key {
      assert tail[i] == rows[i + 1] && tail[j] == rows[j + 1];
    }
  }

  /** The rows kept from the tail never share the head's key. */
  lemma NewKeyRowsAvoidHead(shard: Shard, rows: seq<Record>)
    requires rows != [] && DistinctKeys(rows)
    ensures forall i :: 0 <= i < |NewKeyRows(shard, rows[1..])| ==> NewKeyRows(shard, rows[1..])[i].key != rows[0].key
  {
    var tail := rows[1..];
    var rest := NewKeyRows(shard, tail);
    forall i | 0 <= i < |rest| ensures rest[i].key != rows[0].key {
      assert rest[i] in tail;
      var m :| 0 <= m < |tail| && tail[m] == rest[i];
      assert rows[m + 1] == rest[i];
    }
  }

  lemma DistinctCons(x: Record, rest: seq<Record>)
    requires DistinctKeys(rest)
    requires forall i :: 0 <= i < |rest| ==> rest[i].key != x.key
    ensures DistinctKeys([x] + rest)
  {
    var r := [x] + rest;
    forall i, j | 0 <= i < j < |r| ensures r[i].key != r[j].key {
      assert r[j] == rest[j - 1];
      if i > 0 {
        assert r[i] == rest[i - 1];
      }
    }
  }

  // ---------------------------------------------------------------------
  // Shard creation and reading blobs back
  // ---------------------------------------------------------------------

  /**
   * `createPartitionTable`: the shard's CREATE statement, then that table
   * kind's index statements with every `#table#` replaced by the generated
   * table name. A table kind without indexes sends none.
   */
  method CreatePartitionTable(db: ArchiveTables, prefix: string, tableName: string, generatedTableName: string,
                              createSql: string, indexes: map<string, seq<string>>) returns (statements: seq<string>)
    modifies db
    ensures db.locks == old(db.locks)
    ensures db.tables == if generatedTableName in old(db.tables) then old(db.tables) else old(db.tables)[generatedTableName := map[]]
    ensures var idx := if tableName in indexes then indexes[tableName] else [];
            |statements| == 1 + |idx|
            && statements[0] == MysqlArchive.PartitionTableSql(prefix, tableName, generatedTableName, createSql)
            && forall i :: 0 <= i < |idx| ==> statements[i + 1] == ReplaceAll(idx[i], "#table#", generatedTableName)
  {
    statements := [MysqlArchive.PartitionTableSql(prefix, tableName, generatedTableName, createSql)];
    db.CreateTableIfNotExists(generatedTableName);
    var idx := if tableName in indexes then indexes[tableName] else [];
    var i := 0;
    while i < |idx|
      invariant 0 <= i <= |idx|
      invariant |statements| == 1 + i
      invariant statements[0] == MysqlArchive.PartitionTableSql(prefix, tableName, generatedTableName, createSql)
      invariant forall j :: 0 <= j < i ==> statements[j + 1] == ReplaceAll(idx[j], "#table#", generatedTableName)
    {
      statements := statements + [ReplaceAll(idx[i], "#table#", generatedTableName)];
      i := i + 1;
    }
  }

  /** An index statement naming `#table#` once gets the generated table name in its place. */
  lemma IndexStatementOfTemplate(pre: string, post: string, generatedTableName: string)
    requires '#' !in pre && !Contains(post, "#table#")
    ensures ReplaceAll(pre + "#table#" + post, "#table#", generatedTableName) == pre + generatedTableName + post
  {
    ReplaceAllSingle(pre, "#table#", post, generatedTableName);
  }

  /** A row as `binaryOutput` returns it from a blob table: a set value is decoded and its class names restored. */
  function BinaryRow(row: Row, db2bin: Value -> string): Row {
    if row.value.Null? then row else row.(value := Str(UnderscoreToNamespace(db2bin(row.value))))
  }

  /** Every row of a blob shard as `binaryOutput` returns it. */
  function BinaryShard(shard: Shard, db2bin: Value -> string): (r: Shard)
    ensures r.Keys == shard.Keys
    ensures forall k :: k in shard ==> r[k] == BinaryRow(shard[k], db2bin)
  {
    map k | k in shard :: BinaryRow(shard[k], db2bin)
  }

  /** What the PostgreSQL `getArchiveData` returns: the MySQL rows, decoded when the shard is a blob shard. */
  function PgArchiveData(tables: map<string, Shard>, archiveIds: seq<(string, seq<int>)>, recordNames: seq<string>,
                         dataType: MysqlArchive.ArchiveDataType, loadAllSubtables: bool, db2bin: Value -> string): Result<seq<Shard>> {
    match MysqlArchive.ArchiveData(tables, archiveIds, recordNames, dataType, loadAllSubtables)
    case Err(e) => Err(e)
    case Ok(shards) =>
      Ok(seq(|shards|, i requires 0 <= i < |shards| => PgShard(shards[i], dataType, db2bin)))
  }

  /** A shard as PostgreSQL hands it back: blob values decoded, other data as it is. */
  function PgShard(shard: Shard, dataType: MysqlArchive.ArchiveDataType, db2bin: Value -> string): Shard {
    if dataType == MysqlArchive.Blob then BinaryShard(shard, db2bin) else shard
  }

  /** The shard of a period key is a blob shard exactly when blob data is asked for. */
  lemma TableOfRangeKind(range: string, dataType: MysqlArchive.ArchiveDataType)
    ensures IsBlob(MysqlArchive.TableOfRange(range, dataType)) <==> dataType == MysqlArchive.Blob
  {
    var ym := Periods.TableMonthOfRange(range);
    if dataType == MysqlArchive.Blob {
      BlobTableIsBlob(ym);
    } else {
      NumericTableIsNotBlob(ym);
    }
  }

  /**
   * `binaryOutput` over rows: when the table last prepared is a blob table,
   * each row's set value is decoded; otherwise the rows pass through.
   */
  method BinaryOutput(dao: PgsqlArchiveDao, rows: Shard, db2bin: Value -> string) returns (out: Shard)
    ensures dao.isBlobTable ==> out == BinaryShard(rows, db2bin)
    ensures !dao.isBlobTable ==> out == rows
  {
    if !dao.isBlobTable {
      return rows;
    }
    out := map[];
    var todo := rows.Keys;
    while todo != {}
      invariant todo <= rows.Keys
      invariant out.Keys == rows.Keys - todo
      invariant forall k :: k in out ==> out[k] == BinaryRow(rows[k], db2bin)
      decreases |todo|
    {
      var k :| k in todo;
      out := out[k := BinaryRow(rows[k], db2bin)];
      todo := todo - {k};
    }
    assert out == BinaryShard(rows, db2bin);
  }

  /** `prepareForBinary`: remember whether the table is a blob table. */
  method PrepareForBinary(dao: PgsqlArchiveDao, table: string)
    modifies dao
    ensures dao.isBlobTable == IsBlob(table)
  {
    dao.isBlobTable := IsBlob(table);
  }

  /**
   * `getArchiveData` for PostgreSQL: the MySQL selection, and for each
   * period the shard is prepared and its rows passed through `binaryOutput`.
   */
  method GetArchiveData(dao: PgsqlArchiveDao, archiveIds: seq<(string, seq<int>)>, recordNames: seq<string>,
                        dataType: MysqlArchive.ArchiveDataType, loadAllSubtables: bool, db2bin: Value -> string)
    returns (r: Result<seq<Shard>>)
    modifies dao
    ensures r == PgArchiveData(dao.db.tables, archiveIds, recordNames, dataType, loadAllSubtables, db2bin)
  {
    var base := MysqlArchive.GetArchiveData(dao.db, archiveIds, recordNames, dataType, loadAllSubtables);
    if base.Err? {
      return Err(base.error);
    }
    MysqlArchive.ArchiveDataRows(dao.db.tables, archiveIds, recordNames, dataType, loadAllSubtables);
    var out := BinaryOutputs(dao, archiveIds, base.value, dataType, db2bin);
    r := Ok(out);
  }

  /** The loop of `getArchiveData`: each period's shard prepared, then its rows passed through `binaryOutput`. */
  method BinaryOutputs(dao: PgsqlArchiveDao, archiveIds: seq<(string, seq<int>)>, shards: seq<Shard>,
                       dataType: MysqlArchive.ArchiveDataType, db2bin: Value -> string)
    returns (out: seq<Shard>)
    requires |shards| == |archiveIds|
    modifies dao
    ensures out == seq(|shards|, i requires 0 <= i < |shards| => PgShard(shards[i], dataType, db2bin))
  {
    out := [];
    var i := 0;
    while i < |shards|
      invariant 0 <= i <= |shards|
      invariant |out| == i
      invariant forall j :: 0 <= j < i ==> out[j] == PgShard(shards[j], dataType, db2bin)
    {
      var table := MysqlArchive.TableOfRange(archiveIds[i].0, dataType);
      PrepareForBinary(dao, table);
      TableOfRangeKind(archiveIds[i].0, dataType);
      var rows := BinaryOutput(dao, shards[i], db2bin);
      out := out + [rows];
      i := i + 1;
    }
  }
}
