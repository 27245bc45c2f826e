/**
 * The PHP language semantics the archive, segment and DAO code relies on:
 * loosely typed values, `empty()`, `is_numeric()`, `(int)` casts, and the
 * string functions `strpos`, `str_replace`, `implode`, `explode`,
 * `strtolower`, `ucfirst` and `trim`.
 */
module Php {
  /** A PHP value as stored in an archive row or passed to a query. */
  datatype Value =
    | Null
    | Bool(b: bool)
    | Int(i: int)
    | Float(f: real)
    | Str(s: string)
    | Arr(items: seq<Value>)

  /** PHP `empty()`: null, false, 0, 0.0, "", "0" and the empty array. */
  predicate IsEmpty(v: Value) {
    match v
    case Null => true
    case Bool(b) => !b
    case Int(i) => i == 0
    case Float(f) => f == 0.0
    case Str(s) => IsEmptyString(s)
    case Arr(items) => items == []
  }

  /** `empty()` on a string: only "" and "0" are empty. */
  predicate IsEmptyString(s: string) {
    s == "" || s == "0"
  }

  predicate IsDigit(c: char) {
    '0' <= c <= '9'
  }

  predicate AllDigits(s: string) {
    forall i :: 0 <= i < |s| ==> IsDigit(s[i])
  }

  /** The whitespace `is_numeric` and `(int)` skip at the front of a string. */
  predicate IsLeadingSpace(c: char) {
    c == ' ' || c == '\t' || c == '\n' || c == '\r' || c == '\U{000B}' || c == '\U{000C}'
  }

  /** The characters `trim()` strips by default. */
  predicate IsTrimmed(c: char) {
    c == ' ' || c == '\t' || c == '\n' || c == '\r' || c == '\0' || c == '\U{000B}'
  }

  function SkipLeadingSpace(s: string): (r: string)
    ensures |r| <= |s| && r == s[|s| - |r|..]
    ensures r == [] || !IsLeadingSpace(r[0])
  {
    if s != [] && IsLeadingSpace(s[0]) then SkipLeadingSpace(s[1..]) else s
  }

  function SkipSign(s: string): string {
    if s != [] && (s[0] == '+' || s[0] == '-') then s[1..] else s
  }

  /** Length of the longest prefix of `s` made of decimal digits. */
  function DigitRun(s: string): (n: nat)
    ensures n <= |s|
    ensures AllDigits(s[..n])
    ensures n < |s| ==> !IsDigit(s[n])
  {
    if s != [] && IsDigit(s[0]) then 1 + DigitRun(s[1..]) else 0
  }

  /** An optional exponent part `e[sign]digits` (possibly absent). */
  predicate IsExponentOrNothing(s: string) {
    s == [] || ((s[0] == 'e' || s[0] == 'E') && SkipSign(s[1..]) != [] && AllDigits(SkipSign(s[1..])))
  }

  /**
   * `is_numeric` on a string, PHP 7 rules: leading whitespace, an optional
   * sign, digits with an optional fraction (at least one digit overall) and
   * an optional exponent; nothing after.
   */
  predicate IsNumericString(s: string) {
    var u := SkipSign(SkipLeadingSpace(s));
    var a := DigitRun(u);
    if a < |u| && u[a] == '.' then
      var b := DigitRun(u[a + 1..]);
      a + b > 0 && IsExponentOrNothing(u[a + 1 + b..])
    else
      a > 0 && IsExponentOrNothing(u[a..])
  }

  /** PHP `is_numeric`. */
  predicate IsNumeric(v: Value) {
    match v
    case Int(_) => true
    case Float(_) => true
    case Str(s) => IsNumericString(s)
    case _ => false
  }

  function DigitValue(c: char): (d: nat)
    requires IsDigit(c)
    ensures d < 10
  {
    (c as int - '0' as int) as nat
  }

  function DigitChar(d: nat): (c: char)
    requires d < 10
    ensures IsDigit(c) && DigitValue(c) == d
  {
    ('0' as int + d) as char
  }

  /** The value of a string of decimal digits (most significant first). */
  function DigitsValue(s: string): nat
    requires AllDigits(s)
  {
    if s == [] then 0 else DigitsValue(s[..|s| - 1]) * 10 + DigitValue(s[|s| - 1])
  }

  /** Decimal rendering of a natural number, no leading zeros. */
  function NatToString(n: nat): (s: string)
    ensures s != [] && AllDigits(s)
    decreases n
  {
    if n < 10 then [DigitChar(n)] else NatToString(n / 10) + [DigitChar(n % 10)]
  }

  /** PHP's string conversion of an integer. */
  function IntToString(i: int): (s: string)
    ensures s != []
  {
    if i < 0 then "-" + NatToString(-i) else NatToString(i)
  }

  /** `(int)` applied to a string: leading whitespace, sign, then the leading digits. */
  function LeadingInt(s: string): int {
    var t := SkipLeadingSpace(s);
    var u := SkipSign(t);
    var n: int := DigitsValue(u[..DigitRun(u)]);
    if t != [] && t[0] == '-' then -n else n
  }

  /** Truncation toward zero, as PHP's `(int)` does for floats. */
  function TruncateReal(f: real): int {
    if f >= 0.0 then f.Floor else -((-f).Floor)
  }

  /** PHP `(int)`. */
  function IntCast(v: Value): int {
    match v
    case Null => 0
    case Bool(b) => if b then 1 else 0
    case Int(i) => i
    case Float(f) => TruncateReal(f)
    case Str(s) => LeadingInt(s)
    case Arr(items) => if items == [] then 0 else 1
  }

  lemma {:induction false} DigitsValueOfNatToString(n: nat)
    ensures DigitsValue(NatToString(n)) == n
    decreases n
  {
    var s := NatToString(n);
    if n >= 10 {
      DigitsValueOfNatToString(n / 10);
      assert s[..|s| - 1] == NatToString(n / 10);
    }
  }

  /** Casting the decimal rendering of an integer back with `(int)` gives the integer. */
  lemma {:induction false} IntCastOfIntToString(i: int)
    ensures IntCast(Str(IntToString(i))) == i
  {
    if i < 0 {
      LeadingIntNegative(NatToString(-i));
      DigitsValueOfNatToString(-i);
    } else {
      LeadingIntOfDigits(NatToString(i));
      DigitsValueOfNatToString(i);
    }
  }

  /** `(int)` of a run of digits is their value. */
  lemma LeadingIntOfDigits(digits: string)
    requires digits != [] && AllDigits(digits)
    ensures LeadingInt(digits) == DigitsValue(digits)
  {
    assert !IsLeadingSpace(digits[0]) by { assert IsDigit(digits[0]); }
    assert SkipLeadingSpace(digits) == digits;
    assert SkipSign(digits) == digits;
    DigitRunOfDigits(digits);
    assert digits[..|digits|] == digits;
  }

  /** `(int)` of a minus sign followed by a run of digits is minus their value. */
  lemma LeadingIntNegative(digits: string)
    requires digits != [] && AllDigits(digits)
    ensures LeadingInt("-" + digits) == -(DigitsValue(digits) as int)
  {
    var s := "-" + digits;
    assert s[0] == '-' && !IsLeadingSpace(s[0]);
    assert SkipLeadingSpace(s) == s;
    assert s[1..] == digits;
    assert SkipSign(s) == digits;
    DigitRunOfDigits(digits);
    assert digits[..|digits|] == digits;
  }

  lemma {:induction false} DigitRunOfDigits(s: string)
    requires AllDigits(s)
    ensures DigitRun(s) == |s|
  {
    if s != [] {
      DigitRunOfDigits(s[1..]);
    }
  }

  predicate StartsWith(s: string, prefix: string) {
    |prefix| <= |s| && s[..|prefix|] == prefix
  }

  /** `sub` occurs in `s` at position `j`. */
  predicate OccursAt(s: string, sub: string, j: nat) {
    j + |sub| <= |s| && s[j..j + |sub|] == sub
  }

  /** `strpos($s, $sub) !== false`. */
  predicate Contains(s: string, sub: string) {
    exists j: nat :: j <= |s| && OccursAt(s, sub, j)
  }

  lemma OccursAtTail(s: string, sub: string, j: nat)
    requires s != []
    ensures OccursAt(s, sub, j + 1) <==> OccursAt(s[1..], sub, j)
  {
    if j + 1 + |sub| <= |s| {
      assert s[j + 1..j + 1 + |sub|] == s[1..][j..j + |sub|];
    }
  }

  /** `strpos`: the first position of `sub` in `s`, or -1 for `false`. */
  function IndexOf(s: string, sub: string): (r: int)
    ensures r == -1 || (0 <= r && OccursAt(s, sub, r))
    ensures r >= 0 ==> forall j: nat :: j < r ==> !OccursAt(s, sub, j)
    ensures r == -1 <==> !Contains(s, sub)
    decreases |s|
  {
    if |s| < |sub| then -1
    else if s[..|sub|] == sub then assert OccursAt(s, sub, 0); 0
    else
      var k := IndexOf(s[1..], sub);
      IndexOfShift(s, sub, k);
      if k < 0 then -1 else k + 1
  }

  /** A search that fails at the first position goes on one character later. */
  lemma IndexOfShift(s: string, sub: string, k: int)
    requires |sub| <= |s| && s[..|sub|] != sub
    requires k == -1 || (0 <= k && OccursAt(s[1..], sub, k))
    requires k >= 0 ==> forall j: nat :: j < k ==> !OccursAt(s[1..], sub, j)
    requires k == -1 <==> !Contains(s[1..], sub)
    ensures var r := if k < 0 then -1 else k + 1;
      && (r == -1 || (0 <= r && OccursAt(s, sub, r)))
      && (r >= 0 ==> forall j: nat :: j < r ==> !OccursAt(s, sub, j))
      && (r == -1 <==> !Contains(s, sub))
  {
    forall j: nat ensures OccursAt(s, sub, j + 1) <==> OccursAt(s[1..], sub, j) {
      OccursAtTail(s, sub, j);
    }
    assert !OccursAt(s, sub, 0);
    assert forall j: nat :: OccursAt(s, sub, j) ==> j > 0 && OccursAt(s[1..], sub, j - 1);
  }

  /** Index of the first occurrence of `c`, or `|s|` when absent. */
  function CharIndex(s: string, c: char): (n: nat)
    ensures n <= |s|
    ensures c !in s[..n]
    ensures n < |s| ==> s[n] == c
  {
    if s == [] then 0 else if s[0] == c then 0 else 1 + CharIndex(s[1..], c)
  }

  /**
   * PHP `str_replace($from, $to, $s)` for one search string: scans left to
   * right and replaces non-overlapping occurrences; an empty search string
   * leaves the subject unchanged.
   */
  function ReplaceAll(s: string, from: string, to: string): string
    decreases |s|
  {
    if from == [] || |s| < |from| then s
    else if s[..|from|] == from then to + ReplaceAll(s[|from|..], from, to)
    else [s[0]] + ReplaceAll(s[1..], from, to)
  }

  /** A subject that does not contain the first character of the search string is left as it is. */
  lemma {:induction false} ReplaceAllWithoutLead(s: string, from: string, to: string)
    requires from != [] && from[0] !in s
    ensures ReplaceAll(s, from, to) == s
    decreases |s|
  {
    if |s| >= |from| {
      assert s[0] != from[0];
      assert s[..|from|] != from;
      ReplaceAllWithoutLead(s[1..], from, to);
    }
  }

  /** A prefix without the first character of the search string is copied unchanged. */
  lemma {:induction false} ReplaceAllSkipsPrefix(pre: string, x: string, from: string, to: string)
    requires from != [] && from[0] !in pre
    ensures ReplaceAll(pre + x, from, to) == pre + ReplaceAll(x, from, to)
    decreases |pre|
  {
    if pre != [] {
      var s := pre + x;
      assert s[0] == pre[0] != from[0];
      assert s[1..] == pre[1..] + x;
      if |s| >= |from| {
        assert s[..|from|] != from;
        ReplaceAllSkipsPrefix(pre[1..], x, from, to);
      } else {
        assert x == [] || |pre + x| < |from|;
        ReplaceAllShort(x, from, to, |from|);
      }
    } else {
      assert pre + x == x;
    }
  }

  lemma ReplaceAllShort(x: string, from: string, to: string, n: nat)
    requires |x| < |from| == n
    ensures ReplaceAll(x, from, to) == x
  {
  }

  /** A subject that begins with the search string begins, after the replacement, with the replacement. */
  lemma ReplaceAllLeading(from: string, x: string, to: string)
    requires from != []
    ensures ReplaceAll(from + x, from, to) == to + ReplaceAll(x, from, to)
  {
    assert (from + x)[..|from|] == from;
    assert (from + x)[|from|..] == x;
  }

  /**
   * One occurrence, preceded by text free of the search string's first
   * character and followed by text with no occurrence: exactly that
   * occurrence is replaced.
   */
  lemma ReplaceAllSingle(pre: string, from: string, post: string, to: string)
    requires from != [] && from[0] !in pre && !Contains(post, from)
    ensures ReplaceAll(pre + from + post, from, to) == pre + to + post
  {
    assert pre + from + post == pre + (from + post);
    ReplaceAllSkipsPrefix(pre, from + post, from, to);
    ReplaceAllLeading(from, post, to);
    ReplaceAllNoOccurrence(post, from, to);
  }

  /** Replace every occurrence of one character by another. */
  function ReplaceChar(s: string, a: char, b: char): (r: string)
    ensures |r| == |s|
    ensures forall i :: 0 <= i < |s| ==> r[i] == (if s[i] == a then b else s[i])
  {
    if s == [] then [] else [if s[0] == a then b else s[0]] + ReplaceChar(s[1..], a, b)
  }

  /** PHP `implode($sep, $parts)`. */
  function Join(parts: seq<string>, sep: string): string {
    if parts == [] then ""
    else if |parts| == 1 then parts[0]
    else parts[0] + sep + Join(parts[1..], sep)
  }

  /** Where the j-th part starts in `Join(parts, sep)`. */
  function JoinOffset(parts: seq<string>, sep: string, j: nat): nat
    requires j <= |parts|
  {
    if j == 0 then 0 else |parts[0]| + |sep| + JoinOffset(parts[1..], sep, j - 1)
  }

  lemma OccursAtShift(a: string, b: string, sub: string, p: nat)
    requires OccursAt(b, sub, p)
    ensures OccursAt(a + b, sub, |a| + p)
  {
    assert (a + b)[|a| + p..|a| + p + |sub|] == b[p..p + |sub|];
  }

  /** Every part appears in the joined string, at its offset: the parts keep their order. */
  lemma {:induction false} JoinPartAt(parts: seq<string>, sep: string, j: nat)
    requires j < |parts|
    ensures OccursAt(Join(parts, sep), parts[j], JoinOffset(parts, sep, j))
    ensures j + 1 < |parts| ==> JoinOffset(parts, sep, j) + |parts[j]| + |sep| == JoinOffset(parts, sep, j + 1)
  {
    if |parts| == 1 {
      assert Join(parts, sep)[0..|parts[0]|] == parts[0];
    } else if j == 0 {
      assert Join(parts, sep) == parts[0] + (sep + Join(parts[1..], sep));
      assert Join(parts, sep)[0..|parts[0]|] == parts[0];
      assert JoinOffset(parts[1..], sep, 0) == 0;
    } else {
      JoinPartAt(parts[1..], sep, j - 1);
      assert Join(parts, sep) == (parts[0] + sep) + Join(parts[1..], sep);
      OccursAtShift(parts[0] + sep, Join(parts[1..], sep), parts[j], JoinOffset(parts[1..], sep, j - 1));
    }
  }

  /** Joining one more part appends the separator and the part. */
  lemma {:induction false} JoinSnoc(parts: seq<string>, p: string, sep: string)
    ensures Join(parts + [p], sep) == if parts == [] then p else Join(parts, sep) + sep + p
  {
    if |parts| > 1 {
      assert (parts + [p])[1..] == parts[1..] + [p];
      JoinSnoc(parts[1..], p, sep);
    } else if |parts| == 1 {
      assert (parts + [p])[1..] == [p];
    } else {
      assert parts + [p] == [p];
    }
  }

  /** A string built part by part, with the separator before every part but the first, is the prefix and the join. */
  lemma JoinBuiltStep(prefix: string, parts: seq<string>, p: string, sep: string, before: string, after: string)
    requires before == prefix + Join(parts, sep)
    requires after == (if parts == [] then before else before + sep) + p
    ensures after == prefix + Join(parts + [p], sep)
  {
    JoinSnoc(parts, p, sep);
    if parts != [] {
      assert prefix + Join(parts, sep) + sep + p == prefix + (Join(parts, sep) + sep + p);
    }
  }

  /** Number of occurrences of `c` in `s`. */
  function CountChar(s: string, c: char): (n: nat)
    ensures n == 0 <==> c !in s
  {
    if s == [] then 0 else (if s[0] == c then 1 else 0) + CountChar(s[1..], c)
  }

  lemma {:induction false} CountCharAppend(a: string, b: string, c: char)
    ensures CountChar(a + b, c) == CountChar(a, c) + CountChar(b, c)
  {
    if a != [] {
      assert (a + b)[1..] == a[1..] + b;
      CountCharAppend(a[1..], b, c);
    } else {
      assert a + b == b;
    }
  }

  /** PHP `explode($c, $s)` for a one-character delimiter. */
  function Split(s: string, c: char): (parts: seq<string>)
    ensures parts != []
    ensures forall k :: 0 <= k < |parts| ==> c !in parts[k]
    decreases |s|
  {
    var i := CharIndex(s, c);
    if i == |s| then [s] else [s[..i]] + Split(s[i + 1..], c)
  }

  /** Splitting and joining on the same delimiter gives back the original string. */
  lemma {:induction false} JoinSplit(s: string, c: char)
    ensures Join(Split(s, c), [c]) == s
    decreases |s|
  {
    var i := CharIndex(s, c);
    var parts := Split(s, c);
    if i < |s| {
      var rest := Split(s[i + 1..], c);
      JoinSplit(s[i + 1..], c);
      assert parts == [s[..i]] + rest;
      assert parts[0] == s[..i] && parts[1..] == rest && |parts| > 1;
      assert Join(parts, [c]) == s[..i] + [c] + Join(rest, [c]);
      assert s == s[..i] + [c] + s[i + 1..];
    } else {
      assert parts == [s];
    }
  }

  /** Splitting text that starts with a delimiter-free part: that part comes first. */
  lemma SplitAfterPart(a: string, b: string, c: char)
    requires c !in a
    ensures Split(a + [c] + b, c) == [a] + Split(b, c)
  {
    var s := a + [c] + b;
    assert CharIndex(s, c) == |a| by {
      assert s == a + ([c] + b);
      CharIndexOfPart(a, [c] + b, c);
    }
    assert s[..|a|] == a;
    assert s[|a| + 1..] == b;
  }

  lemma {:induction false} CharIndexOfPart(a: string, rest: string, c: char)
    requires c !in a && rest != [] && rest[0] == c
    ensures CharIndex(a + rest, c) == |a|
    decreases |a|
  {
    if a != [] {
      assert (a + rest)[1..] == a[1..] + rest;
      CharIndexOfPart(a[1..], rest, c);
    } else {
      assert a + rest == rest;
    }
  }

  /** The decimal rendering of an integer holds only digits and a leading minus sign. */
  lemma IntToStringChars(i: int)
    ensures forall k :: 0 <= k < |IntToString(i)| ==> IsDigit(IntToString(i)[k]) || IntToString(i)[k] == '-'
  {
  }

  /** Different integers render differently. */
  lemma IntToStringInjective(i: int, j: int)
    requires IntToString(i) == IntToString(j)
    ensures i == j
  {
    IntCastOfIntToString(i);
    IntCastOfIntToString(j);
  }

  /** A subject without any occurrence of the search string is left as it is. */
  lemma {:induction false} ReplaceAllNoOccurrence(s: string, from: string, to: string)
    requires from != [] && !Contains(s, from)
    ensures ReplaceAll(s, from, to) == s
    decreases |s|
  {
    if |s| >= |from| {
      assert !OccursAt(s, from, 0);
      assert !Contains(s[1..], from) by {
        forall j: nat | j <= |s[1..]| ensures !OccursAt(s[1..], from, j) {
          OccursAtTail(s, from, j);
        }
      }
      ReplaceAllNoOccurrence(s[1..], from, to);
    }
  }

  function ToLowerChar(c: char): char {
    if 'A' <= c <= 'Z' then (c as int + 32) as char else c
  }

  /** `strtolower` on ASCII letters. */
  function ToLower(s: string): (r: string)
    ensures |r| == |s|
    ensures forall i :: 0 <= i < |s| ==> r[i] == ToLowerChar(s[i])
  {
    if s == [] then [] else [ToLowerChar(s[0])] + ToLower(s[1..])
  }

  function ToUpperChar(c: char): char {
    if 'a' <= c <= 'z' then (c as int - 32) as char else c
  }

  /** `ucfirst`. */
  function UcFirst(s: string): (r: string)
    ensures |r| == |s|
    ensures s != [] ==> r[0] == ToUpperChar(s[0]) && r[1..] == s[1..]
  {
    if s == [] then s else [ToUpperChar(s[0])] + s[1..]
  }

  function TrimLeft(s: string): (r: string)
    ensures |r| <= |s| && r == s[|s| - |r|..]
    ensures r == [] || !IsTrimmed(r[0])
  {
    if s != [] && IsTrimmed(s[0]) then TrimLeft(s[1..]) else s
  }

  function TrimRight(s: string): (r: string)
    ensures |r| <= |s| && r == s[..|r|]
    ensures r == [] || !IsTrimmed(r[|r| - 1])
  {
    if s != [] && IsTrimmed(s[|s| - 1]) then TrimRight(s[..|s| - 1]) else s
  }

  /** PHP `trim` with the default character list. */
  function Trim(s: string): string {
    TrimRight(TrimLeft(s))
  }
}
