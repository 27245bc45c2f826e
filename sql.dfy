/**
 * The parts of SQL semantics the queries rely on: the `LIKE` operator
 * (`%` any run, `_` any single character; escapes are not modelled) and
 * the ordering of strings used when dates are compared as `Y-m-d` text.
 */
module Sql {
  /** `s LIKE p`. */
  predicate Like(s: string, p: string)
    decreases |s| + |p|
  {
    if p == [] then s == []
    else if p[0] == '%' then Like(s, p[1..]) || (s != [] && Like(s[1..], p))
    else s != [] && (p[0] == '_' || p[0] == s[0]) && Like(s[1..], p[1..])
  }

  /** `s` begins with the literal `lit`, where each `_` of `lit` stands for any character. */
  predicate MatchesLiteral(s: string, lit: string) {
    |lit| <= |s| && forall i :: 0 <= i < |lit| ==> lit[i] == '_' || lit[i] == s[i]
  }

  lemma {:induction false} LikePercentAlways(s: string)
    ensures Like(s, "%")
    decreases |s|
  {
    if s != [] {
      LikePercentAlways(s[1..]);
    }
  }

  /** `s LIKE 'lit%'` holds exactly when `s` begins with `lit`, reading `_` as a wildcard. */
  lemma {:induction false} LikeLiteralPrefix(s: string, lit: string)
    requires '%' !in lit
    ensures Like(s, lit + "%") <==> MatchesLiteral(s, lit)
    decreases |lit|
  {
    if lit == [] {
      LikePercentAlways(s);
      assert lit + "%" == "%";
    } else {
      var p := lit + "%";
      assert p[0] == lit[0] && p[1..] == lit[1..] + "%";
      if s != [] {
        LikeLiteralPrefix(s[1..], lit[1..]);
        if MatchesLiteral(s, lit) {
          assert MatchesLiteral(s[1..], lit[1..]) by {
            forall i | 0 <= i < |lit[1..]| ensures lit[1..][i] == '_' || lit[1..][i] == s[1..][i] {
              assert lit[1..][i] == lit[i + 1];
            }
          }
        }
        if MatchesLiteral(s[1..], lit[1..]) && (lit[0] == '_' || lit[0] == s[0]) {
          forall i | 0 <= i < |lit| ensures lit[i] == '_' || lit[i] == s[i] {
            if i > 0 {
              assert lit[1..][i - 1] == lit[i];
            }
          }
        }
      }
    }
  }

  /** Lexicographic order on strings, as the database compares `Y-m-d` dates. */
  predicate LexLe(a: string, b: string)
    decreases |a|
  {
    a == [] || (b != [] && (a[0] < b[0] || (a[0] == b[0] && LexLe(a[1..], b[1..]))))
  }
}
