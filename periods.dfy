/**
 * Dates and periods as the archive code sees them: a period has a numeric
 * type id (day, week, month, year, range), a label, a first and a last day,
 * and a "pretty" string used as the public key of results. Dates are
 * rendered as `Y-m-d`; a month shard is named after `Y_m` of its first day.
 */
module Periods {
  import opened Php

  type Year = y: int | 0 <= y <= 9999
  type MonthOfYear = m: int | 1 <= m <= 12 witness 1
  type DayOfMonth = d: int | 1 <= d <= 31 witness 1

  /**
   * A calendar day. `ordinal` numbers days consecutively (days since an
   * epoch) and is what day arithmetic and comparisons use.
   */
  datatype Date = Date(year: Year, month: MonthOfYear, day: DayOfMonth, ordinal: int)

  datatype Period = Period(id: int, periodLabel: string, start: Date, end: Date, pretty: string)

  /** Two-digit zero-padded rendering. */
  function Pad2(n: nat): (s: string)
    requires n < 100
    ensures |s| == 2 && AllDigits(s)
  {
    [DigitChar(n / 10), DigitChar(n % 10)]
  }

  /** Four-digit zero-padded rendering. */
  function Pad4(n: nat): (s: string)
    requires n < 10000
    ensures |s| == 4 && AllDigits(s)
  {
    Pad2(n / 100) + Pad2(n % 100)
  }

  /** `Date::toString('Y-m-d')`. */
  function Iso(d: Date): (s: string)
    ensures |s| == 10 && s[4] == '-' && s[7] == '-'
  {
    Pad4(d.year) + "-" + Pad2(d.month) + "-" + Pad2(d.day)
  }

  /** `Date::toString('Y_m')`, the suffix of a month's archive tables. */
  function YearMonth(d: Date): (s: string)
    ensures |s| == 7 && s[4] == '_'
    ensures forall i :: 0 <= i < |s| ==> IsDigit(s[i]) || s[i] == '_'
  {
    Pad4(d.year) + "_" + Pad2(d.month)
  }

  /** `Period::getRangeString()`: "first,last" in `Y-m-d`. */
  function RangeString(p: Period): string {
    Iso(p.start) + "," + Iso(p.end)
  }

  /**
   * `getTableMonthFromDateRange`: the first seven characters of a range
   * string ("2012-03-01,2012-03-31" gives "2012-03") with `-` turned into `_`.
   */
  function TableMonthOfRange(range: string): string {
    ReplaceChar(if |range| < 7 then range else range[..7], '-', '_')
  }

  /** The month taken from a period's range string is the `Y_m` of its first day. */
  lemma TableMonthOfRangeString(p: Period)
    ensures TableMonthOfRange(RangeString(p)) == YearMonth(p.start)
  {
    var r := RangeString(p);
    var y := YearMonth(p.start);
    var t := TableMonthOfRange(r);
    assert r[..7] == Pad4(p.start.year) + "-" + Pad2(p.start.month);
    forall i | 0 <= i < 7 ensures t[i] == y[i] {
      if i < 4 {
        assert r[i] == Pad4(p.start.year)[i] && y[i] == Pad4(p.start.year)[i];
      } else if i > 4 {
        assert r[i] == Pad2(p.start.month)[i - 5] && y[i] == Pad2(p.start.month)[i - 5];
      }
    }
  }
}
