/**
 * UTC timestamps at millisecond precision and the fixed layout
 * `YYYY-MM-DDTHH:MM:SS.mmmZ` (Go layout "2006-01-02T15:04:05.000Z") in which
 * the published dataset stores them.
 */
module Timestamps {
  import opened Wrappers
  import opened Decimal

  datatype DateTime = DateTime(year: int, month: int, day: int,
                               hour: int, minute: int, second: int, milli: int)

  predicate IsLeapYear(y: int) {
    y % 4 == 0 && (y % 100 != 0 || y % 400 == 0)
  }

  /** Days in a month of the proleptic Gregorian calendar, as Go's `daysIn`. */
  function DaysIn(month: int, year: int): (n: int)
    ensures 28 <= n <= 31
  {
    if month == 2 then (if IsLeapYear(year) then 29 else 28)
    else if month == 4 || month == 6 || month == 9 || month == 11 then 30
    else 31
  }

  /** A real calendar instant whose year fits the four-digit layout. */
  predicate Valid(t: DateTime) {
    && 0 <= t.year <= 9999
    && 1 <= t.month <= 12
    && 1 <= t.day <= DaysIn(t.month, t.year)
    && 0 <= t.hour < 24
    && 0 <= t.minute < 60
    && 0 <= t.second < 60
    && 0 <= t.milli < 1000
  }

  type Time = t: DateTime | Valid(t) witness DateTime(1970, 1, 1, 0, 0, 0, 0)

  /** Go's `Before` on two UTC times: the reference order, field by field. */
  predicate Before(a: Time, b: Time) {
    if a.year != b.year then a.year < b.year
    else if a.month != b.month then a.month < b.month
    else if a.day != b.day then a.day < b.day
    else if a.hour != b.hour then a.hour < b.hour
    else if a.minute != b.minute then a.minute < b.minute
    else if a.second != b.second then a.second < b.second
    else a.milli < b.milli
  }

  /** Equal up to the second: what two RFC 3339 renderings (no fraction) of UTC times compare. */
  predicate SameSecond(a: Time, b: Time) {
    a.year == b.year && a.month == b.month && a.day == b.day &&
    a.hour == b.hour && a.minute == b.minute && a.second == b.second
  }

  /** A mixed-radix count of whole seconds; it orders times as `Before` does (not an epoch offset). */
  function SecondRank(t: Time): int {
    ((((t.year * 12 + (t.month - 1)) * 31 + (t.day - 1)) * 24 + t.hour) * 60 + t.minute) * 60 + t.second
  }

  /** The same count in milliseconds: the integer by which events are sorted. */
  function Rank(t: Time): int {
    SecondRank(t) * 1000 + t.milli
  }

  /** One digit of a mixed radix decides the order: `q*m + x` against `q'*m + x'`. */
  lemma RadixStep(q: int, x: int, q': int, x': int, m: int)
    requires m > 0 && 0 <= x < m && 0 <= x' < m
    ensures q * m + x < q' * m + x' <==> q < q' || (q == q' && x < x')
    ensures q * m + x == q' * m + x' <==> q == q' && x == x'
  {
    if q < q' {
      MulAtLeast(q' - q, m);
      assert q' * m == q * m + (q' - q) * m;
    } else if q > q' {
      MulAtLeast(q - q', m);
      assert q * m == q' * m + (q - q') * m;
    }
  }

  lemma MulAtLeast(k: int, m: int)
    requires k >= 1 && m > 0
    ensures k * m >= m
  {
    assert (k - 1) * m >= 0;
  }

  /** Whole-second ranks agree exactly when the times agree up to the second. */
  lemma SecondRankInjective(a: Time, b: Time)
    ensures SecondRank(a) == SecondRank(b) <==> SameSecond(a, b)
  {
    var ya, yb := a.year * 12 + (a.month - 1), b.year * 12 + (b.month - 1);
    RadixStep(a.year, a.month - 1, b.year, b.month - 1, 12);
    var da, db := ya * 31 + (a.day - 1), yb * 31 + (b.day - 1);
    RadixStep(ya, a.day - 1, yb, b.day - 1, 31);
    var ha, hb := da * 24 + a.hour, db * 24 + b.hour;
    RadixStep(da, a.hour, db, b.hour, 24);
    var ma, mb := ha * 60 + a.minute, hb * 60 + b.minute;
    RadixStep(ha, a.minute, hb, b.minute, 60);
    RadixStep(ma, a.second, mb, b.second, 60);
  }

  /** Sorting by `Rank` is sorting by `Before`. */
  lemma RankOrdersChronologically(a: Time, b: Time)
    ensures Rank(a) < Rank(b) <==> Before(a, b)
  {
    var ya, yb := a.year * 12 + (a.month - 1), b.year * 12 + (b.month - 1);
    RadixStep(a.year, a.month - 1, b.year, b.month - 1, 12);
    var da, db := ya * 31 + (a.day - 1), yb * 31 + (b.day - 1);
    RadixStep(ya, a.day - 1, yb, b.day - 1, 31);
    var ha, hb := da * 24 + a.hour, db * 24 + b.hour;
    RadixStep(da, a.hour, db, b.hour, 24);
    var ma, mb := ha * 60 + a.minute, hb * 60 + b.minute;
    RadixStep(ha, a.minute, hb, b.minute, 60);
    var sa, sb := ma * 60 + a.second, mb * 60 + b.second;
    RadixStep(ma, a.second, mb, b.second, 60);
    RadixStep(sa, a.milli, sb, b.milli, 1000);
  }

  /** Dropping the milliseconds from `Rank` leaves the whole-second rank. */
  lemma RankToSeconds(t: Time)
    ensures Rank(t) / 1000 == SecondRank(t)
  {
  }

  /** `n` as two zero-padded digits. */
  function Pad2(n: int): (s: string)
    requires 0 <= n < 100
    ensures |s| == 2 && IsDigit(s[0]) && IsDigit(s[1])
    ensures 10 * DigitValue(s[0]) + DigitValue(s[1]) == n
  {
    DigitRoundTrip(n / 10, '0');
    DigitRoundTrip(n % 10, '0');
    [DigitChar(n / 10), DigitChar(n % 10)]
  }

  /** `n` as three zero-padded digits. */
  function Pad3(n: int): (s: string)
    requires 0 <= n < 1000
    ensures |s| == 3 && IsDigit(s[0]) && IsDigit(s[1]) && IsDigit(s[2])
    ensures 100 * DigitValue(s[0]) + 10 * DigitValue(s[1]) + DigitValue(s[2]) == n
  {
    DigitRoundTrip(n / 100, '0');
    [DigitChar(n / 100)] + Pad2(n % 100)
  }

  /** `n` as four zero-padded digits. */
  function Pad4(n: int): (s: string)
    requires 0 <= n < 10000
    ensures |s| == 4 && IsDigit(s[0]) && IsDigit(s[1]) && IsDigit(s[2]) && IsDigit(s[3])
    ensures 1000 * DigitValue(s[0]) + 100 * DigitValue(s[1]) + 10 * DigitValue(s[2]) + DigitValue(s[3]) == n
  {
    Pad2(n / 100) + Pad2(n % 100)
  }

  /** The rendering of a time in the fixed layout, zero-padded field by field. */
  function Format(t: Time): (s: string)
    ensures |s| == 24
  {
    Assemble(Pad4(t.year), Pad2(t.month), Pad2(t.day), Pad2(t.hour), Pad2(t.minute), Pad2(t.second), Pad3(t.milli))
  }

  /** Every formatted time has the layout's shape. */
  lemma FormatWellFormed(t: Time)
    ensures WellFormed(Format(t))
  {
  }

  /** Lays out the padded fields with the layout's separators. */
  function Assemble(y: string, mo: string, d: string, h: string, mi: string, sec: string, ms: string): string
    requires |y| == 4 && |mo| == 2 && |d| == 2 && |h| == 2 && |mi| == 2 && |sec| == 2 && |ms| == 3
  {
    [y[0], y[1], y[2], y[3], '-', mo[0], mo[1], '-', d[0], d[1], 'T', h[0], h[1],
     ':', mi[0], mi[1], ':', sec[0], sec[1], '.', ms[0], ms[1], ms[2], 'Z']
  }

  /** A well-formed string is the layout of its own digit groups. */
  lemma AssembleOf(s: string)
    requires WellFormed(s)
    ensures Assemble([s[0], s[1], s[2], s[3]], [s[5], s[6]], [s[8], s[9]], [s[11], s[12]],
                     [s[14], s[15]], [s[17], s[18]], [s[20], s[21], s[22]]) == s
  {
    var f := Assemble([s[0], s[1], s[2], s[3]], [s[5], s[6]], [s[8], s[9]], [s[11], s[12]],
                      [s[14], s[15]], [s[17], s[18]], [s[20], s[21], s[22]]);
    assert forall i | 0 <= i < 24 :: f[i] == s[i];
  }

  /** The shape of the layout: 24 characters, literals in place, digits elsewhere. */
  predicate WellFormed(s: string) {
    && |s| == 24
    && s[4] == '-' && s[7] == '-' && s[10] == 'T' && s[13] == ':' && s[16] == ':' && s[19] == '.' && s[23] == 'Z'
    && IsDigit(s[0]) && IsDigit(s[1]) && IsDigit(s[2]) && IsDigit(s[3])
    && IsDigit(s[5]) && IsDigit(s[6]) && IsDigit(s[8]) && IsDigit(s[9])
    && IsDigit(s[11]) && IsDigit(s[12]) && IsDigit(s[14]) && IsDigit(s[15])
    && IsDigit(s[17]) && IsDigit(s[18]) && IsDigit(s[20]) && IsDigit(s[21]) && IsDigit(s[22])
  }

  function Num2(a: char, b: char): int
    requires IsDigit(a) && IsDigit(b)
  {
    10 * DigitValue(a) + DigitValue(b)
  }

  /** The fields a well-formed string spells, before any range check. */
  function Fields(s: string): DateTime
    requires WellFormed(s)
  {
    DateTime(
      1000 * DigitValue(s[0]) + 100 * DigitValue(s[1]) + 10 * DigitValue(s[2]) + DigitValue(s[3]),
      Num2(s[5], s[6]), Num2(s[8], s[9]), Num2(s[11], s[12]), Num2(s[14], s[15]), Num2(s[17], s[18]),
      100 * DigitValue(s[20]) + 10 * DigitValue(s[21]) + DigitValue(s[22]))
  }

  /**
   * `time.Parse` with the fixed layout: the literals must match, each field
   * must be digits, and the month, the day of that month, the hour, minute and
   * second must be in range; otherwise `None`.
   */
  function Parse(s: string): (r: Option<Time>)
    ensures r.Some? <==> WellFormed(s) && Valid(Fields(s))
    ensures r.Some? ==> r.value == Fields(s)
  {
    if !WellFormed(s) then None
    else
      var t := Fields(s);
      if Valid(t) then Some(t) else None
  }

  /** Parsing a formatted time gives back the same time. */
  lemma ParseFormat(t: Time)
    ensures Parse(Format(t)) == Some(t)
  {
    FormatWellFormed(t);
    assert Fields(Format(t)) == t;
  }

  /** A string the parser accepts is exactly the rendering of what it parsed to. */
  lemma FormatParse(s: string)
    requires Parse(s).Some?
    ensures Format(Parse(s).value) == s
  {
    FormatFields(s);
  }

  lemma FormatFields(s: string)
    requires WellFormed(s) && Valid(Fields(s))
    ensures Format(Fields(s)) == s
  {
    var t: Time := Fields(s);
    var y, mo, d := [s[0], s[1], s[2], s[3]], [s[5], s[6]], [s[8], s[9]];
    var h, mi, sec, ms := [s[11], s[12]], [s[14], s[15]], [s[17], s[18]], [s[20], s[21], s[22]];
    Pad4Of(s[0], s[1], s[2], s[3]);
    assert Pad4(t.year) == y;
    Pad2Of(s[5], s[6]);
    assert Pad2(t.month) == mo;
    Pad2Of(s[8], s[9]);
    assert Pad2(t.day) == d;
    Pad2Of(s[11], s[12]);
    assert Pad2(t.hour) == h;
    Pad2Of(s[14], s[15]);
    assert Pad2(t.minute) == mi;
    Pad2Of(s[17], s[18]);
    assert Pad2(t.second) == sec;
    Pad3Of(s[20], s[21], s[22]);
    assert Pad3(t.milli) == ms;
    AssembleOf(s);
  }

  lemma Pad2Of(a: char, b: char)
    requires IsDigit(a) && IsDigit(b)
    ensures Pad2(10 * DigitValue(a) + DigitValue(b)) == [a, b]
  {
    DigitRoundTrip(0, a);
    DigitRoundTrip(0, b);
  }

  lemma Pad3Of(a: char, b: char, c: char)
    requires IsDigit(a) && IsDigit(b) && IsDigit(c)
    ensures Pad3(100 * DigitValue(a) + 10 * DigitValue(b) + DigitValue(c)) == [a, b, c]
  {
    var low := 10 * DigitValue(b) + DigitValue(c);
    DivMod100(DigitValue(a), low);
    DigitRoundTrip(0, a);
    Pad2Of(b, c);
  }

  lemma Pad4Of(a: char, b: char, c: char, d: char)
    requires IsDigit(a) && IsDigit(b) && IsDigit(c) && IsDigit(d)
    ensures Pad4(1000 * DigitValue(a) + 100 * DigitValue(b) + 10 * DigitValue(c) + DigitValue(d)) == [a, b, c, d]
  {
    var high, low := 10 * DigitValue(a) + DigitValue(b), 10 * DigitValue(c) + DigitValue(d);
    DivMod100(high, low);
    Pad2Of(a, b);
    Pad2Of(c, d);
  }

  lemma DivMod100(high: int, low: int)
    requires 0 <= low < 100
    ensures (100 * high + low) / 100 == high && (100 * high + low) % 100 == low
  {
  }
}
