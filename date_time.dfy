/**
 * Python `datetime` values as the event service uses them: naive calendar datetimes with
 * microseconds, ordered by time, rendered and read back with the fixed format
 * "%m/%d/%Y, %H:%M:%S" (e.g. "12/10/2023, 10:51:36").
 */
module DateTimes {
  import opened Wrappers

  datatype DateTimeFields = DateTimeFields(
    year: int, month: int, day: int, hour: int, minute: int, second: int, microsecond: int)

  predicate IsLeapYear(y: int) {
    y % 4 == 0 && (y % 100 != 0 || y % 400 == 0)
  }

  function DaysInMonth(y: int, m: int): int {
    if m == 2 then (if IsLeapYear(y) then 29 else 28)
    else if m == 4 || m == 6 || m == 9 || m == 11 then 30
    else 31
  }

  /** The ranges Python's `datetime` constructor enforces. */
  predicate ValidFields(t: DateTimeFields) {
    && 1 <= t.year <= 9999
    && 1 <= t.month <= 12
    && 1 <= t.day <= DaysInMonth(t.year, t.month)
    && 0 <= t.hour < 24
    && 0 <= t.minute < 60
    && 0 <= t.second < 60
    && 0 <= t.microsecond < 1000000
  }

  /** A Python `datetime`: every value of the type is a valid calendar datetime. */
  type DateTime = t: DateTimeFields | ValidFields(t) witness DateTimeFields(1, 1, 1, 0, 0, 0, 0)

  const MicrosPerSecond: int := 1000000

  function DaysBeforeYear(y: int): int {
    var p := y - 1;
    365 * p + p / 4 - p / 100 + p / 400
  }

  function DaysBeforeMonth(y: int, m: int): int
    decreases m
  {
    if m <= 1 then 0 else DaysBeforeMonth(y, m - 1) + DaysInMonth(y, m - 1)
  }

  /** Microseconds elapsed since 0001-01-01 00:00:00; datetimes compare as their ticks do. */
  function Ticks(t: DateTime): int {
    var days := DaysBeforeYear(t.year) + DaysBeforeMonth(t.year, t.month) + t.day - 1;
    (((days * 24 + t.hour) * 60 + t.minute) * 60 + t.second) * MicrosPerSecond + t.microsecond
  }

  /** Python's `a < b` on datetimes. */
  predicate Before(a: DateTime, b: DateTime) {
    Ticks(a) < Ticks(b)
  }

  /** The datetime with its sub-second part dropped. */
  function Truncated(t: DateTime): DateTime {
    t.(microsecond := 0)
  }

  // ---------------------------------------------------------------------------------------------
  // strftime("%m/%d/%Y, %H:%M:%S") and strptime(s, "%m/%d/%Y, %H:%M:%S")
  // ---------------------------------------------------------------------------------------------

  const FormattedLength: nat := 20

  predicate IsDigit(c: char) {
    '0' <= c <= '9'
  }

  function Digit(d: int): (c: char)
    requires 0 <= d < 10
    ensures IsDigit(c)
  {
    ('0' as int + d) as char
  }

  function DigitValue(c: char): int
    requires IsDigit(c)
  {
    c as int - '0' as int
  }

  /** `t.strftime("%m/%d/%Y, %H:%M:%S")`: every field zero-padded, the year to four digits. */
  function Format(t: DateTime): string {
    [ Digit(t.month / 10), Digit(t.month % 10), '/',
      Digit(t.day / 10), Digit(t.day % 10), '/',
      Digit(t.year / 1000), Digit(t.year / 100 % 10), Digit(t.year / 10 % 10), Digit(t.year % 10),
      ',', ' ',
      Digit(t.hour / 10), Digit(t.hour % 10), ':',
      Digit(t.minute / 10), Digit(t.minute % 10), ':',
      Digit(t.second / 10), Digit(t.second % 10) ]
  }

  /** `s` has the shape "MM/DD/YYYY, HH:MM:SS" with digits where digits belong. */
  predicate WellShaped(s: string) {
    && |s| == FormattedLength
    && IsDigit(s[0]) && IsDigit(s[1]) && s[2] == '/'
    && IsDigit(s[3]) && IsDigit(s[4]) && s[5] == '/'
    && IsDigit(s[6]) && IsDigit(s[7]) && IsDigit(s[8]) && IsDigit(s[9])
    && s[10] == ',' && s[11] == ' '
    && IsDigit(s[12]) && IsDigit(s[13]) && s[14] == ':'
    && IsDigit(s[15]) && IsDigit(s[16]) && s[17] == ':'
    && IsDigit(s[18]) && IsDigit(s[19])
  }

  function Two(s: string, i: nat): int
    requires WellShaped(s) && i in {0, 3, 12, 15, 18}
  {
    10 * DigitValue(s[i]) + DigitValue(s[i + 1])
  }

  function FieldsOf(s: string): DateTimeFields
    requires WellShaped(s)
  {
    var year := 1000 * DigitValue(s[6]) + 100 * DigitValue(s[7]) + 10 * DigitValue(s[8]) + DigitValue(s[9]);
    DateTimeFields(year, Two(s, 0), Two(s, 3), Two(s, 12), Two(s, 15), Two(s, 18), 0)
  }

  /**
   * `datetime.strptime(s, "%m/%d/%Y, %H:%M:%S")` on the fixed-width form: None where strptime
   * raises ValueError (wrong shape, month 13, February 30, year 0000, ...).
   */
  function Parse(s: string): (r: Option<DateTime>)
    ensures r.Some? ==> r.value.microsecond == 0
  {
    if WellShaped(s) && ValidFields(FieldsOf(s)) then Some(FieldsOf(s)) else None
  }

  lemma DigitRoundTrip(d: int)
    requires 0 <= d < 10
    ensures DigitValue(Digit(d)) == d
  {
  }

  lemma ValueRoundTrip(c: char)
    requires IsDigit(c)
    ensures Digit(DigitValue(c)) == c
  {
  }

  lemma {:induction false} SplitTwo(n: int)
    requires 0 <= n < 100
    ensures 10 * (n / 10) + n % 10 == n && 0 <= n / 10 < 10
  {
  }

  lemma {:induction false} SplitFour(n: int)
    requires 0 <= n < 10000
    ensures 1000 * (n / 1000) + 100 * (n / 100 % 10) + 10 * (n / 10 % 10) + n % 10 == n
    ensures 0 <= n / 1000 < 10
  {
    var a, b, c, d := n / 1000, n / 100 % 10, n / 10 % 10, n % 10;
    assert n / 100 == 10 * a + b;
    assert n / 10 == 10 * (n / 100) + c;
    assert n == 10 * (n / 10) + d;
  }

  lemma {:induction false} JoinTwo(a: int, b: int)
    requires 0 <= a < 10 && 0 <= b < 10
    ensures (10 * a + b) / 10 == a && (10 * a + b) % 10 == b
  {
  }

  lemma {:induction false} JoinFour(a: int, b: int, c: int, d: int)
    requires 0 <= a < 10 && 0 <= b < 10 && 0 <= c < 10 && 0 <= d < 10
    ensures var n := 1000 * a + 100 * b + 10 * c + d;
      n / 1000 == a && n / 100 % 10 == b && n / 10 % 10 == c && n % 10 == d
  {
    var n := 1000 * a + 100 * b + 10 * c + d;
    assert n / 10 == 100 * a + 10 * b + c;
    assert n / 100 == 10 * a + b;
  }

  /** Formatting always yields the fixed-width shape. */
  lemma FormatWellShaped(t: DateTime)
    ensures WellShaped(Format(t))
  {
    SplitFour(t.year);
  }

  /**
   * Reading back what was written recovers the datetime up to the second:
   * strptime(strftime(t)) == t with microseconds cleared.
   */
  lemma {:induction false} ParseFormat(t: DateTime)
    ensures Parse(Format(t)) == Some(Truncated(t))
  {
    var s := Format(t);
    FormatWellShaped(t);
    SplitTwo(t.month); SplitTwo(t.day); SplitTwo(t.hour); SplitTwo(t.minute); SplitTwo(t.second);
    SplitFour(t.year);
    DigitRoundTrip(t.month / 10); DigitRoundTrip(t.month % 10);
    DigitRoundTrip(t.day / 10); DigitRoundTrip(t.day % 10);
    DigitRoundTrip(t.hour / 10); DigitRoundTrip(t.hour % 10);
    DigitRoundTrip(t.minute / 10); DigitRoundTrip(t.minute % 10);
    DigitRoundTrip(t.second / 10); DigitRoundTrip(t.second % 10);
    DigitRoundTrip(t.year / 1000); DigitRoundTrip(t.year / 100 % 10);
    DigitRoundTrip(t.year / 10 % 10); DigitRoundTrip(t.year % 10);
    assert FieldsOf(s) == Truncated(t);
  }

  /**
   * Every fixed-width "MM/DD/YYYY, HH:MM:SS" text that Parse reads is exactly what strftime writes
   * for the parsed datetime.
   */
  lemma {:induction false} FormatParse(s: string)
    requires Parse(s).Some?
    ensures Format(Parse(s).value) == s
  {
    var t := Parse(s).value;
    assert WellShaped(s);
    JoinTwo(DigitValue(s[0]), DigitValue(s[1]));
    JoinTwo(DigitValue(s[3]), DigitValue(s[4]));
    JoinTwo(DigitValue(s[12]), DigitValue(s[13]));
    JoinTwo(DigitValue(s[15]), DigitValue(s[16]));
    JoinTwo(DigitValue(s[18]), DigitValue(s[19]));
    JoinFour(DigitValue(s[6]), DigitValue(s[7]), DigitValue(s[8]), DigitValue(s[9]));
    var f := Format(t);
    assert |f| == |s|;
    forall i | 0 <= i < |s| ensures f[i] == s[i] {
      if IsDigit(s[i]) {
        ValueRoundTrip(s[i]);
      }
    }
  }

  /** Two datetimes render alike exactly when they agree up to the second. */
  lemma {:induction false} FormatInjectiveUpToSeconds(a: DateTime, b: DateTime)
    ensures Format(a) == Format(b) <==> Truncated(a) == Truncated(b)
  {
    ParseFormat(a);
    ParseFormat(b);
  }
}
