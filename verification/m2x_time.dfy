/** Conversion of a Unix timestamp (seconds since 1970-01-01T00:00:00Z) and a
    millisecond part into the ISO 8601 extended form
    `YYYY-MM-DDTHH:MM:SS.mmmZ` that the M2X API takes, written into a
    caller's character buffer. Years are counted from 1970, as in the
    source: year offset `y` is the calendar year `1970 + y`. */
module M2xTime {
  import opened M2xStatus
  import Common

  const SIZE_ISO_8601: int := 25

  /** `is_leap_year` on a year offset, guard included. */
  predicate IsLeapYear(y: int) {
    (1970 + y) > 0 && (1970 + y) % 4 == 0 && ((1970 + y) % 100 != 0 || (1970 + y) % 400 == 0)
  }

  /** The Gregorian rule, stated on a calendar year. */
  predicate GregorianLeap(year: int) {
    year % 400 == 0 || (year % 4 == 0 && year % 100 != 0)
  }

  /** For every year after 1 BC the source's rule is the Gregorian rule. */
  lemma {:induction false} LeapYearIsGregorian(y: int)
    requires 1970 + y > 0
    ensures IsLeapYear(y) <==> GregorianLeap(1970 + y)
  {
  }

  function DaysInYear(y: int): int {
    if IsLeapYear(y) then 366 else 365
  }

  const MONTH_DAYS: seq<int> := [31, 28, 31, 30, 31, 30, 31, 31, 30, 31, 30, 31]

  /** The length of month `m` (0 for January) of year offset `y`, as the
      month loop computes it. */
  function MonthLength(y: int, m: int): int
    requires 0 <= m < 12
  {
    if m == 1 then (if IsLeapYear(y) then 29 else 28) else MONTH_DAYS[m]
  }

  /** Days before month `m` of year offset `y`. */
  function DaysBeforeMonth(y: int, m: int): int
    requires 0 <= m <= 12
    decreases m
  {
    if m == 0 then 0 else DaysBeforeMonth(y, m - 1) + MonthLength(y, m - 1)
  }

  /** February has 29 days exactly in leap years; every month has 28 to 31
      days; the twelve months make up the year. */
  lemma {:induction false} MonthTable(y: int, m: int)
    requires 0 <= m < 12
    ensures MonthLength(y, 1) == 29 <==> IsLeapYear(y)
    ensures 28 <= MonthLength(y, m) <= 31
    ensures DaysBeforeMonth(y, 12) == DaysInYear(y)
  {
    var feb := MonthLength(y, 1);
    assert DaysBeforeMonth(y, 2) == 31 + feb;
    assert DaysBeforeMonth(y, 3) == 62 + feb;
    assert DaysBeforeMonth(y, 4) == 92 + feb;
    assert DaysBeforeMonth(y, 5) == 123 + feb;
    assert DaysBeforeMonth(y, 6) == 153 + feb;
    assert DaysBeforeMonth(y, 7) == 184 + feb;
    assert DaysBeforeMonth(y, 8) == 215 + feb;
    assert DaysBeforeMonth(y, 9) == 245 + feb;
    assert DaysBeforeMonth(y, 10) == 276 + feb;
    assert DaysBeforeMonth(y, 11) == 306 + feb;
    assert DaysBeforeMonth(y, 12) == 337 + feb;
  }

  lemma {:induction false} DaysBeforeMonthIncreasing(y: int, a: int, b: int)
    requires 0 <= a <= b <= 12
    ensures DaysBeforeMonth(y, a) + 28 * (b - a) <= DaysBeforeMonth(y, b)
    decreases b - a
  {
    if a < b {
      DaysBeforeMonthIncreasing(y, a, b - 1);
    }
  }

  /** Days from 1970-01-01 to the first day of year offset `y`. */
  function DaysBeforeYear(y: nat): nat
    decreases y
  {
    if y == 0 then 0 else DaysBeforeYear(y - 1) + DaysInYear(y - 1)
  }

  lemma {:induction false} DaysBeforeYearIncreasing(a: nat, b: nat)
    requires a <= b
    ensures DaysBeforeYear(a) + 365 * (b - a) <= DaysBeforeYear(b)
    decreases b - a
  {
    if a < b {
      DaysBeforeYearIncreasing(a, b - 1);
    }
  }

  /** A broken-down UTC time; `year` is the calendar year and `month` and
      `day` count from 1. */
  datatype DateTime = DateTime(year: int, month: int, day: int, hour: int, minute: int, second: int)

  predicate ValidDate(d: DateTime) {
    && d.year >= 1970
    && 1 <= d.month <= 12
    && 1 <= d.day <= MonthLength(d.year - 1970, d.month - 1)
    && 0 <= d.hour < 24 && 0 <= d.minute < 60 && 0 <= d.second < 60
  }

  /** The seconds in `days` whole days and a time of day. */
  function Seconds(days: int, hour: int, minute: int, second: int): int {
    ((days * 24 + hour) * 60 + minute) * 60 + second
  }

  /** The day of the year (from 0) of a valid date lies inside its month,
      and its month inside its year. */
  lemma {:induction false} DayOfYear(d: DateTime)
    requires ValidDate(d)
    ensures var y, m := d.year - 1970, d.month - 1;
            && 0 <= DaysBeforeMonth(y, m)
            && DaysBeforeMonth(y, m) + d.day - 1 < DaysBeforeMonth(y, m + 1)
            && DaysBeforeMonth(y, m + 1) <= DaysInYear(y)
  {
    var y, m := d.year - 1970, d.month - 1;
    MonthTable(y, m);
    DaysBeforeMonthIncreasing(y, 0, m);
    DaysBeforeMonthIncreasing(y, m + 1, 12);
  }

  /** The days from 1970-01-01 to the date of a valid broken-down time: a
      day of the date's own year. */
  function DayNumber(d: DateTime): (n: nat)
    requires ValidDate(d)
    ensures DaysBeforeYear(d.year - 1970) <= n < DaysBeforeYear(d.year - 1970 + 1)
  {
    DayOfYear(d);
    DaysBeforeYear(d.year - 1970) + DaysBeforeMonth(d.year - 1970, d.month - 1) + d.day - 1
  }

  /** The seconds since the epoch a broken-down time stands for. */
  function EpochOf(d: DateTime): int
    requires ValidDate(d)
  {
    Seconds(DayNumber(d), d.hour, d.minute, d.second)
  }

  /** The year offset holding day `days` (counted from 1970-01-01), searched
      from year offset `y` upwards. */
  function YearFrom(days: nat, y: nat): (r: nat)
    requires DaysBeforeYear(y) <= days
    ensures DaysBeforeYear(r) <= days < DaysBeforeYear(r + 1)
    decreases days - DaysBeforeYear(y)
  {
    if days < DaysBeforeYear(y + 1) then y else YearFrom(days, y + 1)
  }

  /** The month (0 for January) holding day `doy` (from 0) of year offset
      `y`, searched from month `m` upwards. */
  function MonthFrom(y: int, doy: int, m: int): (r: int)
    requires 0 <= m < 12
    requires DaysBeforeMonth(y, m) <= doy < DaysBeforeMonth(y, 12)
    ensures m <= r < 12
    ensures DaysBeforeMonth(y, r) <= doy < DaysBeforeMonth(y, r + 1)
    decreases 12 - m
  {
    if doy < DaysBeforeMonth(y, m + 1) then m else MonthFrom(y, doy, m + 1)
  }

  /** The broken-down time of a non-negative timestamp. */
  function Civil(ts: nat): (d: DateTime)
    ensures ValidDate(d)
    ensures EpochOf(d) == ts
  {
    JoinSeconds(ts);
    FromDays(ts / 60 / 60 / 24, (ts / 60 / 60) % 24, (ts / 60) % 60, ts % 60)
  }

  /** The date of day `days` (from 1970-01-01) at the given time of day. */
  function FromDays(days: nat, hour: int, minute: int, second: int): (d: DateTime)
    requires 0 <= hour < 24 && 0 <= minute < 60 && 0 <= second < 60
    ensures ValidDate(d)
    ensures DayNumber(d) == days
    ensures d.hour == hour && d.minute == minute && d.second == second
  {
    var y := YearFrom(days, 0);
    var doy := days - DaysBeforeYear(y);
    MonthTable(y, 0);
    var m := MonthFrom(y, doy, 0);
    assert DaysBeforeMonth(y, m + 1) == DaysBeforeMonth(y, m) + MonthLength(y, m);
    DateTime(1970 + y, m + 1, doy - DaysBeforeMonth(y, m) + 1, hour, minute, second)
  }

  /** A timestamp is its days, hours, minutes and seconds put together. */
  lemma {:induction false} JoinSeconds(ts: nat)
    ensures ts == Seconds(ts / 60 / 60 / 24, (ts / 60 / 60) % 24, (ts / 60) % 60, ts % 60)
  {
    var t1 := ts / 60;
    var t2 := t1 / 60;
    assert ts == t1 * 60 + ts % 60;
    assert t1 == t2 * 60 + t1 % 60;
    assert t2 == (t2 / 24) * 24 + t2 % 24;
  }

  /** ... and taking them apart again gives them back. */
  lemma {:induction false} SplitSeconds(days: nat, hour: int, minute: int, second: int)
    requires 0 <= hour < 24 && 0 <= minute < 60 && 0 <= second < 60
    ensures var ts := Seconds(days, hour, minute, second);
            && ts % 60 == second && (ts / 60) % 60 == minute
            && (ts / 60 / 60) % 24 == hour && ts / 60 / 60 / 24 == days
  {
    var t2 := days * 24 + hour;
    var t1 := t2 * 60 + minute;
    var ts := t1 * 60 + second;
    assert ts / 60 == t1 && ts % 60 == second;
    assert t1 / 60 == t2 && t1 % 60 == minute;
    assert t2 / 24 == days && t2 % 24 == hour;
  }

  /** The year offset is unique: a day lies between the starts of exactly
      one pair of consecutive years. */
  lemma {:induction false} YearUnique(days: nat, y: nat, z: nat)
    requires DaysBeforeYear(y) <= days < DaysBeforeYear(y + 1)
    requires DaysBeforeYear(z) <= days < DaysBeforeYear(z + 1)
    ensures y == z
  {
    if y < z {
      DaysBeforeYearIncreasing(y + 1, z);
    } else if z < y {
      DaysBeforeYearIncreasing(z + 1, y);
    }
  }

  lemma {:induction false} MonthUnique(y: int, doy: int, m: int, n: int)
    requires 0 <= m < 12 && 0 <= n < 12
    requires DaysBeforeMonth(y, m) <= doy < DaysBeforeMonth(y, m + 1)
    requires DaysBeforeMonth(y, n) <= doy < DaysBeforeMonth(y, n + 1)
    ensures m == n
  {
    if m < n {
      DaysBeforeMonthIncreasing(y, m + 1, n);
    } else if n < m {
      DaysBeforeMonthIncreasing(y, n + 1, m);
    }
  }

  /** Within one year, a month and a day of the month name a day of the
      year that no other pair names. */
  lemma {:induction false} DayInYearUnique(y: int, m: int, a: int, n: int, b: int)
    requires 0 <= m < 12 && 0 <= n < 12
    requires 1 <= a <= MonthLength(y, m) && 1 <= b <= MonthLength(y, n)
    requires DaysBeforeMonth(y, m) + a == DaysBeforeMonth(y, n) + b
    ensures m == n && a == b
  {
    assert DaysBeforeMonth(y, m + 1) == DaysBeforeMonth(y, m) + MonthLength(y, m);
    assert DaysBeforeMonth(y, n + 1) == DaysBeforeMonth(y, n) + MonthLength(y, n);
    MonthUnique(y, DaysBeforeMonth(y, m) + a - 1, m, n);
  }

  /** Two valid dates with the same day number are the same date. */
  lemma {:induction false} DayNumberInjective(d: DateTime, e: DateTime)
    requires ValidDate(d) && ValidDate(e) && DayNumber(d) == DayNumber(e)
    ensures d.year == e.year && d.month == e.month && d.day == e.day
  {
    var y := d.year - 1970;
    YearUnique(DayNumber(d), y, e.year - 1970);
    assert DayNumber(d) == DaysBeforeYear(y) + DaysBeforeMonth(y, d.month - 1) + d.day - 1;
    assert DayNumber(e) == DaysBeforeYear(y) + DaysBeforeMonth(y, e.month - 1) + e.day - 1;
    DayInYearUnique(y, d.month - 1, d.day, e.month - 1, e.day);
  }

  /** A valid date is the only one its day number names. */
  lemma {:induction false} FromDayNumber(d: DateTime)
    requires ValidDate(d)
    ensures FromDays(DayNumber(d), d.hour, d.minute, d.second) == d
  {
    var r := FromDays(DayNumber(d), d.hour, d.minute, d.second);
    DayNumberInjective(r, d);
  }

  /** The conversion is a bijection between non-negative timestamps and
      valid broken-down times: a valid time converts back to itself. */
  lemma {:induction false} CivilOfEpoch(d: DateTime)
    requires ValidDate(d)
    ensures EpochOf(d) >= 0
    ensures Civil(EpochOf(d)) == d
  {
    SplitSeconds(DayNumber(d), d.hour, d.minute, d.second);
    FromDayNumber(d);
  }

  // ---------------------------------------------------------------------
  // Text.

  function Pow10(n: nat): (r: nat)
    ensures r >= 1
  {
    if n == 0 then 1 else 10 * Pow10(n - 1)
  }

  /** `INT_TO_STR(v, width)`: the `width` lowest decimal digits of `v`,
      most significant first. */
  function Digits(v: nat, width: nat): (s: string)
    ensures |s| == width
    ensures forall i :: 0 <= i < |s| ==> '0' <= s[i] <= '9'
    decreases width
  {
    if width == 0 then [] else Digits(v / 10, width - 1) + [('0' as int + v % 10) as char]
  }

  /** The decimal value of a string of digits, as the client's readers
      compute it: every character counts as `c - '0'` on a plain `char`. */
  function DecimalValue(s: string): int
    decreases |s|
  {
    if |s| == 0 then 0 else DecimalValue(s[..|s| - 1]) * 10 + Common.DigitValue(s[|s| - 1])
  }

  /** A value below `10^width` is written exactly: its digits read back
      as the value. */
  lemma {:induction false} DigitsValue(v: nat, width: nat)
    requires v < Pow10(width)
    ensures DecimalValue(Digits(v, width)) == v
    decreases width
  {
    if width > 0 {
      var s := Digits(v, width);
      DigitsValue(v / 10, width - 1);
      assert s[..|s| - 1] == Digits(v / 10, width - 1);
    }
  }

  /** The text of a broken-down time and a millisecond part. */
  function Iso8601(d: DateTime, milli: nat): (s: string)
    requires ValidDate(d)
    ensures |s| == SIZE_ISO_8601 - 1
  {
    Fields3(d.year, 4, '-', d.month, d.day) + "T" + Fields3(d.hour, 2, ':', d.minute, d.second) + "."
    + Digits(milli, 3) + "Z"
  }

  /** `a`, `b` and `c` with `sep` between them; `b` and `c` two digits wide. */
  function Fields3(a: nat, width: nat, sep: char, b: nat, c: nat): (s: string)
    ensures |s| == width + 6
  {
    Digits(a, width) + [sep] + Digits(b, 2) + [sep] + Digits(c, 2)
  }

  /** A timestamp that fits `int32_t` falls before the year 2039, so its
      year has four digits. */
  lemma {:induction false} YearBound(ts: nat)
    requires ts < 0x8000_0000
    ensures 1970 <= Civil(ts).year < 2039
  {
    var days := ts / 60 / 60 / 24;
    var y := YearFrom(days, 0);
    DaysBeforeYearIncreasing(0, y);
    assert Civil(ts).year == 1970 + y;
  }

  /** The field of width `w` at offset `k` of a text. */
  function Field(s: string, k: nat, w: nat): int
    requires k + w <= |s|
  {
    DecimalValue(s[k..k + w])
  }

  /** Where the parts of a `Fields3` text lie. */
  lemma {:induction false} Fields3Shape(x: string, sep: char, y: string, z: string)
    requires |y| == 2 && |z| == 2
    ensures var s := x + [sep] + y + [sep] + z;
            && s[0..|x|] == x && s[|x|] == sep && s[|x| + 1..|x| + 3] == y
            && s[|x| + 3] == sep && s[|x| + 4..|x| + 6] == z
  {
  }

  /** Where the parts of an ISO 8601 text lie. */
  lemma {:induction false} Iso8601Shape(date: string, time: string, milli: string)
    requires |date| == 10 && |time| == 8 && |milli| == 3
    ensures var s := date + "T" + time + "." + milli + "Z";
            && s[0..10] == date && s[10] == 'T' && s[11..19] == time
            && s[19] == '.' && s[20..23] == milli && s[23] == 'Z'
  {
  }

  /** A slice of a slice is a slice. */
  lemma {:induction false} SubSlice(s: string, k: nat, n: nat, j: nat, w: nat)
    requires k + n <= |s| && j + w <= n
    ensures s[k..k + n][j..j + w] == s[k + j..k + j + w]
  {
    var t, u := s[k..k + n][j..j + w], s[k + j..k + j + w];
    assert forall i | 0 <= i < w :: t[i] == u[i];
  }

  /** Digits of a value below `10^w` at offset `k` read back as the value. */
  lemma {:induction false} FieldReads(s: string, k: nat, w: nat, v: nat)
    requires k + w <= |s| && v < Pow10(w) && s[k..k + w] == Digits(v, w)
    ensures Field(s, k, w) == v
  {
    DigitsValue(v, w);
  }

  /** The three fields of `Fields3` read back. */
  lemma {:induction false} FieldsOfDate(a: nat, width: nat, sep: char, b: nat, c: nat)
    requires a < Pow10(width) && b < 100 && c < 100
    ensures var s := Fields3(a, width, sep, b, c);
            && s[width] == sep && s[width + 3] == sep
            && Field(s, 0, width) == a && Field(s, width + 1, 2) == b && Field(s, width + 4, 2) == c
  {
    assert Pow10(2) == 100;
    var s := Fields3(a, width, sep, b, c);
    Fields3Shape(Digits(a, width), sep, Digits(b, 2), Digits(c, 2));
    FieldReads(s, 0, width, a);
    FieldReads(s, width + 1, 2, b);
    FieldReads(s, width + 4, 2, c);
  }

  /** The separators of the text sit at their fixed places. */
  lemma {:induction false} Iso8601Separators(d: DateTime, milli: nat)
    requires ValidDate(d)
    ensures var s := Iso8601(d, milli);
            && s[4] == '-' && s[7] == '-' && s[10] == 'T' && s[13] == ':' && s[16] == ':'
            && s[19] == '.' && s[23] == 'Z'
  {
    var date := Fields3(d.year, 4, '-', d.month, d.day);
    var time := Fields3(d.hour, 2, ':', d.minute, d.second);
    Iso8601Shape(date, time, Digits(milli, 3));
    Fields3Shape(Digits(d.year, 4), '-', Digits(d.month, 2), Digits(d.day, 2));
    Fields3Shape(Digits(d.hour, 2), ':', Digits(d.minute, 2), Digits(d.second, 2));
  }

  /** A field inside a part of a text is the same field of the part. */
  lemma {:induction false} FieldOfPart(s: string, k: nat, part: string, j: nat, w: nat, p: nat)
    requires k + |part| <= |s| && s[k..k + |part|] == part && j + w <= |part| && p == k + j
    ensures Field(s, p, w) == Field(part, j, w)
  {
    SubSlice(s, k, |part|, j, w);
  }

  /** The fields of a `Fields3` text placed at offset `k` of a longer text
      read back; the second and third fields start at `p` and `q`. */
  lemma {:induction false} FieldsInPart(s: string, k: nat, a: nat, width: nat, sep: char, b: nat, c: nat, p: nat, q: nat)
    requires a < Pow10(width) && b < 100 && c < 100
    requires k + width + 6 <= |s| && s[k..k + width + 6] == Fields3(a, width, sep, b, c)
    requires p == k + width + 1 && q == k + width + 4
    ensures Field(s, k, width) == a && Field(s, p, 2) == b && Field(s, q, 2) == c
  {
    var part := Fields3(a, width, sep, b, c);
    FieldsOfDate(a, width, sep, b, c);
    FieldOfPart(s, k, part, 0, width, k);
    FieldOfPart(s, k, part, width + 1, 2, p);
    FieldOfPart(s, k, part, width + 4, 2, q);
  }

  /** The month and day of a valid date have two digits. */
  lemma {:induction false} DateFieldBounds(d: DateTime)
    requires ValidDate(d)
    ensures d.month < 100 && d.day < 100
  {
    MonthTable(d.year - 1970, d.month - 1);
  }

  /** The date fields of the text read back. */
  lemma {:induction false} Iso8601DateFields(d: DateTime, milli: nat)
    requires ValidDate(d) && d.year < Pow10(4)
    ensures var s := Iso8601(d, milli);
            Field(s, 0, 4) == d.year && Field(s, 5, 2) == d.month && Field(s, 8, 2) == d.day
  {
    DateFieldBounds(d);
    var s := Iso8601(d, milli);
    Iso8601Shape(Fields3(d.year, 4, '-', d.month, d.day), Fields3(d.hour, 2, ':', d.minute, d.second), Digits(milli, 3));
    FieldsInPart(s, 0, d.year, 4, '-', d.month, d.day, 5, 8);
  }

  /** The time-of-day fields of the text read back. */
  lemma {:induction false} Iso8601TimeFields(d: DateTime, milli: nat)
    requires ValidDate(d)
    ensures var s := Iso8601(d, milli);
            Field(s, 11, 2) == d.hour && Field(s, 14, 2) == d.minute && Field(s, 17, 2) == d.second
  {
    var s := Iso8601(d, milli);
    Iso8601Shape(Fields3(d.year, 4, '-', d.month, d.day), Fields3(d.hour, 2, ':', d.minute, d.second), Digits(milli, 3));
    assert Pow10(2) == 100;
    FieldsInPart(s, 11, d.hour, 2, ':', d.minute, d.second, 14, 17);
  }

  /** The millisecond field reads back when it is below 1000. */
  lemma {:induction false} Iso8601MilliField(d: DateTime, milli: nat)
    requires ValidDate(d) && milli < 1000
    ensures Field(Iso8601(d, milli), 20, 3) == milli
  {
    var s := Iso8601(d, milli);
    Iso8601Shape(Fields3(d.year, 4, '-', d.month, d.day), Fields3(d.hour, 2, ':', d.minute, d.second), Digits(milli, 3));
    assert Pow10(3) == 1000;
    FieldReads(s, 20, 3, milli);
  }

  /** The text reads back as the time it was made from: separators at their
      fixed places and each field's digits spelling its value, the
      millisecond field included when it is below 1000. */
  lemma {:induction false} Iso8601ReadsBack(d: DateTime, milli: nat)
    requires ValidDate(d) && d.year < Pow10(4) && milli < 1000
    ensures var s := Iso8601(d, milli);
            && s[4] == '-' && s[7] == '-' && s[10] == 'T' && s[13] == ':' && s[16] == ':'
            && s[19] == '.' && s[23] == 'Z'
            && Field(s, 0, 4) == d.year && Field(s, 5, 2) == d.month && Field(s, 8, 2) == d.day
            && Field(s, 11, 2) == d.hour && Field(s, 14, 2) == d.minute && Field(s, 17, 2) == d.second
            && Field(s, 20, 3) == milli
  {
    Iso8601Separators(d, milli);
    Iso8601DateFields(d, milli);
    Iso8601TimeFields(d, milli);
    Iso8601MilliField(d, milli);
  }

  /** Every timestamp that fits `int32_t` has a text that reads back. */
  lemma {:induction false} TimestampReadsBack(ts: nat, milli: nat)
    requires ts < 0x8000_0000 && milli < 1000
    ensures var s := Iso8601(Civil(ts), milli);
            Field(s, 0, 4) == Civil(ts).year && Field(s, 20, 3) == milli
  {
    YearBound(ts);
    Iso8601ReadsBack(Civil(ts), milli);
  }

  /** The digits of `x` in the first `k` places are those of `x / 10` in
      the first `k - 1` and the last digit of `x` in place `k - 1`. */
  lemma {:induction false} DigitsStep(v: nat, width: nat, x: nat, k: nat)
    requires 1 <= k <= width && Digits(x, k) == Digits(v, width)[..k]
    ensures Digits(x / 10, k - 1) == Digits(v, width)[..k - 1]
    ensures Digits(v, width)[k - 1] == ('0' as int + x % 10) as char
  {
    assert Digits(x, k)[..k - 1] == Digits(x / 10, k - 1);
  }

  /** Writing place `k - 1` of `t` into the buffer extends the written tail
      by one character. */
  lemma {:induction false} PlaceStep(buf: string, t: string, i: nat, k: nat, r: string)
    requires 1 <= k <= |t| && i + |t| <= |buf|
    requires r == buf[..i + k] + t[k..] + buf[i + |t|..]
    ensures r[i + k - 1 := t[k - 1]] == buf[..i + k - 1] + t[k - 1..] + buf[i + |t|..]
  {
    var r' := r[i + k - 1 := t[k - 1]];
    var e := buf[..i + k - 1] + t[k - 1..] + buf[i + |t|..];
    assert |r'| == |e|;
    forall j | 0 <= j < |r'|
      ensures r'[j] == e[j]
    {
      if j < i + k - 1 {
      } else if j < i + |t| {
        assert e[j] == t[j - i];
      } else {
      }
    }
  }

  /** Before the first step nothing of `t` is written; after the last, all
      of it is. */
  lemma {:induction false} PlaceEnds(buf: string, t: string, i: nat)
    requires i + |t| <= |buf|
    ensures buf == buf[..i + |t|] + t[|t|..] + buf[i + |t|..]
    ensures t[0..] == t && t[..|t|] == t
  {
    assert buf[..i + |t|] + buf[i + |t|..] == buf;
  }

  /** `INT_TO_STR(v, width)` at offset `i`: writes the digits of `v` from
      the last position backwards, dividing by ten after each. */
  method WriteDigits(buf: string, i: int, v: nat, width: nat) returns (r: string)
    requires 0 <= i && i + width <= |buf|
    ensures r == buf[..i] + Digits(v, width) + buf[i + width..]
  {
    ghost var t := Digits(v, width);
    PlaceEnds(buf, t, i);
    r := buf;
    var x := v;
    var k := width;
    while k > 0
      invariant 0 <= k <= width
      invariant Digits(x, k) == t[..k]
      invariant r == buf[..i + k] + t[k..] + buf[i + width..]
    {
      DigitsStep(v, width, x, k);
      PlaceStep(buf, t, i, k, r);
      r := r[i + k - 1 := ('0' as int + x % 10) as char];
      x := x / 10;
      k := k - 1;
    }
  }

  /** The buffer during formatting: the text `w` written so far, then the
      caller's original contents. */
  predicate WrittenSoFar(buf: string, w: string, orig: string) {
    |w| <= |orig| && buf == w + orig[|w|..]
  }

  /** One `INT_TO_STR` step of the formatter, at the end of the text so far. */
  method PutDigits(buf: string, i: int, ghost w: string, ghost orig: string, v: nat, width: nat)
      returns (r: string, i': int)
    requires WrittenSoFar(buf, w, orig) && i == |w| && |w| + width <= |orig|
    ensures WrittenSoFar(r, w + Digits(v, width), orig) && i' == i + width
  {
    r := WriteDigits(buf, i, v, width);
    i' := i + width;
    assert buf[..|w|] == w;
    assert buf[|w| + width..] == orig[|w| + width..];
  }

  /** One `buffer[i++] = c` step of the formatter. */
  method PutChar(buf: string, i: int, ghost w: string, ghost orig: string, c: char) returns (r: string, i': int)
    requires WrittenSoFar(buf, w, orig) && i == |w| && |w| + 1 <= |orig|
    ensures WrittenSoFar(r, w + [c], orig) && i' == i + 1
  {
    r := buf[i := c];
    i' := i + 1;
    assert r == (w + [c]) + orig[|w| + 1..];
  }

  /** The year loop of `fill_iso8601_timestamp`: adds up year lengths
      until they pass the day count, then steps back one year. */
  method YearOfDays(days: nat) returns (year: nat, doy: int)
    ensures DaysBeforeYear(year) <= days < DaysBeforeYear(year + 1)
    ensures doy == days - DaysBeforeYear(year)
  {
    var t := days;
    year := 0;
    var day := DaysInYear(0);
    while day <= t
      invariant DaysBeforeYear(year) <= t
      invariant day == DaysBeforeYear(year + 1)
      decreases t - DaysBeforeYear(year)
    {
      year := year + 1;
      day := day + DaysInYear(year);
    }
    day := day - DaysInYear(year);
    doy := t - day;
  }

  /** The month loop of `fill_iso8601_timestamp`: subtracts month lengths
      while the day of the year is past them. */
  method MonthOfDay(year: int, doy: int) returns (month: int, mday: int)
    requires 0 <= doy < DaysInYear(year)
    ensures 0 <= month < 12
    ensures DaysBeforeMonth(year, month) <= doy < DaysBeforeMonth(year, month + 1)
    ensures mday == doy - DaysBeforeMonth(year, month)
  {
    MonthTable(year, 0);
    var t := doy;
    month := 0;
    while month < 12 && t >= MonthLength(year, month)
      invariant 0 <= month <= 12
      invariant 0 <= t
      invariant t + DaysBeforeMonth(year, month) == doy
      decreases 12 - month
    {
      t := t - MonthLength(year, month);
      month := month + 1;
    }
    assert month < 12;
    assert DaysBeforeMonth(year, month + 1) == DaysBeforeMonth(year, month) + MonthLength(year, month);
    mday := t;
  }

  /** The date arithmetic of `fill_iso8601_timestamp`: seconds, minutes and
      hours by division, then the year and month loops. */
  method BreakDown(timestamp: int) returns (d: DateTime)
    requires 0 <= timestamp < 0x8000_0000
    ensures d == Civil(timestamp)
  {
    var t := timestamp;
    var second := t % 60;
    t := t / 60;
    var minute := t % 60;
    t := t / 60;
    var hour := t % 24;
    t := t / 24;
    var year, doy := YearOfDays(t);
    YearUnique(t, year, YearFrom(t, 0));
    MonthTable(year, 0);
    var month, mday := MonthOfDay(year, doy);
    MonthUnique(year, doy, month, MonthFrom(year, doy, 0));
    d := DateTime(1970 + year, month + 1, mday + 1, hour, minute, second);
    assert d == FromDays(t, hour, minute, second);
  }

  /** Appending five parts one by one appends them together. */
  lemma {:induction false} Assoc5(w: string, x: string, sep: char, y: string, z: string)
    ensures w + x + [sep] + y + [sep] + z == w + (x + [sep] + y + [sep] + z)
  {
  }

  /** Three fields and their two separators, written by five steps of the
      formatter. */
  method PutFields3(buf: string, i: int, ghost w: string, ghost orig: string,
                    a: nat, width: nat, sep: char, b: nat, c: nat) returns (r: string, i': int)
    requires WrittenSoFar(buf, w, orig) && i == |w| && |w| + width + 6 <= |orig|
    ensures WrittenSoFar(r, w + Fields3(a, width, sep, b, c), orig) && i' == i + width + 6
  {
    ghost var u := w;
    Assoc5(w, Digits(a, width), sep, Digits(b, 2), Digits(c, 2));
    r, i' := PutDigits(buf, i, u, orig, a, width);  u := u + Digits(a, width);
    r, i' := PutChar(r, i', u, orig, sep);          u := u + [sep];
    r, i' := PutDigits(r, i', u, orig, b, 2);       u := u + Digits(b, 2);
    r, i' := PutChar(r, i', u, orig, sep);          u := u + [sep];
    r, i' := PutDigits(r, i', u, orig, c, 2);       u := u + Digits(c, 2);
    assert u == w + Fields3(a, width, sep, b, c);
  }

  /** The text-writing half of `fill_iso8601_timestamp`. */
  method Format(buffer: string, d: DateTime, milli: nat) returns (buf: string, i: int)
    requires ValidDate(d) && |buffer| >= SIZE_ISO_8601
    ensures i == SIZE_ISO_8601
    ensures WrittenSoFar(buf, Iso8601(d, milli) + ['\0'], buffer)
  {
    ghost var w: string := [];
    buf := buffer;
    i := 0;
    assert WrittenSoFar(buf, w, buffer);
    buf, i := PutFields3(buf, i, w, buffer, d.year, 4, '-', d.month, d.day);
    assert w + Fields3(d.year, 4, '-', d.month, d.day) == Fields3(d.year, 4, '-', d.month, d.day);
    w := Fields3(d.year, 4, '-', d.month, d.day);
    buf, i := PutChar(buf, i, w, buffer, 'T');               w := w + "T";
    buf, i := PutFields3(buf, i, w, buffer, d.hour, 2, ':', d.minute, d.second);
    w := w + Fields3(d.hour, 2, ':', d.minute, d.second);
    buf, i := PutChar(buf, i, w, buffer, '.');               w := w + ".";
    buf, i := PutDigits(buf, i, w, buffer, milli, 3);       w := w + Digits(milli, 3);
    buf, i := PutChar(buf, i, w, buffer, 'Z');               w := w + "Z";
    buf, i := PutChar(buf, i, w, buffer, '\0');              w := w + ['\0'];
  }

  /** `fill_iso8601_timestamp`. With room for fewer than 25 characters it
      only reports the size it needs; otherwise it writes the text and a NUL
      over the first 25 characters of the buffer. */
  method FillIso8601(timestamp: int, milli: int, buffer: string, length: int)
      returns (status: int, buf: string, newLength: int)
    requires 0 <= timestamp < 0x8000_0000
    requires 0 <= milli
    requires length >= SIZE_ISO_8601 ==> |buffer| >= length
    ensures newLength == SIZE_ISO_8601
    ensures length < SIZE_ISO_8601 ==> status == E_BUFFER_TOO_SMALL && buf == buffer
    ensures length >= SIZE_ISO_8601 ==>
              && status == E_OK
              && |buf| == |buffer|
              && buf[..SIZE_ISO_8601] == Iso8601(Civil(timestamp), milli) + ['\0']
              && buf[SIZE_ISO_8601..] == buffer[SIZE_ISO_8601..]
  {
    if length < SIZE_ISO_8601 {
      return E_BUFFER_TOO_SMALL, buffer, SIZE_ISO_8601;
    }
    var d := BreakDown(timestamp);
    buf, newLength := Format(buffer, d, milli);
    status := E_OK;
  }
}
