/**
 * Calendar timestamps as HealthKit writes them, `YYYY-MM-DD HH:MM:SS +HHMM`,
 * and the six integer components the cleaning step takes from them: year,
 * month, day, hour, minute and weekday (0 = Monday), in the proleptic Gregorian
 * calendar, read on the wall clock of the timestamp's own offset.
 */
module Calendar {
  import opened Wrappers

  datatype DateTime = DateTime(year: int, month: int, day: int, hour: int, minute: int, second: int, offsetMinutes: int)

  predicate IsLeapYear(y: int)
  {
    y % 4 == 0 && (y % 100 != 0 || y % 400 == 0)
  }

  function DaysInMonth(y: int, m: int): (n: int)
    requires 1 <= m <= 12
    ensures 28 <= n <= 31
  {
    if m == 2 then (if IsLeapYear(y) then 29 else 28)
    else if m == 4 || m == 6 || m == 9 || m == 11 then 30
    else 31
  }

  predicate ValidDate(y: int, m: int, d: int)
  {
    1 <= y && 1 <= m <= 12 && 1 <= d <= DaysInMonth(y, m)
  }

  /** Days in the months of year `y` before month `m`. */
  function DaysBeforeMonth(y: int, m: int): int
    requires 1 <= m <= 12
  {
    var before := [0, 31, 59, 90, 120, 151, 181, 212, 243, 273, 304, 334][m - 1];
    before + (if m > 2 && IsLeapYear(y) then 1 else 0)
  }

  /** Days in the years before year `y`, counted from 0001-01-01. */
  function DaysBeforeYear(y: int): int
    requires 1 <= y
  {
    var z := y - 1;
    z * 365 + z / 4 - z / 100 + z / 400
  }

  /** The day's number, 0001-01-01 being day 1 (a Monday). */
  function DayOrdinal(y: int, m: int, d: int): int
    requires ValidDate(y, m, d)
  {
    DaysBeforeYear(y) + DaysBeforeMonth(y, m) + d
  }

  /** The weekday, Monday = 0 through Sunday = 6. */
  function Weekday(y: int, m: int, d: int): int
    requires ValidDate(y, m, d)
  {
    (DayOrdinal(y, m, d) + 6) % 7
  }

  /** The calendar day after `(y, m, d)`. */
  function NextDay(y: int, m: int, d: int): (r: (int, int, int))
    requires ValidDate(y, m, d)
    ensures ValidDate(r.0, r.1, r.2)
  {
    if d < DaysInMonth(y, m) then (y, m, d + 1)
    else if m < 12 then (y, m + 1, 1)
    else (y + 1, 1, 1)
  }

  /** `(z + 1) / k - z / k` is 1 exactly when `k` divides `z + 1`. */
  lemma DivisionStep(z: nat)
    ensures (z + 1) / 4 - z / 4 == (if (z + 1) % 4 == 0 then 1 else 0)
    ensures (z + 1) / 100 - z / 100 == (if (z + 1) % 100 == 0 then 1 else 0)
    ensures (z + 1) / 400 - z / 400 == (if (z + 1) % 400 == 0 then 1 else 0)
  {
  }

  /** A year has 366 days when it is a leap year and 365 otherwise. */
  lemma YearLength(y: int)
    requires 1 <= y
    ensures DaysBeforeYear(y + 1) == DaysBeforeYear(y) + (if IsLeapYear(y) then 366 else 365)
  {
    var z := y - 1;
    DivisionStep(z);
    DivisorsNest(y);
    assert DaysBeforeYear(y + 1) - DaysBeforeYear(y)
      == 365 + ((z + 1) / 4 - z / 4) - ((z + 1) / 100 - z / 100) + ((z + 1) / 400 - z / 400);
  }

  /** A multiple of 400 is one of 100, and a multiple of 100 one of 4. */
  lemma DivisorsNest(y: int)
    ensures y % 400 == 0 ==> y % 100 == 0
    ensures y % 100 == 0 ==> y % 4 == 0
  {
    if y % 400 == 0 {
      HundredsOf(4 * (y / 400), y);
    }
    if y % 100 == 0 {
      FoursOf(25 * (y / 100), y);
    }
  }

  lemma HundredsOf(j: int, y: int)
    requires y == 100 * j
    ensures y % 100 == 0
  {
  }

  lemma FoursOf(j: int, y: int)
    requires y == 4 * j
    ensures y % 4 == 0
  {
  }

  /** Adding one before or after taking the remainder by 7 agrees. */
  lemma SevenStep(a: int)
    ensures (a + 1) % 7 == (a % 7 + 1) % 7
  {
  }

  /** Consecutive days have consecutive numbers. */
  lemma NextDayOrdinal(y: int, m: int, d: int)
    requires ValidDate(y, m, d)
    ensures var (y2, m2, d2) := NextDay(y, m, d); DayOrdinal(y2, m2, d2) == DayOrdinal(y, m, d) + 1
  {
    if d == DaysInMonth(y, m) && m == 12 {
      YearLength(y);
    }
  }

  /** The weekday of the next day is the next weekday, Sunday wrapping to Monday. */
  lemma WeekdayAdvances(y: int, m: int, d: int)
    requires ValidDate(y, m, d)
    ensures var (y2, m2, d2) := NextDay(y, m, d); Weekday(y2, m2, d2) == (Weekday(y, m, d) + 1) % 7
  {
    NextDayOrdinal(y, m, d);
    SevenStep(DayOrdinal(y, m, d) + 6);
  }

  /** Two fixed points: 1970-01-01 was a Thursday, 2023-01-15 a Sunday. */
  lemma WeekdayAnchors()
    ensures Weekday(1970, 1, 1) == 3
    ensures Weekday(2023, 1, 15) == 6
  {
  }

  // ---------------------------------------------------------------------------
  // The text form
  // ---------------------------------------------------------------------------

  predicate IsDigit(c: char)
  {
    '0' <= c <= '9'
  }

  function DigitValue(c: char): (n: int)
    requires IsDigit(c)
    ensures 0 <= n <= 9
  {
    c as int - '0' as int
  }

  function DigitChar(n: int): (c: char)
    requires 0 <= n <= 9
    ensures IsDigit(c) && DigitValue(c) == n
  {
    ('0' as int + n) as char
  }

  /** Digits at positions `i` and `i + 1`. */
  predicate DigitPairAt(s: string, i: nat)
  {
    i + 1 < |s| && IsDigit(s[i]) && IsDigit(s[i + 1])
  }

  /** Text of the shape `YYYY-MM-DD HH:MM:SS +HHMM` (or `-HHMM`). */
  predicate Shaped(s: string)
  {
    && |s| == 25
    && DigitPairAt(s, 0) && DigitPairAt(s, 2) && s[4] == '-' && DigitPairAt(s, 5) && s[7] == '-'
    && DigitPairAt(s, 8) && s[10] == ' ' && DigitPairAt(s, 11) && s[13] == ':' && DigitPairAt(s, 14)
    && s[16] == ':' && DigitPairAt(s, 17) && s[19] == ' ' && (s[20] == '+' || s[20] == '-')
    && DigitPairAt(s, 21) && DigitPairAt(s, 23)
  }

  /** The two-digit number at positions `i` and `i + 1`. */
  function TwoDigits(s: string, i: nat): (n: int)
    requires DigitPairAt(s, i)
    ensures 0 <= n <= 99
  {
    DigitValue(s[i]) * 10 + DigitValue(s[i + 1])
  }

  /** Python's `date(1970, 1, 1).toordinal()`: the day number of the Unix epoch. */
  const EPOCH_ORDINAL := 719163

  /** The instant a timestamp names, in seconds from 1970-01-01 00:00:00 UTC. */
  function EpochSeconds(t: DateTime): int
    requires ValidDate(t.year, t.month, t.day)
  {
    (DayOrdinal(t.year, t.month, t.day) - EPOCH_ORDINAL) * 86400
      + t.hour * 3600 + t.minute * 60 + t.second - t.offsetMinutes * 60
  }

  /**
   * A nanosecond pandas `Timestamp` holds the instants within 2^63 - 1
   * nanoseconds of the epoch, 1677-09-21 00:12:43.145224193 to
   * 2262-04-11 23:47:16.854775807 UTC; these are the whole seconds among them.
   */
  const MIN_SECONDS := -9223372036
  const MAX_SECONDS := 9223372036

  /** A timestamp whose fields name a real instant that a pandas `Timestamp` can hold. */
  predicate Valid(t: DateTime)
  {
    && ValidDate(t.year, t.month, t.day)
    && 0 <= t.hour <= 23 && 0 <= t.minute <= 59 && 0 <= t.second <= 59
    && -(23 * 60 + 59) <= t.offsetMinutes <= 23 * 60 + 59
    && MIN_SECONDS <= EpochSeconds(t) <= MAX_SECONDS
  }

  /** Day numbers of the years before 1677 and after 2262. */
  lemma OrdinalBounds(y: int, m: int, d: int)
    requires ValidDate(y, m, d)
    ensures y < 1677 ==> DayOrdinal(y, m, d) <= 612163
    ensures y > 2262 ==> DayOrdinal(y, m, d) >= 826179
  {
    var z := y - 1;
    assert DaysBeforeMonth(y, m) + d <= 366;
    if y < 1677 {
      assert z / 4 <= 418 && z / 400 <= 4 && z / 100 >= 0;
    }
    if y > 2262 {
      assert z / 4 >= 565 && z / 400 >= 5 && z / 100 <= z / 4;
    }
  }

  /** The instants a `Timestamp` holds fall, on any wall clock, in the years 1677 to 2262. */
  lemma ValidYears(t: DateTime)
    requires Valid(t)
    ensures 1677 <= t.year <= 2262
  {
    OrdinalBounds(t.year, t.month, t.day);
  }

  /**
   * `pd.to_datetime(s, errors='coerce')` on the shape HealthKit writes: a
   * timestamp, or `None` (NaT) for text of another shape, an impossible date or
   * time, or an instant outside what a pandas `Timestamp` holds.
   */
  function ParseTimestamp(s: string): (r: Option<DateTime>)
    ensures r.Some? ==> Valid(r.value)
    ensures r.Some? ==> Shaped(s)
  {
    if !Shaped(s) then None
    else
      var offset := TwoDigits(s, 21) * 60 + TwoDigits(s, 23);
      var t := DateTime(TwoDigits(s, 0) * 100 + TwoDigits(s, 2), TwoDigits(s, 5), TwoDigits(s, 8),
                        TwoDigits(s, 11), TwoDigits(s, 14), TwoDigits(s, 17),
                        if s[20] == '-' then -offset else offset);
      if Valid(t) && TwoDigits(s, 21) <= 23 && TwoDigits(s, 23) <= 59 then Some(t) else None
  }

  /** The text form of a valid timestamp (`+` for a zero offset). */
  function Format(t: DateTime): (s: string)
    requires Valid(t)
    ensures |s| == 25
  {
    var off := if t.offsetMinutes < 0 then -t.offsetMinutes else t.offsetMinutes;
    var century := t.year / 100;
    var yy := t.year % 100;
    var hh := off / 60;
    var mm := off % 60;
    [ DigitChar(century / 10), DigitChar(century % 10), DigitChar(yy / 10), DigitChar(yy % 10), '-',
      DigitChar(t.month / 10), DigitChar(t.month % 10), '-', DigitChar(t.day / 10), DigitChar(t.day % 10), ' ',
      DigitChar(t.hour / 10), DigitChar(t.hour % 10), ':', DigitChar(t.minute / 10), DigitChar(t.minute % 10), ':',
      DigitChar(t.second / 10), DigitChar(t.second % 10), ' ', if t.offsetMinutes < 0 then '-' else '+',
      DigitChar(hh / 10), DigitChar(hh % 10), DigitChar(mm / 10), DigitChar(mm % 10) ]
  }

  /** A number below 100 written as two digits at `i` reads back as itself. */
  lemma TwoDigitsOf(s: string, i: nat, n: int)
    requires 0 <= n <= 99 && i + 1 < |s|
    requires s[i] == DigitChar(n / 10) && s[i + 1] == DigitChar(n % 10)
    ensures DigitPairAt(s, i) && TwoDigits(s, i) == n
  {
  }

  /** The text form has the shape the parser reads. */
  lemma FormatShaped(t: DateTime)
    requires Valid(t)
    ensures Shaped(Format(t))
  {
    var s := Format(t);
    assert DigitPairAt(s, 0) && DigitPairAt(s, 2) && s[4] == '-';
    assert DigitPairAt(s, 5) && DigitPairAt(s, 8) && DigitPairAt(s, 11);
    assert DigitPairAt(s, 14) && DigitPairAt(s, 17) && DigitPairAt(s, 21) && DigitPairAt(s, 23);
  }

  /** Each field of the text form reads back as the value written. */
  lemma FormatFields(t: DateTime)
    requires Valid(t)
    ensures var s := Format(t);
      && Shaped(s)
      && TwoDigits(s, 0) * 100 + TwoDigits(s, 2) == t.year
      && TwoDigits(s, 5) == t.month && TwoDigits(s, 8) == t.day
      && TwoDigits(s, 11) == t.hour && TwoDigits(s, 14) == t.minute && TwoDigits(s, 17) == t.second
      && (s[20] == '-' <==> t.offsetMinutes < 0)
      && TwoDigits(s, 21) * 60 + TwoDigits(s, 23) == (if t.offsetMinutes < 0 then -t.offsetMinutes else t.offsetMinutes)
      && TwoDigits(s, 21) <= 23 && TwoDigits(s, 23) <= 59
  {
    FormatShaped(t);
    var s := Format(t);
    var off := if t.offsetMinutes < 0 then -t.offsetMinutes else t.offsetMinutes;
    TwoDigitsOf(s, 0, t.year / 100);
    TwoDigitsOf(s, 2, t.year % 100);
    TwoDigitsOf(s, 5, t.month);
    TwoDigitsOf(s, 8, t.day);
    TwoDigitsOf(s, 11, t.hour);
    TwoDigitsOf(s, 14, t.minute);
    TwoDigitsOf(s, 17, t.second);
    TwoDigitsOf(s, 21, off / 60);
    TwoDigitsOf(s, 23, off % 60);
  }

  /** Parsing gives back every valid timestamp from its text form. */
  lemma ParseFormatRoundTrip(t: DateTime)
    requires Valid(t)
    ensures ParseTimestamp(Format(t)) == Some(t)
  {
    FormatFields(t);
  }

  /** Two digit pairs that read as the same number are the same characters. */
  lemma SamePair(s: string, f: string, i: nat)
    requires DigitPairAt(s, i) && DigitPairAt(f, i) && TwoDigits(s, i) == TwoDigits(f, i)
    ensures s[i] == f[i] && s[i + 1] == f[i + 1]
  {
    assert DigitValue(s[i]) == DigitValue(f[i]);
  }

  /** The fields of a parsed timestamp are the numbers written in the text. */
  lemma ParsedFields(s: string)
    requires ParseTimestamp(s).Some?
    ensures var t := ParseTimestamp(s).value;
      && Shaped(s)
      && TwoDigits(s, 0) * 100 + TwoDigits(s, 2) == t.year
      && TwoDigits(s, 5) == t.month && TwoDigits(s, 8) == t.day
      && TwoDigits(s, 11) == t.hour && TwoDigits(s, 14) == t.minute && TwoDigits(s, 17) == t.second
      && TwoDigits(s, 21) * 60 + TwoDigits(s, 23) == (if t.offsetMinutes < 0 then -t.offsetMinutes else t.offsetMinutes)
      && (t.offsetMinutes < 0 ==> s[20] == '-') && (t.offsetMinutes > 0 ==> s[20] == '+')
      && TwoDigits(s, 21) <= 23 && TwoDigits(s, 23) <= 59
  {
  }

  /** Two texts of the shape with the same fields agree everywhere but the offset sign. */
  lemma SameFields(s: string, f: string)
    requires Shaped(s) && Shaped(f)
    requires TwoDigits(s, 0) * 100 + TwoDigits(s, 2) == TwoDigits(f, 0) * 100 + TwoDigits(f, 2)
    requires TwoDigits(s, 5) == TwoDigits(f, 5) && TwoDigits(s, 8) == TwoDigits(f, 8)
    requires TwoDigits(s, 11) == TwoDigits(f, 11) && TwoDigits(s, 14) == TwoDigits(f, 14)
    requires TwoDigits(s, 17) == TwoDigits(f, 17)
    requires TwoDigits(s, 21) * 60 + TwoDigits(s, 23) == TwoDigits(f, 21) * 60 + TwoDigits(f, 23)
    requires TwoDigits(s, 23) <= 59 && TwoDigits(f, 23) <= 59
    ensures forall k | 0 <= k < 25 && k != 20 :: f[k] == s[k]
  {
    SamePair(s, f, 0);
    SamePair(s, f, 2);
    SamePair(s, f, 5);
    SamePair(s, f, 8);
    SamePair(s, f, 11);
    SamePair(s, f, 14);
    SamePair(s, f, 17);
    SamePair(s, f, 21);
    SamePair(s, f, 23);
  }

  /**
   * A text that parses is the text form of its timestamp, except that `-0000`
   * reads as a zero offset, which is written `+0000`.
   */
  lemma FormatParseRoundTrip(s: string)
    requires ParseTimestamp(s).Some?
    ensures var t := ParseTimestamp(s).value;
      || Format(t) == s
      || (s[20] == '-' && t.offsetMinutes == 0 && Format(t) == s[20 := '+'])
  {
    var t := ParseTimestamp(s).value;
    ParsedFields(s);
    FormatFields(t);
    var f := Format(t);
    SameFields(s, f);
    if f[20] == s[20] {
      assert f == s;
    } else {
      assert f == s[20 := '+'];
    }
  }

  /** The six components the cleaning step adds, for a parsed timestamp. */
  function Components(t: DateTime): (c: seq<int>)
    requires Valid(t)
    ensures |c| == 6 && 0 <= c[5] <= 6
  {
    [t.year, t.month, t.day, t.hour, t.minute, Weekday(t.year, t.month, t.day)]
  }
}
