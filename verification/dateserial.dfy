/**
 * The date-serial encoder `convertDateTime`: text `YYYY-MM-DD[ hh:mm:ss]`
 * becomes the spreadsheet serial number of the 1900 date system, days since
 * 1899-12-31 with the fictitious 1900-02-29 as day 60. The time of day is
 * kept as whole seconds; the serial the library writes is
 * `days + seconds / 86400`.
 */
module DateSerial {
  import opened Common

  /** A serial number: whole days plus `seconds` / 86400 of a day. */
  datatype Serial = Serial(days: int, seconds: nat)

  /** Gregorian leap years: divisible by 400, or by 4 and not by 100. */
  predicate IsLeap(y: int)
  {
    y % 400 == 0 || (y % 4 == 0 && y % 100 != 0)
  }

  function LeapDay(y: int): int { if IsLeap(y) then 1 else 0 }

  /** The `$mdays` table: days in month `m` of year `y`. */
  function MonthDays(y: int, m: int): int
    requires 1 <= m <= 12
  {
    if m == 2 then 28 + LeapDay(y)
    else if m == 4 || m == 6 || m == 9 || m == 11 then 30
    else 31
  }

  /**
   * `array_sum(array_slice($mdays, 0, $month - 1))`: days in the months
   * before `m`, as running totals (`DaysBeforeIsSum` ties them to the table).
   */
  function DaysBefore(y: int, m: int): int
    requires 1 <= m <= 12
  {
    [0, 31, 59, 90, 120, 151, 181, 212, 243, 273, 304, 334][m - 1] + (if m > 2 then LeapDay(y) else 0)
  }

  /** The running totals add up the month lengths one by one. */
  lemma DaysBeforeIsSum(y: int, m: int)
    requires 1 <= m < 12
    ensures DaysBefore(y, m + 1) == DaysBefore(y, m) + MonthDays(y, m)
    ensures DaysBefore(y, 1) == 0
  {
  }

  /** The dates that pass the boundary checks of `convertDateTime`. */
  predicate ValidDate(y: int, m: int, d: int)
  {
    1900 <= y <= 9999 && 1 <= m <= 12 && 1 <= d <= MonthDays(y, m)
  }

  /** The day count the library accumulates before its 1900 leap-day correction. */
  function RawDays(y: int, m: int, d: int): int
    requires ValidDate(y, m, d)
  {
    var range := y - 1900;
    d + DaysBefore(y, m) + range * 365 + range / 4 - range / 100 + (range + 300) / 400 - LeapDay(y)
  }

  /**
   * The day part of `convertDateTime` for a parsed date: two epoch spellings
   * give 0, 1900-02-29 gives 60, a date failing the boundary checks gives 0
   * (only the time remains), and any other count above 59 is moved up by one
   * to make room for the fictitious leap day.
   */
  function SerialDays(y: int, m: int, d: int): int
  {
    if y == 1899 && m == 12 && d == 31 then 0
    else if y == 1900 && m == 1 && d == 0 then 0
    else if y == 1900 && m == 2 && d == 29 then 60
    else if !ValidDate(y, m, d) then 0
    else
      var days := RawDays(y, m, d);
      if days > 59 then days + 1 else days
  }

  // ---------------------------------------------------------------------
  // Parsing: the first `\d{4}-\d{2}-\d{2}` and the first `\d{2}:\d{2}:\d{2}`
  // ---------------------------------------------------------------------

  predicate DateAt(s: string, i: nat)
  {
    i + 10 <= |s| && AllDigits(s[i..i + 4]) && s[i + 4] == '-' && AllDigits(s[i + 5..i + 7])
    && s[i + 7] == '-' && AllDigits(s[i + 8..i + 10])
  }

  predicate TimeAt(s: string, i: nat)
  {
    i + 8 <= |s| && AllDigits(s[i..i + 2]) && s[i + 2] == ':' && AllDigits(s[i + 3..i + 5])
    && s[i + 5] == ':' && AllDigits(s[i + 6..i + 8])
  }

  /** Year, month and day of the first date in `s` at or after `i`, all 0 when there is none. */
  function FindDate(s: string, i: nat): (ymd: (nat, nat, nat))
    decreases |s| - i
  {
    if i + 10 > |s| then (0, 0, 0)
    else if DateAt(s, i) then (DigitsValue(s[i..i + 4]), DigitsValue(s[i + 5..i + 7]), DigitsValue(s[i + 8..i + 10]))
    else FindDate(s, i + 1)
  }

  /** Seconds of the day of the first time in `s` at or after `i`, 0 when there is none. */
  function FindSeconds(s: string, i: nat): nat
    decreases |s| - i
  {
    if i + 8 > |s| then 0
    else if TimeAt(s, i) then
      DigitsValue(s[i..i + 2]) * 3600 + DigitsValue(s[i + 3..i + 5]) * 60 + DigitsValue(s[i + 6..i + 8])
    else FindSeconds(s, i + 1)
  }

  /** `convertDateTime`, with the time of day as whole seconds rather than a fraction. */
  function ConvertDateTime(s: string): Serial
  {
    var (y, m, d) := FindDate(s, 0);
    Serial(SerialDays(y, m, d), FindSeconds(s, 0))
  }

  // ---------------------------------------------------------------------
  // Properties
  // ---------------------------------------------------------------------

  /** January 1900 counts from day 1. */
  lemma SerialJanuary1900(d: int)
    requires 1 <= d <= 31
    ensures SerialDays(1900, 1, d) == d
  {
  }

  /** February 1900 follows on, and its fictitious 29th is day 60. */
  lemma SerialFebruary1900(d: int)
    requires 1 <= d <= 29
    ensures SerialDays(1900, 2, d) == 31 + d
  {
    assert !IsLeap(1900);
  }

  /** 1900-03-01 is day 61: the day after the fictitious leap day. */
  lemma SerialMarch1900()
    ensures SerialDays(1900, 3, 1) == 61
  {
    assert !IsLeap(1900);
  }

  /** 2000-01-01, a leap year divisible by 400, is day 36526. */
  lemma SerialExample2000()
    ensures SerialDays(2000, 1, 1) == 36526
  {
    assert IsLeap(2000);
  }

  /** Dates the boundary checks refuse keep only the time of day. */
  lemma InvalidDateGivesZero(y: int, m: int, d: int)
    requires !ValidDate(y, m, d)
    requires !(y == 1900 && m == 2 && d == 29)
    ensures SerialDays(y, m, d) == 0
  {
  }

  /** The calendar successor of a date. */
  function NextDate(y: int, m: int, d: int): (int, int, int)
    requires ValidDate(y, m, d)
  {
    if d < MonthDays(y, m) then (y, m, d + 1)
    else if m < 12 then (y, m + 1, 1)
    else (y + 1, 1, 1)
  }

  /** Every date from 1900-03-01 on is counted above 59, so all of them get the leap-day correction. */
  lemma RawDaysAfterFebruary1900(y: int, m: int, d: int)
    requires ValidDate(y, m, d) && (y > 1900 || m >= 3)
    ensures RawDays(y, m, d) >= 60
  {
    if y > 1900 {
      var range := y - 1900;
      assert range / 100 <= range;
    }
  }

  /** Stepping a count over a multiple of `k` adds one to its quotient by `k`. */
  lemma QuotientStep(n: int, k: int)
    requires n >= 0 && (k == 4 || k == 100 || k == 400)
    ensures (n + 1) / k == n / k + (if (n + 1) % k == 0 then 1 else 0)
  {
    if k == 4 {
    } else if k == 100 {
    } else {
    }
  }

  /** From 31 December to 1 January the raw count moves by exactly one day. */
  lemma {:induction false} YearBoundary(y: int)
    requires 1900 <= y < 9999
    ensures RawDays(y + 1, 1, 1) == RawDays(y, 12, 31) + 1
  {
    var r := y - 1900;
    assert RawDays(y, 12, 31) == 365 + r * 365 + r / 4 - r / 100 + (r + 300) / 400;
    assert RawDays(y + 1, 1, 1) == 1 + (r + 1) * 365 + (r + 1) / 4 - (r + 1) / 100 + (r + 301) / 400 - LeapDay(y + 1);
    LeapCountStep(y);
  }

  /** The leap-day count of the day formula grows by one exactly into a leap year. */
  lemma LeapCountStep(y: int)
    requires 1900 <= y
    ensures var r := y - 1900;
      (r + 1) / 4 - (r + 1) / 100 + (r + 301) / 400 == r / 4 - r / 100 + (r + 300) / 400 + LeapDay(y + 1)
  {
    QuarterStep(y);
    CenturyStep(y);
    QuadricentennialStep(y);
  }

  lemma QuarterStep(y: int)
    requires 1900 <= y
    ensures (y - 1899) / 4 == (y - 1900) / 4 + (if (y + 1) % 4 == 0 then 1 else 0)
  {
    QuotientStep(y - 1900, 4);
    assert (y - 1899) % 4 == (y + 1) % 4;
  }

  lemma CenturyStep(y: int)
    requires 1900 <= y
    ensures (y - 1899) / 100 == (y - 1900) / 100 + (if (y + 1) % 100 == 0 then 1 else 0)
  {
    QuotientStep(y - 1900, 100);
    assert (y - 1899) % 100 == (y + 1) % 100;
  }

  lemma QuadricentennialStep(y: int)
    requires 1900 <= y
    ensures (y - 1599) / 400 == (y - 1600) / 400 + (if (y + 1) % 400 == 0 then 1 else 0)
  {
    QuotientStep(y - 1600, 400);
    assert (y - 1599) % 400 == (y + 1) % 400;
  }

  /**
   * From 1900-03-01 on, the serials of consecutive valid dates differ by
   * exactly one day: the encoding is the ordinary day count there.
   */
  lemma {:induction false} ConsecutiveDates(y: int, m: int, d: int)
    requires ValidDate(y, m, d) && (y > 1900 || m >= 3)
    requires var (y', m', d') := NextDate(y, m, d); ValidDate(y', m', d')
    ensures var (y', m', d') := NextDate(y, m, d); SerialDays(y', m', d') == SerialDays(y, m, d) + 1
  {
    var (y', m', d') := NextDate(y, m, d);
    RawDaysAfterFebruary1900(y, m, d);
    if d < MonthDays(y, m) {
      assert RawDays(y', m', d') == RawDays(y, m, d) + 1;
    } else if m < 12 {
      DaysBeforeIsSum(y, m);
      assert RawDays(y', m', d') == RawDays(y, m, d) + 1;
    } else {
      YearBoundary(y);
    }
  }

  // ---------------------------------------------------------------------
  // Parsing round trip
  // ---------------------------------------------------------------------

  function Digit(n: nat): char
    requires n < 10
  {
    ('0' as int + n) as char
  }

  /** `n` written with exactly two digits. */
  function Pad2(n: nat): (s: string)
    requires n < 100
    ensures |s| == 2 && AllDigits(s) && DigitsValue(s) == n
  {
    var s := [Digit(n / 10), Digit(n % 10)];
    assert s[..1] == [Digit(n / 10)] && s[..1][..0] == [];
    assert DigitsValue(s[..1]) == n / 10;
    s
  }

  /** `n` written with exactly four digits. */
  function Pad4(n: nat): (s: string)
    requires n < 10000
    ensures |s| == 4 && AllDigits(s) && DigitsValue(s) == n
  {
    var s := Pad2(n / 100) + Pad2(n % 100);
    assert s[..3] == Pad2(n / 100) + [s[2]];
    assert s[..2] == Pad2(n / 100);
    s
  }

  /** The `YYYY-MM-DD` text of a date. */
  function DateText(y: nat, m: nat, d: nat): (s: string)
    requires y < 10000 && m < 100 && d < 100
  {
    Pad4(y) + "-" + Pad2(m) + "-" + Pad2(d)
  }

  /** The `hh:mm:ss` text of a time of day. */
  function TimeText(h: nat, mi: nat, sec: nat): (s: string)
    requires h < 100 && mi < 100 && sec < 100
  {
    Pad2(h) + ":" + Pad2(mi) + ":" + Pad2(sec)
  }

  lemma DateTextFound(s: string, y: nat, m: nat, d: nat)
    requires y < 10000 && m < 100 && d < 100
    requires |s| >= 10 && s[..10] == DateText(y, m, d)
    ensures FindDate(s, 0) == (y, m, d)
  {
    var t := DateText(y, m, d);
    assert s[0..4] == t[0..4] == Pad4(y);
    assert s[5..7] == t[5..7] == Pad2(m);
    assert s[8..10] == t[8..10] == Pad2(d);
  }

  /** A bare date converts to its day serial and no time of day. */
  lemma {:induction false} ConvertDate(y: nat, m: nat, d: nat)
    requires y < 10000 && m < 100 && d < 100
    ensures ConvertDateTime(DateText(y, m, d)) == Serial(SerialDays(y, m, d), 0)
  {
    var s := DateText(y, m, d);
    DateTextFound(s, y, m, d);
    assert !IsDigit(s[4]);
    assert !TimeAt(s, 0) && !TimeAt(s, 1) && !TimeAt(s, 2);
    assert FindSeconds(s, 3) == 0;
    assert FindSeconds(s, 1) == FindSeconds(s, 2) == FindSeconds(s, 3);
  }

  /** `2024-03-01` is serial day 45352, with no time of day. */
  lemma {:induction false} ConvertExample2024()
    ensures ConvertDateTime(DateText(2024, 3, 1)) == Serial(45352, 0)
  {
    ConvertDate(2024, 3, 1);
    assert IsLeap(2024);
    assert RawDays(2024, 3, 1) == 45351;
  }

  /** A date and a time convert to the date's day serial and the time's seconds of the day. */
  lemma {:induction false} ConvertDateAndTime(y: nat, m: nat, d: nat, h: nat, mi: nat, sec: nat)
    requires y < 10000 && m < 100 && d < 100 && h < 100 && mi < 100 && sec < 100
    ensures ConvertDateTime(DateText(y, m, d) + " " + TimeText(h, mi, sec))
         == Serial(SerialDays(y, m, d), h * 3600 + mi * 60 + sec)
  {
    var date, time := DateText(y, m, d), TimeText(h, mi, sec);
    var s := date + " " + time;
    assert s[..10] == date;
    DateTextFound(s, y, m, d);
    assert s[11..] == time;
    assert forall i :: 2 <= i < 13 ==> s[i] != ':';
    var i := 0;
    while i < 11
      invariant 0 <= i <= 11
      invariant FindSeconds(s, 0) == FindSeconds(s, i)
    {
      assert !TimeAt(s, i);
      i := i + 1;
    }
    assert s[11..13] == Pad2(h) && s[14..16] == Pad2(mi) && s[17..19] == Pad2(sec);
  }
}
