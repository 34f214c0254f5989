/** The Vietnam business day: date arithmetic of ECMA-262 section 21.4.1, the YYYY-MM-DD keys and their UTC ranges.
    Instants are milliseconds since the epoch; None stands for an Invalid Date. */
module Calendar {
  import opened Types
  import opened Arithmetic
  import opened Decimal

  const MS_PER_DAY: int := 86_400_000
  const VN_OFFSET: int := 25_200_000

  /** The largest time value of a Date, 100,000,000 days. */
  const MAX_TIME: int := 8_640_000_000_000_000

  /** 1975-06-12T16:00:00Z: from here on Vietnam is at UTC+7. */
  const SETTLED: int := 171_820_800_000

  // ---- proleptic Gregorian days -------------------------------------------------------------

  predicate IsLeap(y: int) { y % 4 == 0 && (y % 100 != 0 || y % 400 == 0) }

  function Leap(y: int): (n: nat)
    ensures n <= 1
  {
    if IsLeap(y) then 1 else 0
  }

  function DayFromYear(y: int): int {
    365 * (y - 1970) + (y - 1969) / 4 - (y - 1901) / 100 + (y - 1601) / 400
  }

  /** Days of a year before month `m`, counted from 0; month 12 is the year's end. */
  function MonthStart(m: nat, leap: nat): (n: nat)
    requires m <= 12 && leap <= 1
    ensures m == 0 ==> n == 0
    ensures m == 12 ==> n == 365 + leap
  {
    match m
    case 0 => 0
    case 1 => 31
    case 2 => 59 + leap
    case 3 => 90 + leap
    case 4 => 120 + leap
    case 5 => 151 + leap
    case 6 => 181 + leap
    case 7 => 212 + leap
    case 8 => 243 + leap
    case 9 => 273 + leap
    case 10 => 304 + leap
    case 11 => 334 + leap
    case _ => 365 + leap
  }

  /** MakeDay(year, month, date) with the month counted from 0 and free to leave 0..11, and any date. */
  function MakeDay(y: int, m: int, date: int): int {
    DayFromYear(y + m / 12) + MonthStart(m % 12, Leap(y + m / 12)) + date - 1
  }

  /** YearFromTime, by search from `y`. */
  function YearFrom(day: int, y: int): (r: int)
    requires DayFromYear(y) <= day
    ensures y <= r && DayFromYear(r) <= day < DayFromYear(r + 1)
    decreases day - DayFromYear(y)
  {
    YearLength(y);
    if day < DayFromYear(y + 1) then y else YearFrom(day, y + 1)
  }

  /** The month, counted from 0, of a day of the year. */
  function MonthFrom(dayInYear: nat, leap: nat, m: nat): (r: nat)
    requires leap <= 1 && m < 12 && MonthStart(m, leap) <= dayInYear < 365 + leap
    ensures m <= r < 12 && MonthStart(r, leap) <= dayInYear < MonthStart(r + 1, leap)
    decreases 12 - m
  {
    if dayInYear < MonthStart(m + 1, leap) then m else MonthFrom(dayInYear, leap, m + 1)
  }

  datatype Civil = Civil(year: int, month: int, day: int)

  /** Year, month from 1 and day of the month of a day since 1970. */
  function CivilOf(day: nat): Civil {
    assert DayFromYear(1970) == 0;
    var y := YearFrom(day, 1970);
    YearLength(y);
    var m := MonthFrom(day - DayFromYear(y), Leap(y), 0);
    Civil(y, m + 1, day - DayFromYear(y) - MonthStart(m, Leap(y)) + 1)
  }

  function MonthLength(y: int, month: int): int
    requires 1 <= month <= 12
  {
    MonthStart(month, Leap(y)) - MonthStart(month - 1, Leap(y))
  }

  predicate ValidDate(c: Civil) {
    c.year >= 1970 && 1 <= c.month <= 12 && 1 <= c.day <= MonthLength(c.year, c.month)
  }

  function DayOf(c: Civil): int { MakeDay(c.year, c.month - 1, c.day) }

  lemma YearLength(y: int)
    ensures DayFromYear(y + 1) == DayFromYear(y) + 365 + Leap(y)
  {
    Step(y - 1969, 4);
    Step(y - 1901, 100);
    Step(y - 1601, 400);
  }

  lemma Step(x: int, k: int)
    requires k > 0
    ensures (x + 1) / k == x / k + (if (x + 1) % k == 0 then 1 else 0)
  {
    var q, r := x / k, x % k;
    if r == k - 1 {
      assert x + 1 == k * (q + 1);
      QuotientIs(x + 1, k, q + 1, 0);
    } else {
      QuotientIs(x + 1, k, q, r + 1);
    }
  }

  lemma {:induction false} YearsGrow(a: int, b: int)
    requires a <= b
    ensures DayFromYear(a) <= DayFromYear(b) && (a < b ==> DayFromYear(a + 1) <= DayFromYear(b))
    decreases b - a
  {
    if a < b {
      YearLength(a);
      YearsGrow(a + 1, b);
    }
  }

  lemma MonthsGrow(a: nat, b: nat, leap: nat)
    requires a <= b <= 12 && leap <= 1
    ensures MonthStart(a, leap) <= MonthStart(b, leap)
  {
  }

  /** Every day since 1970 is a valid date and MakeDay gives the day back. */
  lemma CivilRoundTrip(day: nat)
    ensures ValidDate(CivilOf(day)) && DayOf(CivilOf(day)) == day
  {
    var c := CivilOf(day);
    assert (c.month - 1) / 12 == 0 && (c.month - 1) % 12 == c.month - 1;
  }

  lemma YearUnique(day: nat, y: int)
    requires DayFromYear(y) <= day < DayFromYear(y + 1) && y >= 1970
    ensures DayFromYear(1970) == 0 && YearFrom(day, 1970) == y
  {
    assert DayFromYear(1970) == 0;
    hide DayFromYear;
    var r := YearFrom(day, 1970);
    if r < y { YearsGrow(r, y); }
    if y < r { YearsGrow(y, r); }
  }

  lemma MonthUnique(dayInYear: nat, leap: nat, m: nat)
    requires leap <= 1 && m < 12 && MonthStart(m, leap) <= dayInYear < MonthStart(m + 1, leap)
    ensures dayInYear < 365 + leap && MonthFrom(dayInYear, leap, 0) == m
  {
    MonthsGrow(m + 1, 12, leap);
    hide MonthStart;
    var r := MonthFrom(dayInYear, leap, 0);
    if r < m { MonthsGrow(r + 1, m, leap); }
    if m < r { MonthsGrow(m + 1, r, leap); }
  }

  lemma DayOfMonth(c: Civil)
    requires 1 <= c.month <= 12
    ensures DayOf(c) == DayFromYear(c.year) + MonthStart(c.month - 1, Leap(c.year)) + c.day - 1
  {
    assert (c.month - 1) / 12 == 0 && (c.month - 1) % 12 == c.month - 1;
  }

  lemma CivilIs(day: nat, y: int, m: nat)
    requires y >= 1970 && m < 12 && DayFromYear(y) <= day < DayFromYear(y + 1)
    requires MonthStart(m, Leap(y)) <= day - DayFromYear(y) < MonthStart(m + 1, Leap(y))
    ensures CivilOf(day) == Civil(y, m + 1, day - DayFromYear(y) - MonthStart(m, Leap(y)) + 1)
  {
    YearUnique(day, y);
    MonthUnique(day - DayFromYear(y), Leap(y), m);
    hide DayFromYear, MonthStart, IsLeap, Leap, YearFrom, MonthFrom;
  }

  /** Every valid date is the date of its day: the calendar is a bijection with the day numbers. */
  lemma DateRoundTrip(c: Civil)
    requires ValidDate(c)
    ensures DayOf(c) >= 0 && CivilOf(DayOf(c)) == c
  {
    hide DayFromYear, MonthStart, DayOf, IsLeap, CivilOf;
    DayOfMonth(c);
    MonthsGrow(c.month, 12, Leap(c.year));
    YearLength(c.year);
    YearsGrow(1970, c.year);
    Epoch();
    CivilIs(DayOf(c), c.year, c.month - 1);
  }

  lemma Epoch()
    ensures DayFromYear(1970) == 0
  {
  }

  lemma MonthLengthIs(y: int, month: int)
    requires 1 <= month <= 12
    ensures MonthLength(y, month)
            == if month in {4, 6, 9, 11} then 30
               else if month == 2 then (if y % 4 == 0 && (y % 100 != 0 || y % 400 == 0) then 29 else 28)
               else 31
  {
  }

  /** Day 0 is 1970-01-01. */
  lemma FirstDate()
    ensures CivilOf(0) == Civil(1970, 1, 1)
  {
    Epoch();
    YearLength(1970);
    CivilIs(0, 1970, 0);
  }

  /** And each day is followed by the next date of the Gregorian calendar: thirty days in April, June, September and
      November, 28 or in leap years 29 in February, 31 in all others. */
  lemma NextDate(day: nat)
    ensures
      var c := CivilOf(day);
      var length := if c.month in {4, 6, 9, 11} then 30
                    else if c.month == 2 then (if c.year % 4 == 0 && (c.year % 100 != 0 || c.year % 400 == 0) then 29 else 28)
                    else 31;
      CivilOf(day + 1)
      == if c.day < length then Civil(c.year, c.month, c.day + 1)
         else if c.month < 12 then Civil(c.year, c.month + 1, 1)
         else Civil(c.year + 1, 1, 1)
  {
    hide *;
    var c := CivilOf(day);
    DateOfDay(day);
    MonthLengthIs(c.year, c.month);
    var next := Successor(c);
    DateRoundTrip(next);
  }

  lemma DateOfDay(day: nat)
    ensures ValidDate(CivilOf(day)) && DayOf(CivilOf(day)) == day && 1 <= CivilOf(day).month <= 12
  {
    CivilRoundTrip(day);
    hide CivilOf, DayOf;
  }

  lemma Successor(c: Civil) returns (next: Civil)
    requires ValidDate(c)
    ensures ValidDate(next) && DayOf(next) == DayOf(c) + 1
    ensures next == if c.day < MonthLength(c.year, c.month) then Civil(c.year, c.month, c.day + 1)
                    else if c.month < 12 then Civil(c.year, c.month + 1, 1)
                    else Civil(c.year + 1, 1, 1)
  {
    hide DayFromYear, DayOf, MonthStart, IsLeap, Leap;
    DayOfMonth(c);
    if c.day < MonthLength(c.year, c.month) {
      next := Civil(c.year, c.month, c.day + 1);
    } else if c.month < 12 {
      next := Civil(c.year, c.month + 1, 1);
      LongEnough(c.year, c.month + 1);
    } else {
      next := Civil(c.year + 1, 1, 1);
      YearLength(c.year);
      LongEnough(c.year + 1, 1);
    }
    DayOfMonth(next);
  }

  /** MakeDay carries a month past December into the next year. */
  lemma MonthCarry(y: int, month: int)
    requires 1 <= month <= 12
    ensures MakeDay(y, month, 1) == MakeDay(y, month - 1, 1) + MonthLength(y, month)
  {
    if month == 12 {
      YearLength(y);
      assert 12 / 12 == 1 && 12 % 12 == 0 && 11 / 12 == 0 && 11 % 12 == 11;
    } else {
      assert month / 12 == 0 && month % 12 == month && (month - 1) / 12 == 0 && (month - 1) % 12 == month - 1;
    }
  }

  // ---- keys and ranges ----------------------------------------------------------------------

  /** The Vietnam day an instant falls on, counted from 1970-01-01. */
  function VnDay(t: int): int { (t + VN_OFFSET) / MS_PER_DAY }

  /** The instant a Vietnam day starts. */
  function StartOf(day: int): int { day * MS_PER_DAY - VN_OFFSET }

  /** A Vietnam day starts at 17:00 UTC of the day before. */
  lemma StartsAtSeventeen(day: int)
    ensures StartOf(day) == (day - 1) * 24 * 3_600_000 + 17 * 3_600_000
  {
  }

  lemma VnDayBounds(t: int, day: int)
    ensures VnDay(t) == day <==> StartOf(day) <= t < StartOf(day + 1)
  {
    var q := (t + VN_OFFSET) / MS_PER_DAY;
    assert q * MS_PER_DAY <= t + VN_OFFSET < (q + 1) * MS_PER_DAY;
  }

  predicate IsInstant(t: int) { SETTLED <= t <= MAX_TIME }

  lemma SettledDay(t: int)
    requires SETTLED <= t
    ensures VnDay(t) >= 1988
  {
  }

  function CivilText(c: Civil): string
    requires c.year >= 0 && c.month >= 0 && c.day >= 0
  {
    Text(c.year) + "-" + PadStart(Text(c.month), 2) + "-" + PadStart(Text(c.day), 2)
  }

  function DayKey(day: nat): string {
    CivilRoundTrip(day);
    CivilText(CivilOf(day))
  }

  /** getVNDateKey */
  function DateKey(t: int): string
    requires IsInstant(t)
  {
    SettledDay(t);
    DayKey(VnDay(t))
  }

  function TimeClip(t: int): Option<int> {
    if -MAX_TIME <= t <= MAX_TIME then Some(t) else None
  }

  /** Date.UTC of a year, a month counted from 0 and a date: two-digit years are of the twentieth century. */
  function DateUtc(y: int, m: int, date: int): Option<int> {
    TimeClip(MakeDay(if 0 <= y <= 99 then 1900 + y else y, m, date) * MS_PER_DAY)
  }

  /** Years below a hundred are read as years of the twentieth century, all others as they are. */
  lemma TwoDigitYears(y: int, m: int, date: int)
    ensures 0 <= y < 100 ==> DateUtc(y, m, date) == DateUtc(1900 + y, m, date)
    ensures y < 0 || y >= 100 ==> DateUtc(y, m, date) == TimeClip(MakeDay(y, m, date) * MS_PER_DAY)
  {
    hide MakeDay;
  }

  function Shift(t: Option<int>, ms: int): Option<int> {
    if t.Some? then TimeClip(t.value + ms) else None
  }

  datatype Range = Range(start: Option<int>, end: Option<int>)

  function DayRange(start: Option<int>): Range { Range(start, Shift(start, MS_PER_DAY)) }

  /** getVNDateRangeUtc */
  function DateRange(key: string): Range {
    var parts := Split(key, '-');
    if |parts| < 3 then DayRange(None)
    else
      var y, m, d := Number(parts[0]), Number(parts[1]), Number(parts[2]);
      if y.None? || m.None? || d.None? then DayRange(None)
      else DayRange(Shift(DateUtc(y.value, m.value - 1, d.value), -VN_OFFSET))
  }

  /** Comparisons with an Invalid Date are false. */
  predicate Within(t: int, range: Range) {
    range.start.Some? && range.end.Some? && range.start.value <= t < range.end.value
  }

  lemma NoDash(s: string)
    requires AllDigits(s)
    ensures '-' !in s
  {
  }

  lemma KeyParts(c: Civil)
    requires c.year >= 0 && c.month >= 0 && c.day >= 0
    ensures Split(CivilText(c), '-') == [Text(c.year), PadStart(Text(c.month), 2), PadStart(Text(c.day), 2)]
  {
    var y, m, d := Text(c.year), PadStart(Text(c.month), 2), PadStart(Text(c.day), 2);
    PaddedRoundTrip(c.month, 2);
    PaddedRoundTrip(c.day, 2);
    NoDash(y);
    NoDash(m);
    NoDash(d);
    SplitNone(d, '-');
    SplitFirst(m, '-', d);
    SplitFirst(y, '-', m + "-" + d);
    assert CivilText(c) == y + ['-'] + (m + "-" + d);
    assert m + "-" + d == m + ['-'] + d;
  }

  /** The numbers read back from a key are the ones it was made of. */
  lemma KeyNumbers(c: Civil)
    requires c.year >= 0 && c.month >= 0 && c.day >= 0
    ensures
      var parts := Split(CivilText(c), '-');
      |parts| == 3 && Number(parts[0]) == Some(c.year) && Number(parts[1]) == Some(c.month) && Number(parts[2]) == Some(c.day)
  {
    KeyParts(c);
    TextRoundTrip(c.year);
    PaddedRoundTrip(c.month, 2);
    PaddedRoundTrip(c.day, 2);
  }

  lemma YearOfDay(day: nat)
    requires day >= 1988
    ensures CivilOf(day).year >= 1975
  {
    var y := YearFrom(day, 1970);
    assert DayFromYear(1975) == 1826;
    if y < 1975 {
      YearsGrow(y + 1, 1975);
    }
  }

  /** The range of a day's key starts where the day starts; it has an end unless the day is the last one a Date can
      reach. */
  lemma RangeOfDay(day: nat)
    requires 1988 <= day <= 100_000_000
    ensures DateRange(DayKey(day)).start == Some(StartOf(day))
    ensures DateRange(DayKey(day)).end == if day < 100_000_000 then Some(StartOf(day + 1)) else None
  {
    hide *;
    var c := CivilOf(day);
    CivilRoundTrip(day);
    YearOfDay(day);
    KeyIs(day);
    KeyNumbers(c);
    RangeParsed(DayKey(day), c, day);
  }

  lemma KeyIs(day: nat)
    requires day >= 1988
    ensures ValidDate(CivilOf(day)) && CivilOf(day).year >= 0 && CivilOf(day).month >= 0 && CivilOf(day).day >= 0
    ensures DayKey(day) == CivilText(CivilOf(day))
  {
    hide CivilOf, CivilText;
    CivilRoundTrip(day);
  }

  lemma RangeParsed(key: string, c: Civil, day: int)
    requires c.year > 99 && DayOf(c) == day && 1988 <= day <= 100_000_000
    requires |Split(key, '-')| == 3 && Number(Split(key, '-')[0]) == Some(c.year)
    requires Number(Split(key, '-')[1]) == Some(c.month) && Number(Split(key, '-')[2]) == Some(c.day)
    ensures DateRange(key).start == Some(StartOf(day))
    ensures DateRange(key).end == if day < 100_000_000 then Some(StartOf(day + 1)) else None
  {
    hide MakeDay, Split, Number;
    assert DateUtc(c.year, c.month - 1, c.day) == Some(day * MS_PER_DAY);
    assert TimeClip(StartOf(day)) == Some(StartOf(day));
  }

  lemma LastDay(t: int)
    requires IsInstant(t)
    ensures 1988 <= VnDay(t) <= 100_000_000
  {
  }

  /** An instant lies in the range of its own key, except during the last seven hours of the Date range, where the
      range has no end. */
  lemma InstantLiesInItsDay(t: int)
    requires IsInstant(t)
    ensures Within(t, DateRange(DateKey(t))) <==> t + VN_OFFSET < MAX_TIME
  {
    LastDay(t);
    RangeOfDay(VnDay(t));
    VnDayBounds(t, VnDay(t));
  }

  /** Ranges give keys back: every instant of the range of `t`'s key has the key of `t`. */
  lemma RangeHasOneKey(t: int, u: int)
    requires IsInstant(t) && IsInstant(u) && Within(u, DateRange(DateKey(t)))
    ensures DateKey(u) == DateKey(t)
  {
    LastDay(t);
    RangeOfDay(VnDay(t));
    VnDayBounds(u, VnDay(t));
  }

  /** Keys name days: two instants have the same key exactly on the same Vietnam day. */
  lemma KeyNamesTheDay(t: int, u: int)
    requires IsInstant(t) && IsInstant(u)
    ensures DateKey(t) == DateKey(u) <==> VnDay(t) == VnDay(u)
  {
    LastDay(t);
    LastDay(u);
    RangeOfDay(VnDay(t));
    RangeOfDay(VnDay(u));
  }

  /** Day ranges tile time: the range of a later key starts at or after the end of an earlier one, with equality exactly
      for the next day. */
  lemma DaysTile(t: int, u: int)
    requires IsInstant(t) && IsInstant(u) && VnDay(t) < VnDay(u)
    ensures
      var first, second := DateRange(DateKey(t)), DateRange(DateKey(u));
      && first.end.Some? && second.start.Some? && first.end.value <= second.start.value
      && (first.end == second.start <==> VnDay(u) == VnDay(t) + 1)
  {
    LastDay(t);
    LastDay(u);
    RangeOfDay(VnDay(t));
    RangeOfDay(VnDay(u));
  }

  /** previousVietnamBusinessDate */
  function PreviousBusinessDate(now: int): string
    requires IsInstant(now) && VnDay(now) >= 1989
  {
    VnDayBounds(now, VnDay(now));
    DateKey(StartOf(VnDay(now)) - 1)
  }

  /** The previous business date is the day before, and its range ends where today's starts. */
  lemma PreviousDateEndsToday(now: int)
    requires IsInstant(now) && VnDay(now) >= 1989
    ensures PreviousBusinessDate(now) == DayKey(VnDay(now) - 1)
    ensures DateRange(PreviousBusinessDate(now)).end == DateRange(DateKey(now)).start
    ensures DateRange(DateKey(now)).start == Some(StartOf(VnDay(now)))
  {
    DayBefore(now);
    hide DayKey, DateRange, VnDay, StartOf, CivilOf;
    RangeOfDay(VnDay(now));
    RangeOfDay(VnDay(now) - 1);
  }

  lemma DayBefore(now: int)
    requires IsInstant(now) && VnDay(now) >= 1989
    ensures VnDay(now) <= 100_000_000 && IsInstant(StartOf(VnDay(now)) - 1) && VnDay(StartOf(VnDay(now)) - 1) == VnDay(now) - 1
  {
    LastDay(now);
    VnDayBounds(now, VnDay(now));
    VnDayBounds(StartOf(VnDay(now)) - 1, VnDay(now) - 1);
    hide VnDay;
  }

  // ---- months -------------------------------------------------------------------------------

  /** parseMonthRange of the key of a year and a month: its two ends and daysInMonth. */
  function MonthRange(key: string): (Range, Option<int>) {
    var parts := Split(key, '-');
    if |parts| < 2 then (Range(None, None), None)
    else
      var y, m := Number(parts[0]), Number(parts[1]);
      if y.None? || m.None? then (Range(None, None), None)
      else
        (Range(Shift(DateUtc(y.value, m.value - 1, 1), -VN_OFFSET), Shift(DateUtc(y.value, m.value, 1), -VN_OFFSET)),
         DateOfLocal(y.value, m.value))
  }

  /** new Date(year, month, 0).getDate(), the last day of the month before `m` counted from 0. */
  function DateOfLocal(y: int, m: int): Option<int> {
    var day := MakeDay(if 0 <= y <= 99 then 1900 + y else y, m, 0);
    if 0 <= day <= 100_000_000 then Some(CivilOf(day).day) else None
  }

  function MonthKey(y: nat, month: nat): string { Text(y) + "-" + PadStart(Text(month), 2) }

  lemma MonthNumbers(y: nat, month: nat)
    ensures
      var parts := Split(MonthKey(y, month), '-');
      |parts| == 2 && Number(parts[0]) == Some(y) && Number(parts[1]) == Some(month)
  {
    var m := PadStart(Text(month), 2);
    TextRoundTrip(y);
    PaddedRoundTrip(month, 2);
    NoDash(Text(y));
    NoDash(m);
    SplitNone(m, '-');
    SplitFirst(Text(y), '-', m);
    assert MonthKey(y, month) == Text(y) + ['-'] + m;
  }

  lemma YearDays(y: int)
    requires 1975 <= y <= 9999
    ensures 1826 <= DayFromYear(y) <= DayFromYear(y + 1) <= 2_932_897
  {
    YearsGrow(1975, y);
    YearsGrow(y, y + 1);
    YearsGrow(y + 1, 10000);
    assert DayFromYear(1975) == 1826 && DayFromYear(10000) == 2_932_897;
  }

  lemma FirstDay(y: int, month: int)
    requires 1975 <= y <= 9999 && 1 <= month <= 12
    ensures 1826 <= MakeDay(y, month - 1, 1) < MakeDay(y, month, 1) <= 2_932_897
  {
    YearDays(y);
    MonthCarry(y, month);
    YearLength(y);
    MonthsGrow(month, 12, Leap(y));
    assert (month - 1) / 12 == 0 && (month - 1) % 12 == month - 1;
  }

  /** daysInMonth is the length of the month. */
  lemma DaysInMonth(y: int, month: int)
    requires 1975 <= y <= 9999 && 1 <= month <= 12
    ensures DateOfLocal(y, month) == Some(MonthLength(y, month))
  {
    FirstDay(y, month);
    MonthCarry(y, month);
    LongEnough(y, month);
    NthDay(y, month, MonthLength(y, month));
    hide DayFromYear, MonthStart, MonthLength, CivilOf;
    DateRoundTrip(Civil(y, month, MonthLength(y, month)));
    assert MakeDay(y, month, 0) == DayOf(Civil(y, month, MonthLength(y, month)));
  }

  lemma LongEnough(y: int, month: int)
    requires 1 <= month <= 12
    ensures 28 <= MonthLength(y, month) <= 31
  {
  }

  /** Dates count on from the first of a month, and date 0 is the last day of the month before. */
  lemma NthDay(y: int, month: int, d: int)
    requires 1 <= month <= 12
    ensures DayOf(Civil(y, month, d)) == MakeDay(y, month - 1, 1) + d - 1
    ensures MakeDay(y, month, 0) == MakeDay(y, month - 1, 1) + MonthLength(y, month) - 1
  {
    hide MakeDay, MonthLength;
    MonthCarry(y, month);
    Dates(y, month, 0, 1);
    Dates(y, month - 1, d, 1);
  }

  lemma Dates(y: int, m: int, a: int, b: int)
    ensures MakeDay(y, m, a) - a == MakeDay(y, m, b) - b
  {
    hide DayFromYear, MonthStart, IsLeap;
  }

  lemma MonthBounds(y: int, month: int)
    requires 1975 <= y <= 9999 && 1 <= month <= 12
    ensures MonthRange(MonthKey(y, month))
            == (Range(Some(StartOf(MakeDay(y, month - 1, 1))), Some(StartOf(MakeDay(y, month, 1)))), Some(MonthLength(y, month)))
  {
    hide *;
    MonthNumbers(y, month);
    MonthParsed(y, month, MonthKey(y, month));
    FirstDay(y, month);
    DaysInMonth(y, month);
    MonthStartUtc(y, month - 1);
    MonthStartUtc(y, month);
  }

  lemma MonthParsed(y: nat, month: nat, key: string)
    requires |Split(key, '-')| == 2 && Number(Split(key, '-')[0]) == Some(y) && Number(Split(key, '-')[1]) == Some(month)
    ensures MonthRange(key) == (Range(Shift(DateUtc(y, month - 1, 1), -VN_OFFSET), Shift(DateUtc(y, month, 1), -VN_OFFSET)), DateOfLocal(y, month))
  {
    hide DateUtc, Shift, DateOfLocal, Split, Number;
  }

  lemma MonthStartUtc(y: int, m: int)
    requires y > 99 && 1826 <= MakeDay(y, m, 1) <= 2_932_897
    ensures Shift(DateUtc(y, m, 1), -VN_OFFSET) == Some(StartOf(MakeDay(y, m, 1)))
  {
    hide MakeDay;
  }

  /** A day lies in a month's span of days exactly when its date is of that month. */
  lemma DayInMonth(day: nat, y: int, month: int)
    requires 1975 <= y <= 9999 && 1 <= month <= 12
    ensures MakeDay(y, month - 1, 1) <= day < MakeDay(y, month, 1) <==> CivilOf(day).year == y && CivilOf(day).month == month
  {
    hide *;
    var c, first := CivilOf(day), MakeDay(y, month - 1, 1);
    MonthCarry(y, month);
    CivilRoundTrip(day);
    ValidIs(c);
    NthDay(c.year, c.month, c.day);
    if first <= day < MakeDay(y, month, 1) {
      var date := Civil(y, month, day - first + 1);
      ValidIs(date);
      NthDay(y, month, date.day);
      DateRoundTrip(date);
    }
  }

  lemma ValidIs(c: Civil)
    ensures ValidDate(c) <==> c.year >= 1970 && 1 <= c.month <= 12 && 1 <= c.day <= MonthLength(c.year, c.month)
  {
    hide MonthLength;
  }

  /** The month range is the union of the ranges of its days. */
  lemma MonthIsItsDays(t: int, y: int, month: int)
    requires IsInstant(t) && 1975 <= y <= 9999 && 1 <= month <= 12
    ensures VnDay(t) >= 0
    ensures Within(t, MonthRange(MonthKey(y, month)).0) <==> CivilOf(VnDay(t)).year == y && CivilOf(VnDay(t)).month == month
  {
    SettledDay(t);
    MonthBounds(y, month);
    DayInMonth(VnDay(t), y, month);
    StartsInOrder(t, MakeDay(y, month - 1, 1), MakeDay(y, month, 1));
    hide *;
    WithinIs(t, MonthRange(MonthKey(y, month)).0, StartOf(MakeDay(y, month - 1, 1)), StartOf(MakeDay(y, month, 1)));
  }

  lemma WithinIs(t: int, range: Range, start: int, end: int)
    requires range == Range(Some(start), Some(end))
    ensures Within(t, range) <==> start <= t < end
  {
  }

  /** daysInMonth counts the days of the month range. */
  lemma MonthSpan(y: int, month: int)
    requires 1975 <= y <= 9999 && 1 <= month <= 12
    ensures
      var (range, days) := MonthRange(MonthKey(y, month));
      range.start.Some? && days.Some? && range.end == Some(range.start.value + days.value * MS_PER_DAY)
  {
    hide *;
    MonthBounds(y, month);
    MonthCarry(y, month);
    StartsApart(MakeDay(y, month - 1, 1), MonthLength(y, month));
  }

  lemma StartsApart(day: int, days: int)
    ensures StartOf(day + days) == StartOf(day) + days * MS_PER_DAY
  {
  }

  lemma StartsInOrder(t: int, a: int, b: int)
    ensures StartOf(a) <= t < StartOf(b) <==> a <= VnDay(t) < b
  {
    VnDayBounds(t, VnDay(t));
    hide VnDay;
  }

  // ---- daily runs ---------------------------------------------------------------------------

  /** nextVietnamDailyRunUtc: the wall clock of Vietnam is read as a UTC date, set to the hour and minute, and a target
      that is not in the future is moved by a day. */
  method NextDailyRun(hour: nat, minute: nat, from: int) returns (target: int)
    requires hour < 24 && minute < 60 && SETTLED <= from && VnDay(from) < 100_000_000
    ensures from < target <= from + MS_PER_DAY
    ensures target == StartOf(VnDay(target)) + (hour * 60 + minute) * 60_000
  {
    hide *;
    var time := (hour * 60 + minute) * 60_000;
    TimeBound(hour, minute);
    SettledDay(from);
    var now := CivilOf(VnDay(from));
    CivilRoundTrip(VnDay(from));
    TimeOfDay(from, VnDay(from), time);
    target := DayOf(now) * MS_PER_DAY + time - VN_OFFSET;
    if target <= from {
      target := target + MS_PER_DAY;
    }
  }

  lemma TimeBound(hour: nat, minute: nat)
    requires hour < 24 && minute < 60
    ensures 0 <= (hour * 60 + minute) * 60_000 < MS_PER_DAY
  {
  }

  /** A time of day on the day of `from` is at most a day away from it, and so is the same time a day later. */
  lemma TimeOfDay(from: int, day: int, time: int)
    requires VnDay(from) == day && 0 <= time < MS_PER_DAY
    ensures var target := day * MS_PER_DAY + time - VN_OFFSET;
      target - MS_PER_DAY < from < target + MS_PER_DAY && target == StartOf(VnDay(target)) + time
      && target + MS_PER_DAY == StartOf(VnDay(target + MS_PER_DAY)) + time
  {
    var target := day * MS_PER_DAY + time - VN_OFFSET;
    VnDayBounds(from, day);
    VnDayBounds(target, day);
    VnDayBounds(target + MS_PER_DAY, day + 1);
    hide VnDay;
  }

  /** Such a run is the only one: at most one instant of a day-long interval has a given Vietnam time of day. */
  lemma DailyRunIsUnique(from: int, a: int, b: int, time: int)
    requires from < a <= from + MS_PER_DAY && from < b <= from + MS_PER_DAY
    requires a == StartOf(VnDay(a)) + time && b == StartOf(VnDay(b)) + time
    ensures a == b
  {
    assert (VnDay(a) - VnDay(b)) * MS_PER_DAY == a - b;
  }
}
