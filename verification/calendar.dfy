/** JavaScript `Date` as far as the pipeline uses it: a time is a count of
    milliseconds since 1970-01-01T00:00:00Z; `toISOString()` writes it as
    `YYYY-MM-DDTHH:MM:SS.sssZ` on the proleptic Gregorian calendar in UTC;
    `new Date(s)` reads a `YYYY-MM-DD` string as midnight UTC of that day.
    Every other string is read by an implementation-defined parser, which
    is a parameter (`legacy`) of the functions that parse. */
module Calendar {
  import opened Wrappers
  import opened Text

  const DAY_MS: int := 86_400_000
  const THIRTY_DAYS_MS: int := 30 * DAY_MS
  const YEAR_MS: int := 365 * DAY_MS
  const EPOCH_YEAR: int := 1970
  /** The first year the four-digit form `YYYY` cannot write. */
  const END_YEAR: int := 10000

  predicate IsLeapYear(y: int) {
    y % 4 == 0 && (y % 100 != 0 || y % 400 == 0)
  }

  function DaysInYear(y: int): int {
    if IsLeapYear(y) then 366 else 365
  }

  function DaysInMonth(y: int, m: int): int
    requires 1 <= m <= 12
  {
    if m == 2 then (if IsLeapYear(y) then 29 else 28)
    else if m == 4 || m == 6 || m == 9 || m == 11 then 30
    else 31
  }

  /** Days of year `y` before the first of month `m` (13 stands for the
      end of the year). */
  function DaysBeforeMonth(y: int, m: int): int
    requires 1 <= m <= 13
  {
    var common :=
      if m == 1 then 0 else if m == 2 then 31 else if m == 3 then 59
      else if m == 4 then 90 else if m == 5 then 120 else if m == 6 then 151
      else if m == 7 then 181 else if m == 8 then 212 else if m == 9 then 243
      else if m == 10 then 273 else if m == 11 then 304 else if m == 12 then 334
      else 365;
    common + (if m > 2 && IsLeapYear(y) then 1 else 0)
  }

  lemma DaysBeforeMonthStep(y: int, m: int)
    requires 1 <= m <= 12
    ensures DaysBeforeMonth(y, m + 1) == DaysBeforeMonth(y, m) + DaysInMonth(y, m)
    ensures DaysBeforeMonth(y, 13) == DaysInYear(y)
  {
  }

  lemma {:induction false} DaysBeforeMonthMonotone(y: int, a: int, b: int)
    requires 1 <= a <= b <= 13
    ensures DaysBeforeMonth(y, a) <= DaysBeforeMonth(y, b)
    decreases b - a
  {
    if a < b {
      DaysBeforeMonthStep(y, a);
      DaysBeforeMonthMonotone(y, a + 1, b);
    }
  }

  /** Days from 1970-01-01 to the first of January of year `y`. */
  function DaysBeforeYear(y: int): nat
    requires y >= EPOCH_YEAR
    decreases y - EPOCH_YEAR
  {
    if y == EPOCH_YEAR then 0 else DaysBeforeYear(y - 1) + DaysInYear(y - 1)
  }

  lemma DaysBeforeYearStep(y: int)
    requires y >= EPOCH_YEAR
    ensures DaysBeforeYear(y + 1) == DaysBeforeYear(y) + DaysInYear(y)
  {
  }

  /** Leap years among the years 1..n. */
  function LeapYearsThrough(n: int): int {
    n / 4 - n / 100 + n / 400
  }

  /** Counting the leap years one year further adds one exactly when
      that year is a leap year. */
  lemma LeapYearsStep(p: int)
    ensures LeapYearsThrough(p) == LeapYearsThrough(p - 1) + (if IsLeapYear(p) then 1 else 0)
  {
    MultiplesStep(p, 4);
    MultiplesStep(p, 100);
    MultiplesStep(p, 400);
  }

  /** Among 1..p there is one more multiple of `d` than among 1..p-1
      exactly when `p` is one. */
  lemma MultiplesStep(p: int, d: int)
    requires d == 4 || d == 100 || d == 400
    ensures p / d == (p - 1) / d + (if p % d == 0 then 1 else 0)
  {
    if d == 4 {
      assert p / 4 == (p - 1) / 4 + (if p % 4 == 0 then 1 else 0);
    } else if d == 100 {
      assert p / 100 == (p - 1) / 100 + (if p % 100 == 0 then 1 else 0);
    } else {
      assert p / 400 == (p - 1) / 400 + (if p % 400 == 0 then 1 else 0);
    }
  }

  /** The closed form of `DaysBeforeYear`: 365 days a year plus one for
      every leap year since 1970. */
  lemma {:induction false} DaysBeforeYearClosedForm(y: int)
    requires y >= EPOCH_YEAR
    ensures DaysBeforeYear(y) == 365 * (y - EPOCH_YEAR) + LeapYearsThrough(y - 1) - LeapYearsThrough(EPOCH_YEAR - 1)
    decreases y - EPOCH_YEAR
  {
    if y > EPOCH_YEAR {
      DaysBeforeYearClosedForm(y - 1);
      var p := y - 1;
      LeapYearsStep(p);
    }
  }

  lemma {:induction false} DaysBeforeYearMonotone(a: int, b: int)
    requires EPOCH_YEAR <= a <= b
    ensures DaysBeforeYear(a) + 365 * (b - a) <= DaysBeforeYear(b)
    decreases b - a
  {
    if a < b {
      DaysBeforeYearStep(a);
      DaysBeforeYearMonotone(a + 1, b);
    }
  }

  datatype CivilDate = CivilDate(year: int, month: int, day: int)

  /** A real date of the proleptic Gregorian calendar, from 1970 on. */
  predicate OnCalendar(c: CivilDate) {
    c.year >= EPOCH_YEAR && 1 <= c.month <= 12 && 1 <= c.day <= DaysInMonth(c.year, c.month)
  }

  /** A date whose year the four-digit form can write. */
  predicate ValidDate(c: CivilDate) {
    OnCalendar(c) && c.year < END_YEAR
  }

  /** Days from 1970-01-01 to `c`. */
  function DayNumber(c: CivilDate): int
    requires OnCalendar(c)
  {
    DaysBeforeYear(c.year) + DaysBeforeMonth(c.year, c.month) + c.day - 1
  }

  lemma DayNumberBounds(c: CivilDate)
    requires OnCalendar(c)
    ensures DaysBeforeYear(c.year) <= DayNumber(c) < DaysBeforeYear(c.year + 1)
  {
    DaysBeforeMonthStep(c.year, c.month);
    DaysBeforeMonthMonotone(c.year, c.month + 1, 13);
    DaysBeforeYearStep(c.year);
  }

  /** The date `n` days after the first of month `m` of year `y`. */
  function MonthWalk(n: nat, y: int, m: int): (c: CivilDate)
    requires y >= EPOCH_YEAR && 1 <= m <= 12 && DaysBeforeMonth(y, m) + n < DaysInYear(y)
    ensures OnCalendar(c) && c.year == y && m <= c.month
    ensures DaysBeforeMonth(y, c.month) + c.day - 1 == DaysBeforeMonth(y, m) + n
    decreases 12 - m
  {
    DaysBeforeMonthStep(y, m);
    if n < DaysInMonth(y, m) then CivilDate(y, m, n + 1)
    else MonthWalk(n - DaysInMonth(y, m), y, m + 1)
  }

  /** The date `n` days after the first of January of year `y`. */
  function YearWalk(n: nat, y: int): (c: CivilDate)
    requires y >= EPOCH_YEAR
    ensures OnCalendar(c) && c.year >= y
    ensures DayNumber(c) == DaysBeforeYear(y) + n
    decreases n
  {
    DaysBeforeYearStep(y);
    if n < DaysInYear(y) then MonthWalk(n, y, 1)
    else YearWalk(n - DaysInYear(y), y + 1)
  }

  /** The date `n` days after 1970-01-01. */
  function CivilOf(n: nat): (c: CivilDate)
    ensures OnCalendar(c) && DayNumber(c) == n
  {
    YearWalk(n, EPOCH_YEAR)
  }

  /** A walk that does not end in month `m` passes through the first of
      the next month. */
  lemma MonthWalkStep(n: nat, y: int, m: int)
    requires y >= EPOCH_YEAR && 1 <= m < 12 && DaysBeforeMonth(y, m) + n < DaysInYear(y)
    requires n >= DaysInMonth(y, m)
    ensures DaysBeforeMonth(y, m + 1) + (n - DaysInMonth(y, m)) < DaysInYear(y)
    ensures MonthWalk(n, y, m) == MonthWalk(n - DaysInMonth(y, m), y, m + 1)
  {
    DaysBeforeMonthStep(y, m);
  }

  lemma {:induction false} MonthWalkOf(c: CivilDate, m: int)
    requires OnCalendar(c) && 1 <= m <= c.month
    ensures DaysBeforeMonth(c.year, m) <= DaysBeforeMonth(c.year, c.month)
    ensures DaysBeforeMonth(c.year, c.month) + c.day - 1 < DaysInYear(c.year)
    ensures MonthWalk(DaysBeforeMonth(c.year, c.month) - DaysBeforeMonth(c.year, m) + c.day - 1, c.year, m) == c
    decreases c.month - m
  {
    DaysBeforeMonthMonotone(c.year, m, c.month);
    DaysBeforeMonthStep(c.year, c.month);
    DaysBeforeMonthMonotone(c.year, c.month + 1, 13);
    if m < c.month {
      DaysBeforeMonthStep(c.year, m);
      DaysBeforeMonthMonotone(c.year, m + 1, c.month);
      MonthWalkOf(c, m + 1);
      MonthWalkStep(DaysBeforeMonth(c.year, c.month) - DaysBeforeMonth(c.year, m) + c.day - 1, c.year, m);
    }
  }

  /** A walk that starts one year early passes through the first of
      January of the next year. */
  lemma YearWalkStep(n: nat, y: int)
    requires y >= EPOCH_YEAR && n >= DaysInYear(y)
    ensures YearWalk(n, y) == YearWalk(n - DaysInYear(y), y + 1)
  {
  }

  lemma YearWalkOfSameYear(c: CivilDate)
    requires OnCalendar(c)
    ensures DaysBeforeYear(c.year) <= DayNumber(c)
    ensures YearWalk(DayNumber(c) - DaysBeforeYear(c.year), c.year) == c
  {
    var n := DayNumber(c) - DaysBeforeYear(c.year);
    DaysBeforeYearStep(c.year);
    MonthWalkOf(c, 1);
    assert DaysBeforeMonth(c.year, 1) == 0;
    assert MonthWalk(n, c.year, 1) == c;
  }

  lemma YearWalkOfEarlier(c: CivilDate, y: int)
    requires OnCalendar(c) && EPOCH_YEAR <= y < c.year
    requires DaysBeforeYear(y + 1) <= DayNumber(c)
    requires YearWalk(DayNumber(c) - DaysBeforeYear(y + 1), y + 1) == c
    ensures DaysBeforeYear(y) <= DayNumber(c)
    ensures YearWalk(DayNumber(c) - DaysBeforeYear(y), y) == c
  {
    DaysBeforeYearStep(y);
    YearWalkStep(DayNumber(c) - DaysBeforeYear(y), y);
  }

  lemma {:induction false} YearWalkOf(c: CivilDate, y: int)
    requires OnCalendar(c) && EPOCH_YEAR <= y <= c.year
    ensures DaysBeforeYear(y) <= DayNumber(c)
    ensures YearWalk(DayNumber(c) - DaysBeforeYear(y), y) == c
    decreases c.year - y
  {
    if y == c.year {
      YearWalkOfSameYear(c);
    } else {
      YearWalkOf(c, y + 1);
      YearWalkOfEarlier(c, y);
    }
  }

  /** Counting days from 1970 is a bijection between day numbers and dates. */
  lemma CivilOfDayNumber(c: CivilDate)
    requires OnCalendar(c)
    ensures CivilOf(DayNumber(c)) == c
  {
    YearWalkOf(c, EPOCH_YEAR);
  }

  lemma CivilOfBelowEnd(n: nat)
    requires n < DAY_LIMIT
    ensures CivilOf(n).year < END_YEAR
  {
    DayLimitIsEndYear();
    var c := CivilOf(n);
    DayNumberBounds(c);
    if c.year >= END_YEAR {
      DaysBeforeYearMonotone(END_YEAR, c.year);
    }
  }

  // ----- decimal digits -----

  function Digit(n: int): char
    requires 0 <= n < 10
  {
    ('0' as int + n) as char
  }

  predicate AllDigits(s: string) {
    forall k :: 0 <= k < |s| ==> IsDigit(s[k])
  }

  function Pow10(w: nat): nat {
    if w == 0 then 1 else 10 * Pow10(w - 1)
  }

  /** `n` in decimal, left-padded with zeros to `w` digits (the last `w`
      digits when `n` is wider). */
  function PadNumber(n: nat, w: nat): (r: string)
    ensures |r| == w && AllDigits(r)
  {
    if w == 0 then [] else PadNumber(n / 10, w - 1) + [Digit(n % 10)]
  }

  /** The value of a string of decimal digits. */
  function NumberValue(s: string): (v: nat)
    requires AllDigits(s)
    ensures v < Pow10(|s|)
  {
    if s == [] then 0 else NumberValue(s[..|s| - 1]) * 10 + (s[|s| - 1] as int - '0' as int)
  }

  lemma {:induction false} NumberValueOfPad(n: nat, w: nat)
    requires n < Pow10(w)
    ensures NumberValue(PadNumber(n, w)) == n
  {
    if w > 0 {
      var r := PadNumber(n, w);
      assert r[..w - 1] == PadNumber(n / 10, w - 1);
      NumberValueOfPad(n / 10, w - 1);
    }
  }

  lemma {:induction false} PadOfNumberValue(s: string)
    requires AllDigits(s)
    ensures PadNumber(NumberValue(s), |s|) == s
  {
    if s != [] {
      var init := s[..|s| - 1];
      var d := s[|s| - 1] as int - '0' as int;
      assert NumberValue(s) / 10 == NumberValue(init) && NumberValue(s) % 10 == d;
      PadOfNumberValue(init);
      assert s == init + [s[|s| - 1]];
    }
  }

  // ----- the ISO date form YYYY-MM-DD -----

  /** The shape `YYYY-MM-DD`: ten characters, digits and two dashes. */
  predicate DateShaped(s: string) {
    && |s| == 10 && s[4] == '-' && s[7] == '-'
    && AllDigits(s[..4]) && AllDigits(s[5..7]) && AllDigits(s[8..])
  }

  function FormatDate(c: CivilDate): (r: string)
    requires OnCalendar(c)
    ensures DateShaped(r) && 'T' !in r
  {
    var r := PadNumber(c.year, 4) + "-" + PadNumber(c.month, 2) + "-" + PadNumber(c.day, 2);
    assert forall k :: 0 <= k < 10 ==> IsDigit(r[k]) || r[k] == '-';
    r
  }

  /** Reads exactly `YYYY-MM-DD` naming a valid date from 1970 to 9999. */
  function ParseIsoDate(s: string): (r: Option<CivilDate>)
    ensures r.Some? ==> ValidDate(r.value)
  {
    if DateShaped(s) then
      var c := CivilDate(NumberValue(s[..4]), NumberValue(s[5..7]), NumberValue(s[8..]));
      if ValidDate(c) then Some(c) else None
    else
      None
  }

  lemma FormatDateParts(c: CivilDate)
    requires OnCalendar(c)
    ensures FormatDate(c)[..4] == PadNumber(c.year, 4)
    ensures FormatDate(c)[5..7] == PadNumber(c.month, 2)
    ensures FormatDate(c)[8..] == PadNumber(c.day, 2)
    ensures FormatDate(c)[4] == '-' && FormatDate(c)[7] == '-'
  {
    var y, m, d := PadNumber(c.year, 4), PadNumber(c.month, 2), PadNumber(c.day, 2);
    assert FormatDate(c) == y + "-" + m + "-" + d;
  }

  lemma ParseFormatDate(c: CivilDate)
    requires ValidDate(c)
    ensures ParseIsoDate(FormatDate(c)) == Some(c)
  {
    var y, m, d := PadNumber(c.year, 4), PadNumber(c.month, 2), PadNumber(c.day, 2);
    var s := FormatDate(c);
    FormatDateParts(c);
    NumberValueOfPad(c.year, 4);
    NumberValueOfPad(c.month, 2);
    NumberValueOfPad(c.day, 2);
    assert CivilDate(NumberValue(s[..4]), NumberValue(s[5..7]), NumberValue(s[8..])) == c;
  }

  lemma FormatParseDate(s: string)
    requires ParseIsoDate(s).Some?
    ensures FormatDate(ParseIsoDate(s).value) == s
  {
    PadOfNumberValue(s[..4]);
    PadOfNumberValue(s[5..7]);
    PadOfNumberValue(s[8..]);
    assert s == s[..4] + "-" + s[5..7] + "-" + s[8..];
  }

  // ----- time values -----

  /** Days from 1970-01-01 to 10000-01-01. */
  const DAY_LIMIT: int := 2_932_897

  lemma DayLimitIsEndYear()
    ensures DaysBeforeYear(END_YEAR) == DAY_LIMIT
  {
    DaysBeforeYearClosedForm(END_YEAR);
  }
  const TIME_LIMIT: int := DAY_LIMIT * DAY_MS

  /** A time value whose date has a four-digit year. */
  type Time = t: int | 0 <= t < TIME_LIMIT

  /** A clock reading thirty days before the end of the representable range. */
  type Now = t: Time | t + THIRTY_DAYS_MS < TIME_LIMIT

  /** The UTC date of time `t`. */
  function CalendarDate(t: Time): (c: CivilDate)
    ensures ValidDate(c) && DayNumber(c) == t / DAY_MS
  {
    CivilOfBelowEnd(t / DAY_MS);
    CivilOf(t / DAY_MS)
  }

  /** `new Date(t).toISOString()`. */
  function ToIsoString(t: Time): string {
    var ms := t % DAY_MS;
    FormatDate(CalendarDate(t)) + "T"
      + PadNumber(ms / 3_600_000, 2) + ":" + PadNumber(ms / 60_000 % 60, 2) + ":"
      + PadNumber(ms / 1000 % 60, 2) + "." + PadNumber(ms % 1000, 3) + "Z"
  }

  /** The UTC date of `t` in the form `YYYY-MM-DD`. */
  function DateString(t: Time): (r: string)
    ensures DateShaped(r) && 'T' !in r
  {
    FormatDate(CalendarDate(t))
  }

  /** `new Date(t).toISOString().split('T')[0]` is `DateString(t)`. */
  lemma IsoStringDatePart(t: Time)
    ensures Split(ToIsoString(t), 'T')[0] == DateString(t)
  {
    var iso := ToIsoString(t);
    var date := DateString(t);
    assert iso == date + ['T'] + iso[11..];
    SplitFirst(date, 'T', iso[11..]);
  }

  /** `new Date(s)` as a time value (`None` for an invalid date): a valid
      `YYYY-MM-DD` is midnight UTC of that day; every other string goes to
      the engine's implementation-defined parser `legacy`. */
  function ParseDate(legacy: string -> Option<Time>, s: string): Option<Time> {
    match ParseIsoDate(s)
    case Some(c) =>
      DayNumberBounds(c);
      DaysBeforeYearMonotone(c.year + 1, END_YEAR);
      DayLimitIsEndYear();
      assert DayNumber(c) + 1 <= DAY_LIMIT;
      assert DayNumber(c) * DAY_MS + DAY_MS <= DAY_LIMIT * DAY_MS;
      Some(DayNumber(c) * DAY_MS)
    case None => legacy(s)
  }

  /** Reading back a written date gives the midnight that starts the day. */
  lemma DateStringRoundTrip(legacy: string -> Option<Time>, t: Time)
    ensures ParseDate(legacy, DateString(t)) == Some(t - t % DAY_MS)
  {
    ParseFormatDate(CalendarDate(t));
  }

  /** A valid `YYYY-MM-DD` string survives `new Date(s).toISOString().split('T')[0]`
      unchanged. */
  lemma IsoDateStable(legacy: string -> Option<Time>, s: string)
    requires ParseIsoDate(s).Some?
    ensures ParseDate(legacy, s).Some? && DateString(ParseDate(legacy, s).value) == s
  {
    var c := ParseIsoDate(s).value;
    var t := ParseDate(legacy, s).value;
    assert t / DAY_MS == DayNumber(c);
    CivilOfDayNumber(c);
    FormatParseDate(s);
  }
}
