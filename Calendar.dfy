/**
 * Calendar days as integer (year, month, day) triples in the proleptic Gregorian
 * calendar, standing in for JavaScript `Date` objects at day granularity, with the
 * `YYYY-MM-DD` text form the application stores a date of birth in.
 */
module Calendar {
  import opened Wrappers
  import opened Text

  datatype Date = Date(year: int, month: int, day: int)

  predicate IsLeap(y: int) {
    y % 4 == 0 && (y % 100 != 0 || y % 400 == 0)
  }

  function DaysInMonth(y: int, m: int): (n: int)
    requires 1 <= m <= 12
    ensures 28 <= n <= 31
  {
    if m == 2 then (if IsLeap(y) then 29 else 28)
    else if m == 4 || m == 6 || m == 9 || m == 11 then 30
    else 31
  }

  function YearLength(y: int): int {
    if IsLeap(y) then 366 else 365
  }

  predicate ValidDate(d: Date) {
    1 <= d.month <= 12 && 1 <= d.day <= DaysInMonth(d.year, d.month)
  }

  /** Strictly earlier, comparing year, then month, then day. */
  predicate Before(a: Date, b: Date) {
    a.year < b.year ||
    (a.year == b.year && (a.month < b.month || (a.month == b.month && a.day < b.day)))
  }

  /** Days of the year that lie in the months before `m`. */
  function DaysBeforeMonth(y: int, m: int): int
    requires 1 <= m <= 12
  {
    [0, 31, 59, 90, 120, 151, 181, 212, 243, 273, 304, 334][m - 1]
      + (if m > 2 && IsLeap(y) then 1 else 0)
  }

  lemma DaysBeforeNextMonth(y: int, m: int)
    requires 1 <= m < 12
    ensures DaysBeforeMonth(y, m + 1) == DaysBeforeMonth(y, m) + DaysInMonth(y, m)
  {
  }

  lemma DaysBeforeDecember(y: int)
    ensures DaysBeforeMonth(y, 12) + 31 == YearLength(y)
  {
  }

  lemma {:induction false} DaysBeforeMonthGrows(y: int, m1: int, m2: int)
    requires 1 <= m1 < m2 <= 12
    ensures DaysBeforeMonth(y, m1) + DaysInMonth(y, m1) <= DaysBeforeMonth(y, m2)
    decreases m2 - m1
  {
    DaysBeforeNextMonth(y, m1);
    if m1 + 1 < m2 {
      DaysBeforeMonthGrows(y, m1 + 1, m2);
    }
  }

  /** The day's ordinal within its year, 1 for 1 January. */
  function DayOfYear(d: Date): (n: int)
    requires ValidDate(d)
    ensures 1 <= n <= YearLength(d.year)
    ensures n == YearLength(d.year) <==> d.month == 12 && d.day == 31
  {
    MonthEndBound(d.year, d.month);
    DaysBeforeMonth(d.year, d.month) + d.day
  }

  lemma MonthEndBound(y: int, m: int)
    requires 1 <= m <= 12
    ensures DaysBeforeMonth(y, m) + DaysInMonth(y, m) <= YearLength(y)
    ensures DaysBeforeMonth(y, m) + DaysInMonth(y, m) == YearLength(y) <==> m == 12
  {
    if m < 12 {
      DaysBeforeMonthGrows(y, m, 12);
    }
    DaysBeforeDecember(y);
  }

  /** Within one year, the ordinal orders days exactly as the calendar does. */
  lemma {:induction false} DayOfYearOrder(a: Date, b: Date)
    requires ValidDate(a) && ValidDate(b) && a.year == b.year
    ensures Before(a, b) <==> DayOfYear(a) < DayOfYear(b)
    ensures a == b <==> DayOfYear(a) == DayOfYear(b)
  {
    if a.month < b.month {
      DaysBeforeMonthGrows(a.year, a.month, b.month);
    } else if b.month < a.month {
      DaysBeforeMonthGrows(a.year, b.month, a.month);
    }
  }

  /** The calendar day after `d`. */
  function NextDay(d: Date): (r: Date)
    requires ValidDate(d)
    ensures ValidDate(r) && Before(d, r)
  {
    if d.day < DaysInMonth(d.year, d.month) then Date(d.year, d.month, d.day + 1)
    else if d.month < 12 then Date(d.year, d.month + 1, 1)
    else Date(d.year + 1, 1, 1)
  }

  /** The day `k` days after `d` (`setDate(getDate() + k)`). */
  function StepDays(d: Date, k: nat): (r: Date)
    requires ValidDate(d)
    ensures ValidDate(r)
    decreases k
  {
    if k == 0 then d else StepDays(NextDay(d), k - 1)
  }

  lemma NextDayWithinYear(d: Date)
    requires ValidDate(d) && DayOfYear(d) < YearLength(d.year)
    ensures NextDay(d).year == d.year
    ensures DayOfYear(NextDay(d)) == DayOfYear(d) + 1
  {
    if d.day == DaysInMonth(d.year, d.month) {
      DaysBeforeNextMonth(d.year, d.month);
    }
  }

  lemma NextDayAtYearEnd(d: Date)
    requires ValidDate(d) && DayOfYear(d) == YearLength(d.year)
    ensures NextDay(d) == Date(d.year + 1, 1, 1)
  {
  }

  /** Stepping forward within a year advances the ordinal by the number of steps. */
  lemma {:induction false} StepDaysWithinYear(d: Date, k: nat)
    requires ValidDate(d) && DayOfYear(d) + k <= YearLength(d.year)
    ensures StepDays(d, k).year == d.year
    ensures DayOfYear(StepDays(d, k)) == DayOfYear(d) + k
    decreases k
  {
    if k > 0 {
      NextDayWithinYear(d);
      StepDaysWithinYear(NextDay(d), k - 1);
    }
  }

  lemma {:induction false} StepDaysAdd(d: Date, a: nat, b: nat)
    requires ValidDate(d)
    ensures StepDays(d, a + b) == StepDays(StepDays(d, a), b)
    decreases a
  {
    if a > 0 {
      StepDaysAdd(NextDay(d), a - 1, b);
    }
  }

  /** One more step is one more day. */
  lemma {:induction false} StepDaysLast(d: Date, k: nat)
    requires ValidDate(d)
    ensures StepDays(d, k + 1) == NextDay(StepDays(d, k))
    decreases k
  {
    if k > 0 {
      StepDaysLast(NextDay(d), k - 1);
    }
  }

  // ---------------------------------------------------------------- the stored text form

  /** A two-digit (or wider) zero-padded decimal: `String(n).padStart(2, "0")`. */
  function Pad2(n: nat): string {
    PadStart(NatToString(n), 2, '0')
  }

  /** `YYYY-MM-DD` with every field zero-padded, for a four-digit year. */
  function FormatIso(d: Date): string
    requires 0 <= d.year
  {
    PadStart(NatToString(d.year), 4, '0') + "-" + Pad2(if d.month < 0 then 0 else d.month)
      + "-" + Pad2(if d.day < 0 then 0 else d.day)
  }

  /**
   * Reads `YYYY-MM-DD` (four, two and two digits, a real calendar day); any other
   * text is an Invalid Date.
   */
  function ParseIso(s: string): (r: Option<Date>)
    ensures r.Some? ==> ValidDate(r.value) && 0 <= r.value.year <= 9999
  {
    var parts := Split(s, '-');
    if |parts| == 3 && |parts[0]| == 4 && |parts[1]| == 2 && |parts[2]| == 2
      && AllDigits(parts[0]) && AllDigits(parts[1]) && AllDigits(parts[2])
    then
      var d := Date(DigitsValue(parts[0]), DigitsValue(parts[1]), DigitsValue(parts[2]));
      DigitsValueBound(parts[0]);
      if ValidDate(d) then Some(d) else None
    else None
  }

  lemma {:induction false} DigitsValueBound(s: string)
    requires AllDigits(s)
    ensures DigitsValue(s) < Pow10(|s|)
  {
    if s != [] {
      DigitsValueBound(s[..|s| - 1]);
    }
  }

  lemma {:induction false} NatToStringShort(n: nat, k: nat)
    requires 1 <= k && n < Pow10(k)
    ensures |NatToString(n)| <= k
  {
    if n >= 10 {
      NatToStringShort(n / 10, k - 1);
    }
  }

  lemma PaddedDigits(n: nat, w: nat)
    requires 1 <= w && n < Pow10(w)
    ensures |PadStart(NatToString(n), w, '0')| == w
    ensures AllDigits(PadStart(NatToString(n), w, '0'))
    ensures DigitsValue(PadStart(NatToString(n), w, '0')) == n
  {
    var ds := NatToString(n);
    NatToStringShort(n, w);
    PadStartIsRepeat(ds, w, '0');
    DigitsValueLeadingZeros(w - |ds|, ds);
    DigitsValueOfNatToString(n);
  }

  /** The stored form splits at its two dashes into the padded year, month and day. */
  lemma {:induction false} SplitFormatIso(d: Date)
    requires ValidDate(d) && 0 <= d.year <= 9999
    ensures Split(FormatIso(d), '-')
      == [PadStart(NatToString(d.year), 4, '0'), Pad2(d.month), Pad2(d.day)]
  {
    var y, m, dd := PadStart(NatToString(d.year), 4, '0'), Pad2(d.month), Pad2(d.day);
    PaddedDigits(d.year, 4);
    PaddedDigits(d.month, 2);
    PaddedDigits(d.day, 2);
    SplitThree(y, m, dd, '-');
  }

  /** Reading the stored form of a four-digit-year date gives the date back. */
  lemma {:induction false} ParseFormatIso(d: Date)
    requires ValidDate(d) && 0 <= d.year <= 9999
    ensures ParseIso(FormatIso(d)) == Some(d)
  {
    SplitFormatIso(d);
    PaddedDigits(d.year, 4);
    PaddedDigits(d.month, 2);
    PaddedDigits(d.day, 2);
  }

  /** `Date.prototype.setFullYear(y)`: 29 February moved to a common year rolls over to 1 March. */
  function MoveToYear(d: Date, y: int): (r: Date)
    requires ValidDate(d)
    ensures ValidDate(r) && r.year == y
    ensures r.month == d.month && r.day == d.day <==> !(d.month == 2 && d.day == 29 && !IsLeap(y))
    ensures !(r.month == d.month && r.day == d.day) ==> r == Date(y, 3, 1)
  {
    if d.month == 2 && d.day == 29 && !IsLeap(y) then Date(y, 3, 1) else Date(y, d.month, d.day)
  }
}
