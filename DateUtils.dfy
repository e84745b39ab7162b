/**
 * The dashboard's date helpers: days until Christmas, and the giftees whose birthday
 * falls in the next `n` days, soonest first. "Now" is a moment strictly after
 * midnight of `today`; every date the helpers build sits at midnight.
 */
module DateUtils {
  import opened Wrappers
  import opened Calendar
  import opened Records

  predicate IsChristmas(d: Date) {
    d.month == 12 && d.day == 25
  }

  /**
   * `calculateDaysToChristmas`: whole days up to this year's 25 December while it is
   * still ahead; from 25 December on (that midnight has passed), up to next year's.
   */
  function DaysToChristmas(today: Date): (r: int)
    requires ValidDate(today)
    ensures 1 <= r <= 366
  {
    var christmas := Date(today.year, 12, 25);
    var next := Date(today.year + 1, 12, 25);
    if Before(today, christmas) then
      DayOfYearOrder(today, christmas);
      DayOfYear(christmas) - DayOfYear(today)
    else
      DayOfYearOrder(christmas, today);
      YearLength(today.year) - DayOfYear(today) + DayOfYear(next)
  }

  /** Within one year, a day with the ordinal of 25 December is 25 December. */
  lemma ChristmasByOrdinal(d: Date)
    requires ValidDate(d)
    ensures IsChristmas(d) <==> DayOfYear(d) == DayOfYear(Date(d.year, 12, 25))
  {
    DayOfYearOrder(d, Date(d.year, 12, 25));
  }

  /** Counting the result forward from today lands on a 25 December. */
  lemma {:induction false} ChristmasReached(today: Date)
    requires ValidDate(today)
    ensures IsChristmas(StepDays(today, DaysToChristmas(today)))
  {
    var r := DaysToChristmas(today);
    var christmas := Date(today.year, 12, 25);
    if Before(today, christmas) {
      DayOfYearOrder(today, christmas);
      StepDaysWithinYear(today, r);
      ChristmasByOrdinal(StepDays(today, r));
    } else {
      var e := YearLength(today.year) - DayOfYear(today);
      var newYear := Date(today.year + 1, 1, 1);
      var j := DayOfYear(Date(today.year + 1, 12, 25)) - 1;
      ReachNewYear(today, e);
      StepDaysAdd(today, e + 1, j);
      StepDaysWithinYear(newYear, j);
      ChristmasByOrdinal(StepDays(newYear, j));
    }
  }

  /** `e` days after `today`, where `e` days remain in its year, is 31 December. */
  lemma ReachYearEnd(today: Date, e: nat)
    requires ValidDate(today) && e == YearLength(today.year) - DayOfYear(today)
    ensures StepDays(today, e) == Date(today.year, 12, 31)
  {
    var r := StepDays(today, e);
    StepDaysWithinYear(today, e);
    assert DayOfYear(r) == YearLength(r.year);
  }

  /** The day after that is 1 January of the next year. */
  lemma ReachNewYear(today: Date, e: nat)
    requires ValidDate(today) && e == YearLength(today.year) - DayOfYear(today)
    ensures StepDays(today, e + 1) == Date(today.year + 1, 1, 1)
  {
    var last := StepDays(today, e);
    assert last == Date(today.year, 12, 31) by { ReachYearEnd(today, e); }
    assert StepDays(today, e + 1) == NextDay(last) by { StepDaysLast(today, e); }
  }

  /** No earlier day counted from today is a 25 December: the result is the first one. */
  lemma {:induction false} ChristmasFirst(today: Date, k: nat)
    requires ValidDate(today) && 1 <= k < DaysToChristmas(today)
    ensures !IsChristmas(StepDays(today, k))
  {
    var christmas := Date(today.year, 12, 25);
    var e := YearLength(today.year) - DayOfYear(today);
    if Before(today, christmas) {
      assert DayOfYear(today) + k < DayOfYear(christmas) by {
        DayOfYearOrder(today, christmas);
      }
      StepDaysWithinYear(today, k);
      ChristmasByOrdinal(StepDays(today, k));
    } else if k <= e {
      assert DayOfYear(christmas) <= DayOfYear(today) by {
        DayOfYearOrder(christmas, today);
      }
      StepDaysWithinYear(today, k);
      ChristmasByOrdinal(StepDays(today, k));
    } else {
      var newYear := Date(today.year + 1, 1, 1);
      var j := k - e - 1;
      assert j < DayOfYear(Date(today.year + 1, 12, 25)) - 1 by {
        DayOfYearOrder(christmas, today);
      }
      assert StepDays(today, k) == StepDays(newYear, j) by {
        ReachNewYear(today, e);
        StepDaysAdd(today, e + 1, j);
      }
      StepDaysWithinYear(newYear, j);
      ChristmasByOrdinal(StepDays(newYear, j));
    }
  }

  // ---------------------------------------------------------------- birthdays in a window

  /**
   * The birthday moved into `year` (`setFullYear`): a stored text that is not a date
   * is an Invalid Date, which `setFullYear` turns into 1 January of that year.
   */
  function BirthdayIn(g: Giftee, year: int): (r: Date)
    ensures ValidDate(r) && r.year == year
    ensures g.dateOfBirth.None? || ParseIso(g.dateOfBirth.value).None? ==> r == Date(year, 1, 1)
    ensures g.dateOfBirth.Some? && ParseIso(g.dateOfBirth.value).Some? ==>
      var d := ParseIso(g.dateOfBirth.value).value;
      r == (if d.month == 2 && d.day == 29 && !IsLeap(year) then Date(year, 3, 1) else Date(year, d.month, d.day))
  {
    var text := g.dateOfBirth.GetOr("");
    match ParseIso(text)
    case None => Date(year, 1, 1)
    case Some(d) => MoveToYear(d, year)
  }

  /**
   * A midnight `b` is in the window when it is at or after "now" (so strictly after
   * today) and at or before "now" plus `n` days (so not after the day `n` days on).
   */
  predicate InWindow(b: Date, today: Date, n: nat)
    requires ValidDate(today)
  {
    Before(today, b) && !Before(StepDays(today, n), b)
  }

  predicate Upcoming(g: Giftee, today: Date, n: nat)
    requires ValidDate(today)
  {
    InWindow(BirthdayIn(g, today.year), today, n)
  }

  /** The `filter` step: the giftees whose birthday this year is in the window, in input order. */
  function FilterUpcoming(gs: seq<Giftee>, today: Date, n: nat): (r: seq<Giftee>)
    requires ValidDate(today)
    ensures multiset(r) <= multiset(gs)
    ensures forall g :: g in r <==> g in gs && Upcoming(g, today, n)
    ensures forall g :: multiset(r)[g] == if Upcoming(g, today, n) then multiset(gs)[g] else 0
  {
    if gs == [] then []
    else
      var rest := FilterUpcoming(gs[1..], today, n);
      assert gs == [gs[0]] + gs[1..];
      if Upcoming(gs[0], today, n) then [gs[0]] + rest else rest
  }

  /** The sort key: the birthday's ordinal in the current year (all keys share that year). */
  function Key(g: Giftee, year: int): int {
    DayOfYear(BirthdayIn(g, year))
  }

  predicate SortedByKey(gs: seq<Giftee>, key: Giftee -> int) {
    forall i, j | 0 <= i < j < |gs| :: key(gs[i]) <= key(gs[j])
  }

  /** Insert in front of the first entry with a key not below its own, so ties keep their order. */
  function InsertByKey(g: Giftee, gs: seq<Giftee>, key: Giftee -> int): (r: seq<Giftee>)
    requires SortedByKey(gs, key)
    ensures SortedByKey(r, key)
    ensures multiset(r) == multiset(gs) + multiset{g}
    ensures forall x | x in r :: x == g || x in gs
  {
    if gs == [] || key(g) <= key(gs[0]) then
      InsertFront(g, gs, key);
      [g] + gs
    else
      var rest := InsertByKey(g, gs[1..], key);
      assert gs == [gs[0]] + gs[1..];
      SortedHead(gs, key);
      SortedCons(gs[0], rest, key);
      [gs[0]] + rest
  }

  lemma InsertFront(g: Giftee, gs: seq<Giftee>, key: Giftee -> int)
    requires SortedByKey(gs, key) && (gs == [] || key(g) <= key(gs[0]))
    ensures SortedByKey([g] + gs, key)
  {
    if gs != [] {
      SortedHead(gs, key);
      assert gs == [gs[0]] + gs[1..];
    }
    SortedCons(g, gs, key);
  }

  lemma SortedHead(gs: seq<Giftee>, key: Giftee -> int)
    requires gs != [] && SortedByKey(gs, key)
    ensures SortedByKey(gs[1..], key)
    ensures forall x | x in gs[1..] :: key(gs[0]) <= key(x)
  {
    forall x | x in gs[1..] ensures key(gs[0]) <= key(x) {
      var j :| 0 <= j < |gs[1..]| && gs[1..][j] == x;
      assert gs[j + 1] == x;
    }
  }

  lemma SortedCons(x: Giftee, rest: seq<Giftee>, key: Giftee -> int)
    requires SortedByKey(rest, key) && forall y | y in rest :: key(x) <= key(y)
    ensures SortedByKey([x] + rest, key)
  {
    var s := [x] + rest;
    forall i, j | 0 <= i < j < |s| ensures key(s[i]) <= key(s[j]) {
      if i > 0 {
        assert s[i] == rest[i - 1] && s[j] == rest[j - 1];
      } else {
        assert s[j] in rest;
      }
    }
  }

  /** The `sort` step: ascending by key (the comparator `a - b`). */
  function SortByKey(gs: seq<Giftee>, key: Giftee -> int): (r: seq<Giftee>)
    ensures SortedByKey(r, key)
    ensures multiset(r) == multiset(gs)
  {
    if gs == [] then []
    else
      assert gs == [gs[0]] + gs[1..];
      InsertByKey(gs[0], SortByKey(gs[1..], key), key)
  }

  predicate SharedKey(gs: seq<Giftee>, key: Giftee -> int) {
    forall i | 0 <= i < |gs| :: key(gs[i]) == key(gs[0])
  }

  lemma SharedKeyTail(gs: seq<Giftee>, key: Giftee -> int)
    requires gs != [] && SharedKey(gs, key)
    ensures SharedKey(gs[1..], key)
    ensures gs[1..] == [] || key(gs[0]) <= key(gs[1..][0])
  {
    forall i | 0 <= i < |gs[1..]| ensures key(gs[1..][i]) == key(gs[1..][0]) {
      assert gs[1..][i] == gs[i + 1] && gs[1..][0] == gs[1];
    }
  }

  /** Entries that all share one key come out in their input order, as a stable sort leaves them. */
  lemma {:induction false} SortSharedKeyKeepsOrder(gs: seq<Giftee>, key: Giftee -> int)
    requires SharedKey(gs, key)
    ensures SortByKey(gs, key) == gs
  {
    if gs != [] {
      var tail := gs[1..];
      SharedKeyTail(gs, key);
      SortSharedKeyKeepsOrder(tail, key);
      assert gs == [gs[0]] + tail;
      assert SortByKey(gs, key) == InsertByKey(gs[0], tail, key);
    }
  }

  /** `birthdaysInNextNDays(giftees, n)` on `today`. */
  function BirthdaysInNextNDays(gs: seq<Giftee>, today: Date, n: nat): seq<Giftee>
    requires ValidDate(today)
  {
    SortByKey(FilterUpcoming(gs, today, n), g => Key(g, today.year))
  }

  /**
   * The result holds exactly the giftees whose birthday this year is in the window,
   * each as often as it occurs in the input, and lists them by birthday, earliest first.
   */
  lemma BirthdaysResult(gs: seq<Giftee>, today: Date, n: nat)
    requires ValidDate(today)
    ensures var r := BirthdaysInNextNDays(gs, today, n);
      && multiset(r) <= multiset(gs)
      && (forall g :: g in r <==> g in gs && Upcoming(g, today, n))
      && (forall g :: multiset(r)[g] == if Upcoming(g, today, n) then multiset(gs)[g] else 0)
      && (forall i, j | 0 <= i < j < |r| ::
            !Before(BirthdayIn(r[j], today.year), BirthdayIn(r[i], today.year)))
  {
    var f := FilterUpcoming(gs, today, n);
    var r := SortByKey(f, g => Key(g, today.year));
    assert multiset(r) == multiset(f);
    assert forall g :: g in r <==> g in multiset(r);
    assert forall g :: g in f <==> g in multiset(f);
    forall i, j | 0 <= i < j < |r|
      ensures !Before(BirthdayIn(r[j], today.year), BirthdayIn(r[i], today.year))
    {
      DayOfYearOrder(BirthdayIn(r[j], today.year), BirthdayIn(r[i], today.year));
    }
  }

  /** Each of the next `n` days is in the window. */
  lemma {:induction false} NextDaysInWindow(today: Date, n: nat, k: nat)
    requires ValidDate(today) && 1 <= k <= n
    ensures InWindow(StepDays(today, k), today, n)
  {
    StepDaysAscending(today, 0, k);
    if k < n {
      StepDaysAscending(today, k, n);
    }
  }

  lemma {:induction false} StepDaysAscending(d: Date, a: nat, b: nat)
    requires ValidDate(d) && a < b
    ensures Before(StepDays(d, a), StepDays(d, b))
    decreases b - a
  {
    StepDaysAdd(d, a, 1);
    assert StepDays(StepDays(d, a), 1) == NextDay(StepDays(d, a));
    if a + 1 < b {
      StepDaysAscending(d, a + 1, b);
    }
  }

  /** A date of birth that is missing or not a date never lists its giftee. */
  lemma InvalidNeverListed(g: Giftee, today: Date, n: nat)
    requires ValidDate(today)
    requires g.dateOfBirth.None? || ParseIso(g.dateOfBirth.value).None?
    ensures !Upcoming(g, today, n)
  {
  }

  /**
   * Birthdays are placed in the current year only: in December a January birthday
   * is never listed, even when the window runs into the next year.
   */
  lemma NewYearNotReached(g: Giftee, today: Date, n: nat)
    requires ValidDate(today) && today.month == 12
    requires g.dateOfBirth.Some? && ParseIso(g.dateOfBirth.value).Some?
    requires ParseIso(g.dateOfBirth.value).value.month == 1
    ensures !Upcoming(g, today, n)
  {
  }

  /** A birthday today is not listed: its midnight is already past. */
  lemma TodayNotListed(g: Giftee, today: Date, n: nat)
    requires ValidDate(today)
    requires BirthdayIn(g, today.year) == today
    ensures !Upcoming(g, today, n)
  {
  }
}
