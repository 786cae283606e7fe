/** Iran days and UTC calendar months over instants in nanoseconds since 1970-01-01T00:00Z. */
module Calendar {

  // Nanoseconds in a minute and in a day; the literal is repeated in products, to keep them linear.
  const MINUTE := 60_000_000_000
  const DAY := 86_400_000_000_000

  /** Iran Standard Time is a fixed +03:30. */
  const IRAN_OFFSET := 12_600_000_000_000

  /** The Iran calendar day containing t, counted from 1970-01-01. */
  function IranDay(t: int): int {
    (t + IRAN_OFFSET) / 86_400_000_000_000
  }

  /** Midnight in Iran at the start of day d. */
  function DayStart(d: int): int {
    d * 86_400_000_000_000 - IRAN_OFFSET
  }

  lemma IranDayIsItsInterval(t: int, d: int)
    ensures IranDay(t) == d <==> DayStart(d) <= t < DayStart(d + 1)
  {
  }

  /** Exactly k days later is exactly k Iran days later. */
  lemma DayShift(t: int, k: int)
    ensures IranDay(t + k * DAY) == IranDay(t) + k
  {
    IranDayIsItsInterval(t, IranDay(t));
    IranDayIsItsInterval(t + k * DAY, IranDay(t) + k);
  }

  lemma DaysAreMonotone(s: int, t: int)
    requires s <= t
    ensures IranDay(s) <= IranDay(t)
  {
  }

  // ----- months, numbered from January 1970 -----

  predicate IsLeap(y: int) {
    y % 4 == 0 && (y % 100 != 0 || y % 400 == 0)
  }

  function DaysIn(m: int): (n: int)
    ensures 28 <= n <= 31
  {
    var i := m % 12;
    if i == 1 then if IsLeap(1970 + m / 12) then 29 else 28
    else if i == 3 || i == 5 || i == 8 || i == 10 then 30
    else 31
  }

  function MonthStart(m: int): int
    decreases if m < 0 then -m else m
  {
    if m == 0 then 0
    else if m > 0 then MonthStart(m - 1) + DaysIn(m - 1) * 86_400_000_000_000
    else MonthStart(m + 1) - DaysIn(m) * 86_400_000_000_000
  }

  /** A month is at least 28 and at most 31 days long. */
  lemma MonthLength(m: int)
    ensures MonthStart(m) + 28 * DAY <= MonthStart(m + 1) <= MonthStart(m) + 31 * DAY
  {
    var n := DaysIn(m);
  }

  lemma {:induction false} MonthsAreApart(m: int, n: int)
    requires m <= n
    ensures MonthStart(m) <= MonthStart(n)
    decreases n - m
  {
    if m < n {
      MonthsAreApart(m, n - 1);
      MonthLength(n - 1);
    }
  }

  ghost predicate InMonth(t: int, m: int) {
    MonthStart(m) <= t < MonthStart(m + 1)
  }

  function MonthUp(t: int, m: int): (k: int)
    requires MonthStart(m) <= t
    ensures InMonth(t, k)
    decreases t - MonthStart(m)
  {
    MonthLength(m);
    if t < MonthStart(m + 1) then m else MonthUp(t, m + 1)
  }

  function MonthDown(t: int, m: int): (k: int)
    requires t < MonthStart(m + 1)
    ensures InMonth(t, k)
    decreases MonthStart(m + 1) - t
  {
    MonthLength(m);
    if MonthStart(m) <= t then m else MonthDown(t, m - 1)
  }

  /** The UTC month containing t. */
  function MonthOf(t: int): (k: int)
    ensures InMonth(t, k)
  {
    if t >= 0 then MonthUp(t, 0) else MonthDown(t, -1)
  }

  lemma MonthIsUnique(t: int, m: int, n: int)
    requires InMonth(t, m) && InMonth(t, n)
    ensures m == n
  {
    if m < n {
      MonthsAreApart(m + 1, n);
    } else if n < m {
      MonthsAreApart(n + 1, m);
    }
  }

  lemma MonthsAreMonotone(s: int, t: int)
    requires s <= t
    ensures MonthOf(s) <= MonthOf(t)
  {
    var m, n := MonthOf(s), MonthOf(t);
    if n < m {
      MonthsAreApart(n + 1, m);
    }
  }

  /** time.Time.AddDate(0, n, 0): same day and clock counted from the start of the month n away. */
  function AddMonths(t: int, n: int): int {
    MonthStart(MonthOf(t) + n) + (t - MonthStart(MonthOf(t)))
  }

  /** Six calendar months are at least 168 days. */
  lemma SixMonthsBack(t: int)
    ensures AddMonths(t, -6) <= t - 168 * DAY
  {
    var m := MonthOf(t);
    MonthLength(m - 1);
    MonthLength(m - 2);
    MonthLength(m - 3);
    MonthLength(m - 4);
    MonthLength(m - 5);
    MonthLength(m - 6);
  }

  // ----- the calendars themselves -----

  /** Iran's midnight is 20:30 UTC of the day before, every day of the year. */
  lemma IranMidnight(d: int)
    ensures DayStart(d) == (d * 1440 - 210) * 60_000_000_000
    ensures IranDay(DayStart(d)) == d && IranDay(DayStart(d) - 1) == d - 1
  {
  }

  /** Leap years before the given one, counted by the rule of four, a hundred and four hundred. */
  function LeapsBefore(year: int): int {
    (year - 1) / 4 - (year - 1) / 100 + (year - 1) / 400
  }

  lemma FourthYears(y: int)
    ensures y / 4 - (y - 1) / 4 == if y % 4 == 0 then 1 else 0
  {
  }

  lemma HundredthYears(y: int)
    ensures y / 100 - (y - 1) / 100 == if y % 100 == 0 then 1 else 0
  {
  }

  lemma FourHundredthYears(y: int)
    ensures y / 400 - (y - 1) / 400 == if y % 400 == 0 then 1 else 0
  {
  }

  lemma HundredsAreFours(y: int)
    requires y % 100 == 0
    ensures y % 4 == 0
  {
    var hundreds := y / 100;
    assert y == 4 * (25 * hundreds);
  }

  lemma FourHundredsAreHundreds(y: int)
    requires y % 400 == 0
    ensures y % 100 == 0
  {
    var fourHundreds := y / 400;
    assert y == 100 * (4 * fourHundreds);
  }

  lemma LeapYearsAreCounted(y: int)
    ensures LeapsBefore(y + 1) - LeapsBefore(y) == if IsLeap(y) then 1 else 0
  {
    FourthYears(y);
    HundredthYears(y);
    FourHundredthYears(y);
    if y % 100 == 0 {
      HundredsAreFours(y);
    }
    if y % 400 == 0 {
      FourHundredsAreHundreds(y);
    }
  }

  /** Thirty days have September, April, June and November; February has 28, and 29 in a leap year. */
  lemma DaysInTheMonths(m: int)
    ensures DaysIn(m) == 30 <==> m % 12 in {3, 5, 8, 10}
    ensures m % 12 == 1 ==> DaysIn(m) == 28 + LeapsBefore(1970 + m / 12 + 1) - LeapsBefore(1970 + m / 12)
    ensures m % 12 in {0, 2, 4, 6, 7, 9, 11} ==> DaysIn(m) == 31
  {
    LeapYearsAreCounted(1970 + m / 12);
  }

  lemma NextMonth(m: int)
    ensures MonthStart(m + 1) == MonthStart(m) + DaysIn(m) * 86_400_000_000_000
  {
  }

  /** The quarter from month m on, by the lengths of its months. */
  lemma Quarter(m: int)
    ensures MonthStart(m + 3) ==
      MonthStart(m) + (DaysIn(m) + DaysIn(m + 1) + DaysIn(m + 2)) * 86_400_000_000_000
  {
    NextMonth(m);
    NextMonth(m + 1);
    NextMonth(m + 2);
  }

  lemma MonthInYear(y: int, k: int)
    requires 0 <= k < 12
    ensures (12 * y + k) % 12 == k && (12 * y + k) / 12 == y
  {
  }

  lemma QuarterLengths(y: int)
    ensures DaysIn(12 * y) + DaysIn(12 * y + 1) + DaysIn(12 * y + 2) ==
      90 + LeapsBefore(1970 + y + 1) - LeapsBefore(1970 + y)
    ensures DaysIn(12 * y + 3) + DaysIn(12 * y + 4) + DaysIn(12 * y + 5) == 91
    ensures DaysIn(12 * y + 6) + DaysIn(12 * y + 7) + DaysIn(12 * y + 8) == 92
    ensures DaysIn(12 * y + 9) + DaysIn(12 * y + 10) + DaysIn(12 * y + 11) == 92
  {
    LengthInYear(y, 0);
    LengthInYear(y, 1);
    LengthInYear(y, 2);
    LengthInYear(y, 3);
    LengthInYear(y, 4);
    LengthInYear(y, 5);
    LengthInYear(y, 6);
    LengthInYear(y, 7);
    LengthInYear(y, 8);
    LengthInYear(y, 9);
    LengthInYear(y, 10);
    LengthInYear(y, 11);
  }

  lemma LengthInYear(y: int, k: int)
    requires 0 <= k < 12
    ensures DaysIn(12 * y + k) ==
      if k == 1 then 28 + LeapsBefore(1970 + y + 1) - LeapsBefore(1970 + y)
      else if k in {3, 5, 8, 10} then 30 else 31
  {
    MonthInYear(y, k);
    DaysInTheMonths(12 * y + k);
  }

  lemma YearLength(y: int)
    ensures MonthStart(12 * y + 12) ==
      MonthStart(12 * y) + (365 + LeapsBefore(1970 + y + 1) - LeapsBefore(1970 + y)) * 86_400_000_000_000
  {
    QuarterLengths(y);
    Quarter(12 * y);
    Quarter(12 * y + 3);
    Quarter(12 * y + 6);
    Quarter(12 * y + 9);
  }

  /** Each year begins where the classical count of days says. */
  lemma {:induction false} YearStartsByTheFormula(y: int)
    ensures MonthStart(12 * y) == YearDays(y) * 86_400_000_000_000
    decreases if y < 0 then -y else y
  {
    if y > 0 {
      YearStartsByTheFormula(y - 1);
      NextYear(y - 1);
    } else if y < 0 {
      YearStartsByTheFormula(y + 1);
      NextYear(y);
    }
  }

  /** The days from the epoch to the start of the year. */
  function YearDays(y: int): int {
    365 * y + LeapsBefore(1970 + y) - LeapsBefore(1970)
  }

  lemma NextYear(y: int)
    ensures MonthStart(12 * (y + 1)) == MonthStart(12 * y) + (YearDays(y + 1) - YearDays(y)) * 86_400_000_000_000
  {
    YearLength(y);
  }

  /** The day of the month, from 0, and the time of that day. */
  function DayOfMonth(t: int): int {
    (t - MonthStart(MonthOf(t))) / 86_400_000_000_000
  }

  /** Months later it is the same time of the same day of the month, if that month has the day, and else runs over. */
  lemma AddMonthsKeepsTheDay(t: int, n: int)
    ensures var u, m := AddMonths(t, n), MonthOf(t) + n;
      if DayOfMonth(t) < DaysIn(m)
      then MonthOf(u) == m && DayOfMonth(u) == DayOfMonth(t) &&
        (u - MonthStart(m)) % 86_400_000_000_000 == (t - MonthStart(MonthOf(t))) % 86_400_000_000_000
      else u >= MonthStart(m + 1) && u - MonthStart(m + 1) < 3 * DAY
  {
    var m := MonthOf(t) + n;
    NextMonth(m);
    NextMonth(MonthOf(t));
    if DayOfMonth(t) < DaysIn(m) {
      MonthIsUnique(AddMonths(t, n), MonthOf(AddMonths(t, n)), m);
    }
  }
}
