/** Calendar dates, and the day number by which the age of a blocker is computed. */
module CalendarAge {
  datatype Date = Date(year: nat, month: nat, day: nat)

  predicate Leap(year: nat) { year % 4 == 0 && (year % 100 != 0 || year % 400 == 0) }

  function DaysIn(year: nat, month: nat): nat {
    if month == 2 then (if Leap(year) then 29 else 28)
    else if month == 4 || month == 6 || month == 9 || month == 11 then 30
    else 31
  }

  /** A date of the calendar. */
  predicate IsDate(d: Date) {
    1 <= d.year && 1 <= d.month <= 12 && 1 <= d.day <= DaysIn(d.year, d.month)
  }

  /** The order of dates written year first, which is the order of their texts. */
  predicate Before(a: Date, b: Date) {
    a.year < b.year || (a.year == b.year && (a.month < b.month || (a.month == b.month && a.day < b.day)))
  }

  /** The days before a year that begins in March, counted from one of four hundred. */
  function YearStart(year: nat): int {
    var era := year / 400;
    var yearOfEra := year - era * 400;
    era * 146097 + yearOfEra * 365 + yearOfEra / 4 - yearOfEra / 100
  }

  /** The days before a month of a year that begins in March. */
  function MonthStart(month: int): int { (153 * month + 2) / 5 }

  function DayOrdinal(d: Date): int
    requires d.year >= 1
  {
    var adjustedYear := d.year - if d.month <= 2 then 1 else 0;
    var adjustedMonth := d.month + if d.month > 2 then -3 else 9;
    YearStart(adjustedYear) + MonthStart(adjustedMonth) + d.day - 1
  }

  function NextDay(d: Date): Date {
    if d.day < DaysIn(d.year, d.month) then d.(day := d.day + 1)
    else if d.month < 12 then Date(d.year, d.month + 1, 1)
    else Date(d.year + 1, 1, 1)
  }

  function DaysAfter(d: Date, n: nat): Date
    decreases n
  {
    if n == 0 then d else DaysAfter(NextDay(d), n - 1)
  }

  lemma By4(q: nat, r: nat)
    requires r < 4
    ensures (4 * q + r) % 4 == r
  {
  }

  lemma By100(q: nat, r: nat)
    requires r < 100
    ensures (100 * q + r) % 100 == r
  {
  }

  lemma By400(q: nat, r: nat)
    requires r < 400
    ensures (400 * q + r) / 400 == q && (400 * q + r) % 400 == r
  {
  }

  lemma FourHundred(n: nat, era: nat, r: nat)
    requires n == 400 * era + r && r < 400
    ensures n / 400 == era && n % 400 == r && n % 100 == r % 100 && n % 4 == r % 4
  {
    By400(era, r);
    By100(4 * era + r / 100, r % 100);
    By4(100 * era + r / 4, r % 4);
    assert n == 100 * (4 * era + r / 100) + r % 100;
    assert n == 4 * (100 * era + r / 4) + r % 4;
  }

  /** Within an era, where the leap day of a year that begins in March falls in the next calendar year. */
  lemma YearOfEra(r: nat)
    requires r < 399
    ensures (r + 1) / 4 - r / 4 == (if (r + 1) % 4 == 0 then 1 else 0)
    ensures (r + 1) / 100 - r / 100 == (if (r + 1) % 100 == 0 then 1 else 0)
    ensures (r + 1) % 100 == 0 ==> (r + 1) % 4 == 0
  {
  }

  lemma YearLength(year: nat)
    ensures YearStart(year + 1) - YearStart(year) == if Leap(year + 1) then 366 else 365
  {
    var era, r, next := year / 400, year % 400, year + 1;
    FourHundred(year, era, r);
    if r < 399 {
      FourHundred(next, era, r + 1);
      YearOfEra(r);
    } else {
      FourHundred(next, era + 1, 0);
    }
  }

  lemma MonthLength(month: nat)
    requires 1 <= month <= 12 && month != 2
    ensures var m := month + if month > 2 then -3 else 9;
      MonthStart(m + 1) - MonthStart(m) == (if month == 4 || month == 6 || month == 9 || month == 11 then 30 else 31)
    ensures MonthStart(11) == 337 && MonthStart(0) == 0
  {
  }

  /** The day number counts days: the next day of the calendar has the next number. */
  lemma NextDayCounts(d: Date)
    requires IsDate(d)
    ensures IsDate(NextDay(d)) && Before(d, NextDay(d))
    ensures DayOrdinal(NextDay(d)) == DayOrdinal(d) + 1
  {
    if d.day == DaysIn(d.year, d.month) {
      if d.month == 2 {
        YearLength(d.year - 1);
        MonthLength(1);
      } else {
        MonthLength(d.month);
      }
    }
    hide YearStart, Leap, MonthStart;
  }

  /** The difference of two day numbers is the number of days from the earlier to the later date. */
  lemma {:induction false} AgeIsDays(a: Date, b: Date)
    requires IsDate(a) && IsDate(b) && !Before(b, a)
    ensures DayOrdinal(b) >= DayOrdinal(a)
    ensures DaysAfter(a, DayOrdinal(b) - DayOrdinal(a)) == b
    decreases b.year - a.year, 12 - a.month, 31 - a.day
  {
    if a != b {
      NextDayCounts(a);
      AgeIsDays(NextDay(a), b);
    }
  }
}
