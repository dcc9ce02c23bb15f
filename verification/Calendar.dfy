// The calendar arithmetic of stu_gmtime in stu_time.c.
module Calendar {
  import opened Words

  // ----- The rules --------------------------------------------------------------------

  datatype Date = Date(year: int, mon: int, mday: int)

  predicate Leap(y: int) {
    y % 4 == 0 && (y % 100 != 0 || y % 400 == 0)
  }

  function DaysIn(y: int, m: int): int {
    if m == 2 then (if Leap(y) then 29 else 28)
    else if m == 4 || m == 6 || m == 9 || m == 11 then 30
    else 31
  }

  predicate Valid(d: Date) {
    1 <= d.mon <= 12 && 1 <= d.mday <= DaysIn(d.year, d.mon)
  }

  function Tomorrow(d: Date): Date {
    if d.mday < DaysIn(d.year, d.mon) then d.(mday := d.mday + 1)
    else if d.mon < 12 then Date(d.year, d.mon + 1, 1)
    else Date(d.year + 1, 1, 1)
  }

  // The date `days` days after January 1, 1970, by counting.
  function Counted(days: nat): Date {
    if days == 0 then Date(1970, 1, 1) else Tomorrow(Counted(days - 1))
  }

  // The calendar in plain numbers.
  lemma Gregorian(y: int, m: int, mday: int)
    ensures Counted(0) == Date(1970, 1, 1)
    ensures m == 1 || m == 3 || m == 5 || m == 7 || m == 8 || m == 10 || m == 12 ==> DaysIn(y, m) == 31
    ensures m == 4 || m == 6 || m == 9 || m == 11 ==> DaysIn(y, m) == 30
    ensures DaysIn(y, 2) == if y % 400 == 0 || (y % 4 == 0 && y % 100 != 0) then 29 else 28
    ensures mday < DaysIn(y, m) ==> Tomorrow(Date(y, m, mday)) == Date(y, m, mday + 1)
    ensures m < 12 && mday == DaysIn(y, m) ==> Tomorrow(Date(y, m, mday)) == Date(y, m + 1, 1)
    ensures m == 12 && mday == 31 ==> Tomorrow(Date(y, m, mday)) == Date(y + 1, 1, 1)
  {
    if y % 400 == 0 {
      Multiples(y);
    }
  }

  // ----- The closed form --------------------------------------------------------------

  // Days before March 1 of year y, counted from March 1, 1 BC.
  function Before(y: int): int {
    365 * y + y / 4 - y / 100 + y / 400
  }

  // The estimate of the year, one too large at times.
  function Estimate(days: int): int {
    (days + 2) * 400 / (365 * 400 + 100 - 4 + 1)
  }

  function DaysFromMarch(days: nat): int {
    days - (31 + 28) + 719527
  }

  // The year beginning in March and the day in it, after the correction.
  function YearAndDay(d: int): (int, int) {
    var year := Estimate(d);
    var yday := d - Before(year);
    if yday < 0 then (year - 1, 365 + (if Leap(year) then 1 else 0) + yday) else (year, yday)
  }

  function MonthOf(yday: int): int {
    (yday + 31) * 10 / 306
  }

  function DateOf(days: nat): Date {
    var (year, yday) := YearAndDay(DaysFromMarch(days));
    var mon := MonthOf(yday);
    var mday := yday - (367 * mon / 12 - 30) + 1;
    if yday >= 306 then Date(year + 1, mon - 10, mday) else Date(year, mon + 2, mday)
  }

  datatype Tm = Tm(sec: int, min: int, hour: int, mday: int, mon: int, year: int, wday: int)

  // The cast to int.
  function Int(x: int): int {
    var w := x % 0x1_0000_0000;
    if w < 0x8000_0000 then w else w - 0x1_0000_0000
  }

  function Gmtime(t: nat): Tm {
    var days, n := t / 86400, t % 86400;
    var d := DateOf(days);
    Tm(Int(n % 3600 % 60), Int(n % 3600 / 60), Int(n / 3600), Int(d.mday), Int(d.mon), Int(d.year), Int((4 + days) % 7))
  }

  // ----- The year ---------------------------------------------------------------------

  // Within a year beginning in March, the estimate is exact or one too large.
  lemma EstimateNear(y: int, d: int)
    requires y >= 0 && Before(y) <= d < Before(y + 1)
    ensures y <= Estimate(d) <= y + 1
  {
    assert (d + 2) * 400 >= y * 146097;
    assert (d + 2) * 400 < (y + 2) * 146097;
  }

  lemma NextQuotients(y: int)
    ensures (y + 1) / 4 == y / 4 + (if (y + 1) % 4 == 0 then 1 else 0)
    ensures (y + 1) / 100 == y / 100 + (if (y + 1) % 100 == 0 then 1 else 0)
    ensures (y + 1) / 400 == y / 400 + (if (y + 1) % 400 == 0 then 1 else 0)
  {
  }

  lemma Multiples(y: int)
    ensures y % 400 == 0 ==> y % 100 == 0
    ensures y % 100 == 0 ==> y % 4 == 0
  {
    if y % 400 == 0 {
      TimesZero(4 * (y / 400), 100);
      assert y == 4 * (y / 400) * 100;
    }
    if y % 100 == 0 {
      TimesZero(25 * (y / 100), 4);
      assert y == 25 * (y / 100) * 4;
    }
  }

  lemma TimesZero(k: int, n: int)
    requires n == 4 || n == 100
    ensures k * n % n == 0
  {
  }

  lemma YearLength(y: int)
    ensures Before(y + 1) - Before(y) == if Leap(y + 1) then 366 else 365
  {
    NextQuotients(y);
    Multiples(y + 1);
  }

  // The correction finds the year and the day in it.
  lemma YearFound(y: int, d: int)
    requires y >= 0 && Before(y) <= d < Before(y + 1)
    ensures YearAndDay(d) == (y, d - Before(y))
  {
    EstimateNear(y, d);
    YearLength(y);
  }

  // Every day lies in a year.
  lemma {:induction false} YearOf(d: nat) returns (y: nat)
    ensures Before(y) <= d < Before(y + 1)
  {
    if d == 0 {
      y := 0;
    } else {
      y := YearOf(d - 1);
      YearLength(y);
      if d == Before(y + 1) {
        y := y + 1;
        YearLength(y);
      }
    }
  }

  // ----- The month --------------------------------------------------------------------

  // Days from March 1 to the beginning of a month, March being 1 and February 12.
  function MonthStart(m: int): int {
    367 * m / 12 - 30
  }

  lemma MonthFound(m: int, yday: int)
    requires 1 <= m <= 12 && MonthStart(m) <= yday < MonthStart(m + 1) && yday <= 365
    ensures MonthOf(yday) == m
  {
  }

  lemma MonthLength(y: int, m: int)
    requires 1 <= m < 12
    ensures MonthStart(m + 1) - MonthStart(m) == if m <= 10 then DaysIn(y, m + 2) else DaysIn(y, m - 10)
  {
  }

  // ----- The date ---------------------------------------------------------------------

  // Year y and month m, March of y being 1, in the usual count.
  function Usual(y: int, m: int, mday: int): Date {
    if m <= 10 then Date(y, m + 2, mday) else Date(y + 1, m - 10, mday)
  }

  function Length(y: int, m: int): int {
    if m < 12 then MonthStart(m + 1) - MonthStart(m) else if Leap(y + 1) then 29 else 28
  }

  // The date of a day given by its year, beginning in March, its month, March being 1, and
  // its day.
  lemma DateFound(days: nat, y: int, m: int, mday: int)
    requires y >= 0 && 1 <= m <= 12 && 1 <= mday
    requires DaysFromMarch(days) == Before(y) + MonthStart(m) + mday - 1
    requires mday <= Length(y, m)
    ensures DateOf(days) == Usual(y, m, mday)
  {
    YearLength(y);
    YearFound(y, DaysFromMarch(days));
    MonthFound(m, MonthStart(m) + mday - 1);
  }

  // Where a day lies in its year.
  lemma PlaceOf(days: nat) returns (y: int, m: int, mday: int)
    ensures y >= 0 && 1 <= m <= 12 && 1 <= mday
    ensures DaysFromMarch(days) == Before(y) + MonthStart(m) + mday - 1
    ensures mday <= Length(y, m)
  {
    y := YearOf(DaysFromMarch(days));
    YearLength(y);
    var yday := DaysFromMarch(days) - Before(y);
    m := MonthOf(yday);
    mday := yday - MonthStart(m) + 1;
  }

  // The days since January 1, 1970, of a date.
  function DaysOf(d: Date): int {
    (if d.mon > 2 then Before(d.year) + MonthStart(d.mon - 2) else Before(d.year - 1) + MonthStart(d.mon + 10))
    + d.mday - 1 + (31 + 28) - 719527
  }

  // The date is a real one, and it is the date of that day.
  lemma DateOfDay(days: nat)
    ensures Valid(DateOf(days)) && DaysOf(DateOf(days)) == days
  {
    var y, m, mday := PlaceOf(days);
    DateFound(days, y, m, mday);
    if m < 12 { MonthLength(if m <= 10 then y else y + 1, m); }
  }

  // Every real date from 1970 on is the date of its day, and of no other.
  lemma DayOfDate(d: Date)
    requires Valid(d) && d.year >= 1970
    ensures DaysOf(d) >= 0 && DateOf(DaysOf(d)) == d
  {
    BeforeGrows(1969, d.year - 1);
    assert Before(1969) == 719162;
    var y, m := if d.mon > 2 then d.year else d.year - 1, if d.mon > 2 then d.mon - 2 else d.mon + 10;
    YearLength(d.year - 1);
    if m < 12 { MonthLength(d.year, m); }
    DateFound(DaysOf(d), y, m, d.mday);
  }

  lemma {:induction false} BeforeGrows(x: int, y: int)
    requires x <= y
    ensures Before(x) <= Before(y)
    decreases y - x
  {
    if x < y {
      YearLength(x);
      BeforeGrows(x + 1, y);
    }
  }

  lemma TomorrowOf(y: int, m: int, mday: int)
    requires 1 <= m <= 12 && 1 <= mday <= Length(y, m)
    ensures Tomorrow(Usual(y, m, mday)) ==
      if mday < Length(y, m) then Usual(y, m, mday + 1) else if m < 12 then Usual(y, m + 1, 1) else Usual(y + 1, 1, 1)
  {
    if m < 12 { MonthLength(if m <= 10 then y else y + 1, m); }
    assert Length(y, m) == DaysIn(Usual(y, m, mday).year, Usual(y, m, mday).mon);
  }

  // One day later it is tomorrow.
  lemma NextDay(days: nat)
    ensures DateOf(days + 1) == Tomorrow(DateOf(days))
  {
    var y, m, mday := PlaceOf(days);
    var next := if mday < Length(y, m) then Usual(y, m, mday + 1) else if m < 12 then Usual(y, m + 1, 1) else Usual(y + 1, 1, 1);
    assert Tomorrow(DateOf(days)) == next by {
      DateFound(days, y, m, mday);
      TomorrowOf(y, m, mday);
    }
    NextFound(days, y, m, mday, next);
  }

  lemma NextFound(days: nat, y: int, m: int, mday: int, next: Date)
    requires y >= 0 && 1 <= m <= 12 && 1 <= mday <= Length(y, m)
    requires DaysFromMarch(days) == Before(y) + MonthStart(m) + mday - 1
    requires next == if mday < Length(y, m) then Usual(y, m, mday + 1) else if m < 12 then Usual(y, m + 1, 1) else Usual(y + 1, 1, 1)
    ensures DateOf(days + 1) == next
  {
    if mday < Length(y, m) {
      DateFound(days + 1, y, m, mday + 1);
    } else if m < 12 {
      LastOfMonth(days, y, m);
    } else {
      LastOfYear(days, y);
    }
  }

  lemma LastOfMonth(days: nat, y: int, m: int)
    requires y >= 0 && 1 <= m < 12 && DaysFromMarch(days) == Before(y) + MonthStart(m) + Length(y, m) - 1
    ensures DateOf(days + 1) == Usual(y, m + 1, 1)
  {
    DateFound(days + 1, y, m + 1, 1);
  }

  lemma LastOfYear(days: nat, y: int)
    requires y >= 0 && DaysFromMarch(days) == Before(y) + MonthStart(12) + Length(y, 12) - 1
    ensures DateOf(days + 1) == Usual(y + 1, 1, 1)
  {
    YearLength(y);
    DateFound(days + 1, y + 1, 1, 1);
  }

  // The main result: the closed form is the calendar.
  lemma {:induction false} DateIsCounted(days: nat)
    ensures DateOf(days) == Counted(days)
  {
    if days == 0 {
      DateFound(0, 1969, 11, 1);
    } else {
      DateIsCounted(days - 1);
      NextDay(days - 1);
    }
  }

  // ----- The whole function -----------------------------------------------------------

  // A time of 63 bits is broken down correctly, except that the year is cast to int; it is
  // right exactly before the year 2147483648.
  lemma GmtimeCorrect(t: nat)
    requires t < HALF
    ensures var tm, d := Gmtime(t), Counted(t / 86400);
      && 0 <= tm.sec < 60 && 0 <= tm.min < 60 && 0 <= tm.hour < 24
      && (t / 86400 * 24 + tm.hour) * 3600 + tm.min * 60 + tm.sec == t
      && tm.wday == (4 + t / 86400) % 7 && tm.mon == d.mon && tm.mday == d.mday
      && (tm.year == d.year <==> t < DaysOf(Date(0x8000_0000, 1, 1)) * 86400)
  {
    var days, n := t / 86400, t % 86400;
    DateIsCounted(days);
    DateOfDay(days);
    YearSmall(days);
    Clock(n);
    SmallInt(n % 3600 % 60);
    SmallInt(n % 3600 / 60);
    SmallInt(n / 3600);
    var d := DateOf(days);
    SmallInt(d.mday);
    SmallInt(d.mon);
    SmallInt((4 + days) % 7);
    IntOf(d.year);
    YearBelow(days, 0x8000_0000);
  }

  // January 1 of a year lies at or before each of its days, and behind all earlier ones.
  lemma InYear(d: Date)
    requires Valid(d)
    ensures DaysOf(Date(d.year, 1, 1)) <= DaysOf(d) < DaysOf(Date(d.year + 1, 1, 1))
  {
    YearLength(d.year - 1);
    if d.mon != 2 && d.mon != 12 { MonthLength(d.year, if d.mon > 2 then d.mon - 2 else d.mon + 10); }
  }

  lemma YearBelow(days: nat, y: nat)
    ensures DateOf(days).year < y <==> days < DaysOf(Date(y, 1, 1))
  {
    DateOfDay(days);
    InYear(DateOf(days));
    YearsGrow(DateOf(days).year, y);
  }

  lemma YearsGrow(x: int, y: int)
    ensures if x < y then DaysOf(Date(x + 1, 1, 1)) <= DaysOf(Date(y, 1, 1)) else DaysOf(Date(y, 1, 1)) <= DaysOf(Date(x, 1, 1))
  {
    if x < y {
      BeforeGrows(x, y - 1);
    } else {
      BeforeGrows(y - 1, x - 1);
    }
  }

  lemma Clock(n: nat)
    requires n < 86400
    ensures n == (n / 3600 * 60 + n % 3600 / 60) * 60 + n % 3600 % 60 && n / 3600 < 24 && n % 3600 / 60 < 60
  {
  }

  lemma SmallInt(x: int)
    requires 0 <= x <= 0x7FFF_FFFF
    ensures Int(x) == x
  {
  }

  lemma IntOf(x: int)
    requires x >= 0
    ensures Int(x) == x <==> x <= 0x7FFF_FFFF
  {
  }

  lemma YearSmall(days: nat)
    requires days <= HALF / 86400
    ensures 0 <= DateOf(days).year < 0x100_0000_0000
  {
    var d := DaysFromMarch(days);
    var y := YearOf(d);
    YearFound(y, d);
    assert Before(y) >= 365 * y;
  }

  // No step leaves the 64 bits that the program computes with.
  lemma NoOverflow(t: nat)
    requires t < HALF
    ensures var d := DaysFromMarch(t / 86400);
      && 0 <= d && (d + 2) * 400 < MODULUS && 365 * Estimate(d) + Estimate(d) / 4 + Estimate(d) / 400 < MODULUS
      && -HALF <= d - Before(Estimate(d)) < HALF
  {
    var d := DaysFromMarch(t / 86400);
    var y := YearOf(d);
    EstimateNear(y, d);
    YearLength(y);
    assert Before(y) >= 365 * y;
  }
}
