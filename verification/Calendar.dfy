/** `days_to_ymd` of `src/util.rs`, against the Gregorian calendar stated by its rules. */
module Calendar {

  datatype Date = Date(year: nat, month: nat, day: nat)

  // ---- the calendar by its rules ----

  predicate IsLeap(year: nat) {
    year % 4 == 0 && (year % 100 != 0 || year % 400 == 0)
  }

  function DaysInMonth(year: nat, month: nat): nat {
    if month == 2 then (if IsLeap(year) then 29 else 28)
    else if month == 4 || month == 6 || month == 9 || month == 11 then 30
    else 31
  }

  predicate IsDate(d: Date) {
    1 <= d.month <= 12 && 1 <= d.day <= DaysInMonth(d.year, d.month)
  }

  /** The day after. */
  function Next(d: Date): Date {
    if d.day < DaysInMonth(d.year, d.month) then d.(day := d.day + 1)
    else if d.month < 12 then Date(d.year, d.month + 1, 1)
    else Date(d.year + 1, 1, 1)
  }

  const EPOCH := Date(1970, 1, 1)

  predicate Before(a: Date, b: Date) {
    a.year < b.year || (a.year == b.year && (a.month < b.month || (a.month == b.month && a.day < b.day)))
  }

  /** `n` days after the epoch, one day at a time. */
  function DayAfterDay(n: nat): Date {
    if n == 0 then EPOCH else Next(DayAfterDay(n - 1))
  }

  // ---- the closed form of the source ----

  const EPOCH_SHIFT: nat := 719468
  const DAYS_PER_ERA: nat := 146097

  /** Year within the 400-year era, from the day within the era. */
  function YearOfEra(doe: nat): (y: nat)
    requires doe < DAYS_PER_ERA
  {
    (doe - doe / 1460 + doe / 36524 - doe / 146096) / 365
  }

  /** First day, within the era, of year `y` of the era; years begin on 1 March. */
  function YearStart(y: nat): nat {
    365 * y + y / 4 - y / 100
  }

  function DayOfYear(doe: nat): nat
    requires doe < DAYS_PER_ERA
  {
    YearOfEraCorrect(doe);
    doe - (365 * YearOfEra(doe) + YearOfEra(doe) / 4 - YearOfEra(doe) / 100)
  }

  /** March-based month and day from the day of the March-based year. */
  function MonthDay(doy: nat): (nat, nat)
    requires doy <= 365
  {
    var mp := (5 * doy + 2) / 153;
    (if mp < 10 then mp + 3 else mp - 9, doy - (153 * mp + 2) / 5 + 1)
  }

  function DaysToYmd(days: nat): Date {
    var shifted := days + EPOCH_SHIFT;
    var era := shifted / DAYS_PER_ERA;
    var doe := shifted % DAYS_PER_ERA;
    YearOfEraCorrect(doe);
    var yoe := YearOfEra(doe);
    var y := yoe + era * 400;
    var (m, d) := MonthDay(DayOfYear(doe));
    Date(if m <= 2 then y + 1 else y, m, d)
  }

  // ---- years ----

  /** A day of the era by century, four-year group and rest. */
  lemma DaySplit(doe: nat) returns (c: nat, b: nat, s: nat)
    requires doe < DAYS_PER_ERA - 1
    ensures c <= 3 && b <= 24 && s < 1461 && doe == 36524 * c + 1461 * b + s
    ensures b == 24 ==> s <= 1459
  {
    c := doe / 36524;
    var r := doe % 36524;
    b := r / 1461;
    s := r % 1461;
  }

  /** The quotients of the source, in those terms. */
  lemma QuotientsOfSplit(c: nat, b: nat, s: nat)
    requires c <= 3 && b <= 24 && s < 1461 && (b == 24 ==> s <= 1459)
    ensures var doe := 36524 * c + 1461 * b + s;
            && doe / 36524 == c && doe / 146096 == 0
            && doe / 1460 == 25 * c + b + (if s + 24 * c + b >= 1460 then 1 else 0)
  {
    var doe := 36524 * c + 1461 * b + s;
    assert doe == 1460 * (25 * c + b) + (24 * c + b + s);
  }

  /** The formula finds the year, and its subtractions do not underflow. */
  lemma YearOfEraCorrect(doe: nat)
    requires doe < DAYS_PER_ERA
    ensures YearOfEra(doe) <= 399
    ensures YearStart(YearOfEra(doe)) <= doe
    ensures doe < if YearOfEra(doe) == 399 then DAYS_PER_ERA else YearStart(YearOfEra(doe) + 1)
  {
    if doe < DAYS_PER_ERA - 1 {
      var c, b, s := DaySplit(doe);
      QuotientsOfSplit(c, b, s);
      var a := if s == 1460 then 3 else s / 365;
      assert YearOfEra(doe) == 100 * c + 4 * b + a;
      YearStartOfSplit(c, b, a);
      if a < 3 {
        YearStartOfSplit(c, b, a + 1);
      } else if b < 24 {
        YearStartOfSplit(c, b + 1, 0);
      } else if c < 3 {
        YearStartOfSplit(c + 1, 0, 0);
      }
    }
  }

  lemma YearStartOfSplit(c: nat, b: nat, a: nat)
    requires c <= 3 && b <= 24 && a <= 3
    ensures YearStart(100 * c + 4 * b + a) == 36524 * c + 1461 * b + 365 * a
  {
    assert (100 * c + 4 * b + a) / 4 == 25 * c + b;
    assert (100 * c + 4 * b + a) / 100 == c;
  }

  // ---- the day number and the March-based year ----

  /** First day, counted like `days + EPOCH_SHIFT`, of March-based year `y`. */
  function AbsoluteStart(y: nat): nat {
    365 * y + y / 4 - y / 100 + y / 400
  }

  /** Year `y` ends with the February of year `y + 1`. */
  function MarchYearLength(y: nat): nat {
    if IsLeap(y + 1) then 366 else 365
  }

  lemma QuotientStep(y: nat, m: nat)
    requires m in {4, 100, 400}
    ensures (y + 1) / m == y / m + if (y + 1) % m == 0 then 1 else 0
  {
  }

  lemma Multiples(y: nat)
    ensures y % 400 == 0 ==> y % 100 == 0
    ensures y % 100 == 0 ==> y % 4 == 0
  {
    if y % 100 == 0 {
      assert y == 4 * (25 * (y / 100));
    }
    if y % 400 == 0 {
      assert y == 100 * (4 * (y / 400));
    }
  }

  lemma StartStep(y: nat)
    ensures AbsoluteStart(y + 1) == AbsoluteStart(y) + MarchYearLength(y)
  {
    QuotientStep(y, 4);
    QuotientStep(y, 100);
    QuotientStep(y, 400);
    Multiples(y + 1);
  }

  lemma StartOfEraYear(era: nat, y: nat)
    requires y <= 399
    ensures AbsoluteStart(400 * era + y) == DAYS_PER_ERA * era + YearStart(y)
  {
    assert (400 * era + y) / 4 == 100 * era + y / 4;
    assert (400 * era + y) / 100 == 4 * era + y / 100;
    assert (400 * era + y) / 400 == era;
  }

  /** A later year starts after an earlier one has ended. */
  lemma {:induction false} YearsDoNotOverlap(a: nat, b: nat)
    ensures a < b ==> AbsoluteStart(a) + MarchYearLength(a) <= AbsoluteStart(b)
    decreases b
  {
    if a < b {
      YearsDoNotOverlap(a, b - 1);
      StartStep(b - 1);
    }
  }

  /** The date of day `doy` of March-based year `y`. */
  function FromMarch(y: nat, doy: nat): Date
    requires doy <= 365
  {
    var (m, d) := MonthDay(doy);
    Date(if m <= 2 then y + 1 else y, m, d)
  }

  /** The closed form picks the March-based year and the day in it. */
  lemma YmdIsFromMarch(n: nat) returns (y: nat, doy: nat)
    ensures doy < MarchYearLength(y) && n + EPOCH_SHIFT == AbsoluteStart(y) + doy
    ensures DaysToYmd(n) == FromMarch(y, doy)
  {
    var era, doe := (n + EPOCH_SHIFT) / DAYS_PER_ERA, (n + EPOCH_SHIFT) % DAYS_PER_ERA;
    YearOfEraCorrect(doe);
    y, doy := YearOfEra(doe) + era * 400, DayOfYear(doe);
    StartOfEraYear(era, YearOfEra(doe));
    if YearOfEra(doe) < 399 {
      StartOfEraYear(era, YearOfEra(doe) + 1);
    } else {
      StartOfEraYear(era + 1, 0);
    }
    StartStep(y);
  }

  /** Only one year contains a given day. */
  lemma YearUnique(y1: nat, d1: nat, y2: nat, d2: nat)
    requires AbsoluteStart(y1) + d1 == AbsoluteStart(y2) + d2
    requires d1 < MarchYearLength(y1) && d2 < MarchYearLength(y2)
    ensures y1 == y2 && d1 == d2
  {
    YearsDoNotOverlap(y1, y2);
    YearsDoNotOverlap(y2, y1);
  }

  // ---- months ----

  lemma MonthDayStep(y: nat, doy: nat)
    requires doy < MarchYearLength(y)
    ensures IsDate(FromMarch(y, doy))
    ensures doy + 1 < MarchYearLength(y) ==> FromMarch(y, doy + 1) == Next(FromMarch(y, doy))
    ensures doy + 1 == MarchYearLength(y) ==> FromMarch(y + 1, 0) == Next(FromMarch(y, doy))
  {
    hide IsLeap;
    var mp := (5 * doy + 2) / 153;
    assert mp <= 11;
  }

  // ---- the results ----

  /** Every day number gives a real date, and the next number gives the next date. */
  lemma NextDay(n: nat)
    ensures IsDate(DaysToYmd(n))
    ensures DaysToYmd(n + 1) == Next(DaysToYmd(n))
  {
    hide FromMarch, DaysToYmd, AbsoluteStart, Next, IsDate;
    var y, doy := YmdIsFromMarch(n);
    var y', doy' := YmdIsFromMarch(n + 1);
    MonthDayStep(y, doy);
    StartStep(y);
    StartStep(y + 1);
    if doy + 1 < MarchYearLength(y) {
      YearUnique(y, doy + 1, y', doy');
    } else {
      YearUnique(y + 1, 0, y', doy');
    }
  }

  lemma DayZero()
    ensures DaysToYmd(0) == EPOCH
  {
    assert YearOfEra(135080) == 369;
  }

  /** The closed form is the calendar: it agrees with counting day by day from 1 January 1970. */
  lemma {:induction false} ClosedFormIsCalendar(n: nat)
    ensures DaysToYmd(n) == DayAfterDay(n) && IsDate(DaysToYmd(n))
  {
    hide DaysToYmd, Next, IsDate;
    if n == 0 {
      DayZero();
    } else {
      ClosedFormIsCalendar(n - 1);
      NextDay(n - 1);
    }
    NextDay(n);
  }

  lemma NextIsLater(d: Date)
    requires IsDate(d)
    ensures Before(d, Next(d))
  {
  }

  /** Later days have later dates; so no two days share a date. */
  lemma {:induction false} DatesIncrease(a: nat, b: nat)
    requires a < b
    ensures Before(DaysToYmd(a), DaysToYmd(b))
    decreases b
  {
    hide DaysToYmd, Next, IsDate;
    NextDay(b - 1);
    NextIsLater(DaysToYmd(b - 1));
    if a < b - 1 {
      DatesIncrease(a, b - 1);
    }
  }
}
