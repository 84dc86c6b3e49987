/** The proleptic Gregorian calendar over day numbers counted from 1970-01-01. */
module Calendar {
  datatype Date = Date(year: int, month: int, day: int)

  predicate IsLeap(y: int) { y % 4 == 0 && (y % 100 != 0 || y % 400 == 0) }

  function DaysIn(month: int, year: int): int {
    if month == 2 then (if IsLeap(year) then 29 else 28)
    else if month in {4, 6, 9, 11} then 30
    else 31
  }

  predicate IsDate(date: Date) {
    1 <= date.month <= 12 && 1 <= date.day <= DaysIn(date.month, date.year)
  }

  /** Days from March 1 of year 0 to 1970-01-01; years are counted from March so that leap days come last. */
  const EPOCH := 719468

  /** Position of a day in its 400-year era: the year of the era and the day of that year. */
  function YearOfEra(doe: int): (r: (int, int))
    requires 0 <= doe < 146097
    ensures 0 <= r.0 < 400 && 0 <= r.1 <= 365
    ensures 365 * r.0 + r.0 / 4 - r.0 / 100 + r.1 == doe
    ensures r.1 == 365 ==> IsLeap(r.0 + 1)
  {
    var century := if doe / 36524 > 3 then 3 else doe / 36524;
    var inCentury := doe - 36524 * century;
    var cycle := inCentury / 1461;
    var inCycle := inCentury - 1461 * cycle;
    var year := if inCycle / 365 > 3 then 3 else inCycle / 365;
    YearParts(century, cycle, year);
    (100 * century + 4 * cycle + year, inCycle - 365 * year)
  }

  lemma YearParts(century: int, cycle: int, year: int)
    requires 0 <= century <= 3 && 0 <= cycle <= 24 && 0 <= year <= 3
    ensures
      var yoe := 100 * century + 4 * cycle + year;
      && yoe / 4 == 25 * century + cycle
      && yoe / 100 == century
      && (year == 3 && (cycle < 24 || century == 3) ==> IsLeap(yoe + 1))
  {
    var yoe := 100 * century + 4 * cycle + year;
    assert yoe == 4 * (25 * century + cycle) + year;
    assert yoe == 100 * century + (4 * cycle + year);
    if year == 3 && cycle < 24 {
      assert yoe + 1 == 4 * (25 * century + cycle + 1);
      assert yoe + 1 == 100 * century + 4 * (cycle + 1) && 0 < 4 * (cycle + 1) < 100;
    }
  }

  /** First day of the month `mp` months after March. */
  function MonthStart(mp: int): int { (153 * mp + 2) / 5 }

  function FromDays(days: int): (date: Date)
    ensures IsDate(date)
    ensures ToDays(date) == days
  {
    var z := days + EPOCH;
    var era := z / 146097;
    var (yoe, doy) := YearOfEra(z % 146097);
    var mp := (5 * doy + 2) / 153;
    var day := doy - MonthStart(mp) + 1;
    var month := if mp < 10 then mp + 3 else mp - 9;
    var year := yoe + 400 * era + (if month <= 2 then 1 else 0);
    MonthsFit(doy);
    EraShift(yoe + 1, era);
    assert (400 * era + yoe) / 400 == era && (400 * era + yoe) % 400 == yoe;
    Date(year, month, day)
  }

  function ToDays(date: Date): int {
    var y := if date.month <= 2 then date.year - 1 else date.year;
    var yoe := y % 400;
    var mp := if date.month > 2 then date.month - 3 else date.month + 9;
    146097 * (y / 400) + 365 * yoe + yoe / 4 - yoe / 100 + MonthStart(mp) + date.day - 1 - EPOCH
  }

  /** The day after. */
  function Tomorrow(date: Date): Date {
    if date.day < DaysIn(date.month, date.year) then date.(day := date.day + 1)
    else if date.month < 12 then Date(date.year, date.month + 1, 1)
    else Date(date.year + 1, 1, 1)
  }

  lemma DayZero()
    ensures ToDays(Date(1970, 1, 1)) == 0
  {
  }

  /** Day numbers count days, one by one through months, years and leap days. */
  lemma DaysAreCounted(date: Date)
    requires IsDate(date)
    ensures IsDate(Tomorrow(date)) && ToDays(Tomorrow(date)) == ToDays(date) + 1
  {
    if date.day < DaysIn(date.month, date.year) {
      NextDay(date);
    } else if date.month == 2 {
      AfterFebruary(date.year);
    } else if date.month == 12 {
      AfterDecember(date.year);
    } else {
      NextMonth(date.year, date.month);
    }
  }

  lemma NextDay(date: Date)
    requires 1 <= date.month <= 12
    ensures ToDays(date.(day := date.day + 1)) == ToDays(date) + 1
  {
    DaysFromMarch(date);
    DaysFromMarch(date.(day := date.day + 1));
  }

  lemma AfterFebruary(y: int)
    ensures ToDays(Date(y, 3, 1)) == ToDays(Date(y, 2, DaysIn(2, y))) + 1
  {
    DaysFromMarch(Date(y, 3, 1));
    DaysFromMarch(Date(y, 2, DaysIn(2, y)));
    MarchFollows(y);
  }

  lemma AfterDecember(y: int)
    ensures ToDays(Date(y + 1, 1, 1)) == ToDays(Date(y, 12, DaysIn(12, y))) + 1
  {
    DaysFromMarch(Date(y + 1, 1, 1));
    DaysFromMarch(Date(y, 12, 31));
  }

  lemma NextMonth(y: int, month: int)
    requires 1 <= month < 12 && month != 2
    ensures ToDays(Date(y, month + 1, 1)) == ToDays(Date(y, month, DaysIn(month, y))) + 1
  {
    DaysFromMarch(Date(y, month + 1, 1));
    DaysFromMarch(Date(y, month, DaysIn(month, y)));
  }

  /** The year a date belongs to when years begin in March. */
  function MarchYear(date: Date): int { if date.month <= 2 then date.year - 1 else date.year }

  lemma DaysFromMarch(date: Date)
    requires 1 <= date.month <= 12
    ensures ToDays(date) ==
      MarchDays(MarchYear(date)) + MonthStart(if date.month > 2 then date.month - 3 else date.month + 9)
      + date.day - 1 - EPOCH
  {
  }

  function EraDays(era: int, yoe: int): int { 146097 * era + 365 * yoe + yoe / 4 - yoe / 100 }

  lemma MarchDaysAt(y: int, era: int, yoe: int)
    requires 0 <= yoe < 400 && y == 400 * era + yoe
    ensures MarchDays(y) == EraDays(era, yoe)
  {
    assert y / 400 == era && y % 400 == yoe;
  }

  lemma QuartersAndCenturies(n: int)
    requires 0 < n < 400
    ensures n / 4 - (n - 1) / 4 == (if n % 4 == 0 then 1 else 0)
    ensures n / 100 - (n - 1) / 100 == (if n % 100 == 0 then 1 else 0)
  {
  }

  lemma EraDaysGrow(era: int, yoe: int)
    requires 0 < yoe < 400
    ensures EraDays(era, yoe) == EraDays(era, yoe - 1) + (if IsLeap(yoe) then 366 else 365)
    ensures EraDays(era + 1, 0) == EraDays(era, 399) + 366
  {
    QuartersAndCenturies(yoe);
  }

  /** The year that begins in March y - 1 is as long as the February of year y makes it. */
  lemma MarchFollows(y: int)
    ensures MarchDays(y) == MarchDays(y - 1) + (if IsLeap(y) then 366 else 365)
  {
    var era, yoe := (y - 1) / 400, (y - 1) % 400 + 1;
    MarchDaysAt(y - 1, era, yoe - 1);
    EraShift(yoe, era);
    if yoe == 400 {
      MarchDaysAt(y, era + 1, 0);
      EraDaysGrow(era, 1);
    } else {
      MarchDaysAt(y, era, yoe);
      EraDaysGrow(era, yoe);
    }
  }

  lemma ModIs(x: int, m: int, q: int, r: int)
    requires m in {4, 100, 400} && 0 <= r < m && x == m * q + r
    ensures x % m == r
  {
    match m
    case 4 =>
    case 100 =>
    case _ =>
  }

  /** Adding whole eras keeps leap years. */
  lemma EraShift(y: int, era: int)
    ensures IsLeap(y + 400 * era) <==> IsLeap(y)
  {
    var x := y + 400 * era;
    ModIs(x, 4, y / 4 + 100 * era, y % 4);
    ModIs(x, 100, y / 100 + 4 * era, y % 100);
    ModIs(x, 400, y / 400 + era, y % 400);
  }

  /** Days from March 1 of year 0 to March 1 of year `y`. */
  function MarchDays(y: int): int { 146097 * (y / 400) + 365 * (y % 400) + y % 400 / 4 - y % 400 / 100 }

  lemma MarchDaysBounds(y: int)
    ensures y >= 9999 ==> MarchDays(y) >= MarchDays(9999)
    ensures y <= 9998 ==> MarchDays(y) + 365 <= MarchDays(9999)
  {
    var yoe := y % 400;
    assert 0 <= 365 * yoe + yoe / 4 - yoe / 100 <= 365 * 399 + 96;
    assert yoe <= 398 ==> 365 * yoe + yoe / 4 - yoe / 100 <= 365 * 398 + 96;
  }

  lemma MarchDaysBelow(y: int)
    ensures y >= 0 ==> MarchDays(y) >= 0
    ensures y <= -1 ==> MarchDays(y) + 366 <= 0
    ensures y <= -2 ==> MarchDays(y) + 365 <= MarchDays(-1)
  {
    var yoe := y % 400;
    assert 0 <= 365 * yoe + yoe / 4 - yoe / 100 <= 365 * 399 + 96;
    assert yoe <= 398 ==> 365 * yoe + yoe / 4 - yoe / 100 <= 365 * 398 + 96;
  }

  /** The days before year 0, year 10000, and between them. */
  lemma DaysOfYears(date: Date)
    requires IsDate(date)
    ensures -719528 <= ToDays(date) < 2932897 <==> 0 <= date.year <= 9999
  {
    MarchDaysBounds(MarchYear(date));
    MarchDaysBelow(MarchYear(date));
    DaysFromMarch(date);
    assert MarchDays(9999) == 3652059 && MarchDays(0) == 0 && MarchDays(-1) == -366;
    YearOfDays(date, MarchYear(date), MarchDays(MarchYear(date)));
  }

  /** `start` is the number of days before the year that began in March of year `y`. */
  lemma YearOfDays(date: Date, y: int, start: int)
    requires IsDate(date) && y == MarchYear(date)
    requires ToDays(date) ==
      start + MonthStart(if date.month > 2 then date.month - 3 else date.month + 9) + date.day - 1 - EPOCH
    requires y >= 9999 ==> start >= 3652059
    requires y <= 9998 ==> start + 365 <= 3652059
    requires y >= 0 ==> start >= 0
    requires y <= -1 ==> start + 366 <= 0
    requires y <= -2 ==> start + 365 <= -366
    requires y == 9999 ==> start == 3652059
    requires y == -1 ==> start == -366
    ensures -719528 <= ToDays(date) < 2932897 <==> 0 <= date.year <= 9999
  {
  }

  /** The day of the year falls into its month. */
  lemma MonthsFit(doy: int)
    requires 0 <= doy <= 365
    ensures
      var mp := (5 * doy + 2) / 153;
      var month := if mp < 10 then mp + 3 else mp - 9;
      && 0 <= mp <= 11
      && 1 <= doy - MonthStart(mp) + 1
      && doy - MonthStart(mp) + 1 <= (if month == 2 then 29 else if month in {4, 6, 9, 11} then 30 else 31)
      && (month == 2 && doy - MonthStart(mp) + 1 == 29 ==> doy == 365)
  {
  }
}
