/**
 * `civil_from_days`: days since 1970-01-01 to a Gregorian date, against a calendar defined by
 * month lengths and the leap-year rule alone.
 */
module CivilDate {
  import opened Prelude

  datatype Date = Date(year: int, month: int, day: int)

  // ----- the algorithm --------------------------------------------------------

  /** Rust's `/`: truncates toward zero. */
  function TruncDiv(a: int, b: int): int
    requires b > 0
  {
    if a >= 0 then a / b else -((-a) / b)
  }

  function YearOfEra(doe: int): int
  {
    (doe - doe / 1460 + doe / 36_524 - doe / 146_096) / 365
  }

  function CivilFromDays(days: int): Date
  {
    var z := days + 719_468;
    var era := TruncDiv(if z >= 0 then z else z - 146_096, 146_097);
    var doe := z - era * 146_097;
    var yoe := YearOfEra(doe);
    var y := yoe + era * 400;
    var doy := doe - (365 * yoe + yoe / 4 - yoe / 100);
    var mp := (5 * doy + 2) / 153;
    var d := doy - (153 * mp + 2) / 5 + 1;
    var m := if mp < 10 then mp + 3 else mp - 9;
    Date(if m <= 2 then y + 1 else y, m, d)
  }

  // ----- the calendar ---------------------------------------------------------

  predicate IsLeap(y: int)
  {
    y % 4 == 0 && (y % 100 != 0 || y % 400 == 0)
  }

  function DaysInMonth(y: int, m: int): int
  {
    if m == 2 then (if IsLeap(y) then 29 else 28)
    else if m == 4 || m == 6 || m == 9 || m == 11 then 30
    else 31
  }

  function DaysInYear(y: int): int
  {
    if IsLeap(y) then 366 else 365
  }

  predicate Valid(date: Date)
  {
    1 <= date.month <= 12 && 1 <= date.day <= DaysInMonth(date.year, date.month)
  }

  function NextDay(date: Date): Date
  {
    if date.day < DaysInMonth(date.year, date.month) then date.(day := date.day + 1)
    else if date.month < 12 then Date(date.year, date.month + 1, 1)
    else Date(date.year + 1, 1, 1)
  }

  /** Days from 1970-01-01 to January 1 of year `y`, counted year by year. */
  function DaysBeforeYear(y: int): int
    decreases if y >= 1970 then y - 1970 else 1970 - y
  {
    if y == 1970 then 0
    else if y > 1970 then DaysBeforeYear(y - 1) + DaysInYear(y - 1)
    else DaysBeforeYear(y + 1) - DaysInYear(y)
  }

  function DaysBeforeMonth(y: int, m: int): int
    requires 1 <= m <= 12
    decreases m
  {
    if m == 1 then 0 else DaysBeforeMonth(y, m - 1) + DaysInMonth(y, m - 1)
  }

  /** Days from the epoch to a date. */
  function DayNumber(date: Date): int
    requires 1 <= date.month <= 12
  {
    DaysBeforeYear(date.year) + DaysBeforeMonth(date.year, date.month) + date.day - 1
  }

  // ----- years counted from March ---------------------------------------------

  /** Days in an era before its year `yoe`, years running from March to February. */
  function EraDays(yoe: int): int
  {
    365 * yoe + yoe / 4 - yoe / 100
  }

  /** Whether the February that ends year `yoe` of an era has a 29th. */
  predicate LeapEnd(yoe: int)
  {
    (yoe + 1) % 4 == 0 && ((yoe + 1) % 100 != 0 || yoe == 399)
  }

  function MarchYearLength(yoe: int): int
  {
    if LeapEnd(yoe) then 366 else 365
  }

  lemma EraDaysNext(yoe: int)
    requires 0 <= yoe < 399
    ensures EraDays(yoe + 1) == EraDays(yoe) + MarchYearLength(yoe)
  {
    QuarterNext(yoe);
    CenturyNext(yoe);
  }

  lemma QuarterNext(y: int)
    requires 0 <= y < 399
    ensures (y + 1) / 4 == y / 4 + if (y + 1) % 4 == 0 then 1 else 0
  {}

  lemma CenturyNext(y: int)
    requires 0 <= y < 399
    ensures (y + 1) / 100 == y / 100 + (if (y + 1) % 100 == 0 then 1 else 0) &&
            ((y + 1) % 100 == 0 ==> (y + 1) % 4 == 0)
  {}

  lemma EraDaysMonotone(a: int, b: int)
    requires 0 <= a <= b < 400
    ensures EraDays(a) <= EraDays(b)
  {
  }

  /** A day of the era as century, four-year cycle, year of the cycle and day of the year. */
  ghost predicate Splits(doe: int, c: int, k: int, t: int, u: int)
  {
    0 <= c <= 3 && 0 <= k <= 24 && 0 <= t <= 3 && 0 <= u <= 365 &&
    doe == 36_524 * c + 1461 * k + 365 * t + u &&
    (u == 365 ==> t == 3 && (k < 24 || c == 3))
  }

  lemma EraSplit(doe: int) returns (c: int, k: int, t: int, u: int)
    requires 0 <= doe < 146_097
    ensures Splits(doe, c, k, t, u)
  {
    c := if doe == 146_096 then 3 else doe / 36_524;
    var r := doe - 36_524 * c;
    k := r / 1461;
    var s := r - 1461 * k;
    t := if s == 1460 then 3 else s / 365;
    u := s - 365 * t;
  }

  lemma YearOfEraFrom(doe: int, c: int, k: int, t: int, u: int)
    requires Splits(doe, c, k, t, u)
    ensures YearOfEra(doe) == 100 * c + 4 * k + t
  {
    var g := (24 * c + k + 365 * t + u) / 1460;
    CorrectionTerms(doe, c, k, t, u, g);
    var last := if doe == 146_096 then 1 else 0;
    assert doe - (25 * c + k + g) + (c + last) - last == 365 * (100 * c + 4 * k + t) + (u - g);
  }

  lemma CorrectionTerms(doe: int, c: int, k: int, t: int, u: int, g: int)
    requires Splits(doe, c, k, t, u) && g == (24 * c + k + 365 * t + u) / 1460
    ensures doe / 1460 == 25 * c + k + g
    ensures var last := if doe == 146_096 then 1 else 0; doe / 36_524 == c + last && doe / 146_096 == last
    ensures 0 <= u - g <= 364
  {
  }

  /** The closed formula finds the year and leaves a day inside it. */
  lemma YearOfEraDecomposes(doe: int)
    requires 0 <= doe < 146_097
    ensures var yoe := YearOfEra(doe); var doy := doe - EraDays(yoe);
            0 <= yoe < 400 && 0 <= doy < MarchYearLength(yoe)
  {
    hide YearOfEra;
    var c, k, t, u := EraSplit(doe);
    YearOfEraFrom(doe, c, k, t, u);
    var yoe := 100 * c + 4 * k + t;
    assert yoe / 4 == 25 * c + k && yoe / 100 == c;
  }

  /** The year and day of an era day are unique, so the formula computes them. */
  lemma YearOfEraUnique(doe: int, yoe: int)
    requires 0 <= doe < 146_097 && 0 <= yoe < 400 && EraDays(yoe) <= doe < EraDays(yoe) + MarchYearLength(yoe)
    ensures YearOfEra(doe) == yoe
  {
    hide YearOfEra, MarchYearLength, EraDays;
    YearOfEraDecomposes(doe);
    var found := YearOfEra(doe);
    if found < yoe {
      EraDaysNext(found);
      EraDaysMonotone(found + 1, yoe);
    } else if yoe < found {
      EraDaysNext(yoe);
      EraDaysMonotone(yoe + 1, found);
    }
  }

  // ----- months counted from March --------------------------------------------

  function MonthOf(mp: int): int
  {
    if mp < 10 then mp + 3 else mp - 9
  }

  /** First day of March-based month `mp`. */
  function MonthStart(mp: int): int
  {
    (153 * mp + 2) / 5
  }

  lemma MonthOfDay(doy: int)
    requires 0 <= doy <= 365
    ensures var mp := (5 * doy + 2) / 153; 0 <= mp <= 11 && MonthStart(mp) <= doy < MonthStart(mp + 1)
  {
  }

  lemma MonthOfDayUnique(doy: int, mp: int)
    requires 0 <= doy <= 365 && 0 <= mp <= 11 && MonthStart(mp) <= doy < MonthStart(mp + 1)
    ensures (5 * doy + 2) / 153 == mp
  {
  }

  lemma MonthLengths(mp: int, y: int)
    requires 0 <= mp <= 10
    ensures MonthOf(mp) != 2 && MonthStart(mp + 1) - MonthStart(mp) == DaysInMonth(y, MonthOf(mp))
  {
    if mp == 0 {} else if mp == 1 {} else if mp == 2 {} else if mp == 3 {} else if mp == 4 {} else if mp == 5 {}
    else if mp == 6 {} else if mp == 7 {} else if mp == 8 {} else if mp == 9 {} else {}
  }

  // ----- dates ----------------------------------------------------------------

  /** The date of day `doy` of March-based year `yoe` in era `era`. */
  function DateOf(era: int, yoe: int, doy: int): Date
  {
    var mp := (5 * doy + 2) / 153;
    var m := MonthOf(mp);
    Date(yoe + era * 400 + (if m <= 2 then 1 else 0), m, doy - MonthStart(mp) + 1)
  }

  lemma FloorDiv(z: int)
    ensures TruncDiv(if z >= 0 then z else z - 146_096, 146_097) == z / 146_097
  {
  }

  lemma CivilAsDateOf(days: int)
    ensures var z := days + 719_468; var doe := z % 146_097; var yoe := YearOfEra(doe);
            CivilFromDays(days) == DateOf(z / 146_097, yoe, doe - EraDays(yoe))
  {
    FloorDiv(days + 719_468);
  }

  lemma LeapEndIsLeap(era: int, yoe: int)
    requires 0 <= yoe < 400
    ensures LeapEnd(yoe) <==> IsLeap(yoe + era * 400 + 1)
  {
    EraKeepsResidues(yoe + 1, era);
  }

  lemma EraKeepsResidues(x: int, era: int)
    ensures (x + era * 400) % 4 == x % 4 && (x + era * 400) % 100 == x % 100 && (x + era * 400) % 400 == x % 400
  {
    RemainderIsUnique(x + era * 400, 4, x / 4 + 100 * era, x % 4);
    RemainderIsUnique(x + era * 400, 100, x / 100 + 4 * era, x % 100);
    RemainderIsUnique(x + era * 400, 400, x / 400 + era, x % 400);
  }

  lemma DateOfValid(era: int, yoe: int, doy: int)
    requires 0 <= yoe < 400 && 0 <= doy < MarchYearLength(yoe)
    ensures Valid(DateOf(era, yoe, doy))
  {
    hide LeapEnd, IsLeap;
    MonthOfDay(doy);
    LeapEndIsLeap(era, yoe);
    var mp := (5 * doy + 2) / 153;
    if mp < 11 {
      MonthLengths(mp, DateOf(era, yoe, doy).year);
    }
  }

  lemma NextInYear(era: int, yoe: int, doy: int)
    requires 0 <= yoe < 400 && 0 <= doy < MarchYearLength(yoe) - 1
    ensures DateOf(era, yoe, doy + 1) == NextDay(DateOf(era, yoe, doy))
  {
    hide LeapEnd, IsLeap;
    MonthOfDay(doy);
    LeapEndIsLeap(era, yoe);
    var mp := (5 * doy + 2) / 153;
    if mp < 11 {
      MonthLengths(mp, DateOf(era, yoe, doy).year);
    }
    if doy + 1 < MonthStart(mp + 1) {
      MonthOfDayUnique(doy + 1, mp);
    } else {
      MonthOfDayUnique(doy + 1, mp + 1);
    }
  }

  lemma NextYear(era: int, yoe: int)
    requires 0 <= yoe < 400
    ensures NextDay(DateOf(era, yoe, MarchYearLength(yoe) - 1)) == Date(yoe + 1 + era * 400, 3, 1)
    ensures DateOf(era, yoe, 0) == Date(yoe + era * 400, 3, 1)
  {
    hide LeapEnd, IsLeap;
    LeapEndIsLeap(era, yoe);
    MonthOfDayUnique(MarchYearLength(yoe) - 1, 11);
  }

  /** Consecutive day numbers are consecutive calendar days. */
  lemma CivilSuccessor(days: int)
    ensures CivilFromDays(days + 1) == NextDay(CivilFromDays(days))
  {
    hide YearOfEra, CivilFromDays, DateOf, NextDay, EraDays, MarchYearLength;
    CivilAsDateOf(days);
    CivilAsDateOf(days + 1);
    var z := days + 719_468;
    var era, doe := z / 146_097, z % 146_097;
    YearOfEraDecomposes(doe);
    var yoe := YearOfEra(doe);
    var doy := doe - EraDays(yoe);
    if doe + 1 == 146_097 {
      LastYear();
      YearOfEraUnique(146_096, 399);
      NextYear(era, 399);
      YearOfEraUnique(0, 0);
      NextYear(era + 1, 0);
    } else if doy + 1 < MarchYearLength(yoe) {
      YearOfEraUnique(doe + 1, yoe);
      NextInYear(era, yoe, doy);
    } else {
      LastYear();
      EraDaysNext(yoe);
      MarchYearPositive(yoe + 1);
      YearOfEraUnique(doe + 1, yoe + 1);
      NextYear(era, yoe);
      NextYear(era, yoe + 1);
    }
  }

  lemma MarchYearPositive(yoe: int)
    ensures 365 <= MarchYearLength(yoe) <= 366
  {
  }

  lemma LastYear()
    ensures EraDays(0) == 0 && EraDays(399) == 145_731 && MarchYearLength(399) == 366 && MarchYearLength(0) == 365
  {
  }

  // ----- against the calendar -------------------------------------------------

  lemma DaysBeforeYearNext(y: int)
    ensures DaysBeforeYear(y + 1) == DaysBeforeYear(y) + DaysInYear(y)
  {
  }

  lemma MonthsFillYear(y: int)
    ensures DaysBeforeMonth(y, 12) + 31 == DaysInYear(y)
  {
    hide IsLeap;
    assert DaysBeforeMonth(y, 3) == 31 + DaysInMonth(y, 2) by {
      assert DaysBeforeMonth(y, 2) == DaysBeforeMonth(y, 1) + 31;
    }
    assert DaysBeforeMonth(y, 5) == DaysBeforeMonth(y, 4) + 30 == DaysBeforeMonth(y, 3) + 61;
    assert DaysBeforeMonth(y, 7) == DaysBeforeMonth(y, 6) + 30 == DaysBeforeMonth(y, 5) + 61;
    assert DaysBeforeMonth(y, 9) == DaysBeforeMonth(y, 8) + 31 == DaysBeforeMonth(y, 7) + 62;
    assert DaysBeforeMonth(y, 11) == DaysBeforeMonth(y, 10) + 31 == DaysBeforeMonth(y, 9) + 61;
  }

  lemma DayNumberNext(date: Date)
    requires Valid(date)
    ensures Valid(NextDay(date)) && DayNumber(NextDay(date)) == DayNumber(date) + 1
  {
    hide IsLeap, DaysBeforeYear;
    DaysBeforeYearNext(date.year);
    MonthsFillYear(date.year);
  }

  lemma CivilValid(days: int)
    ensures Valid(CivilFromDays(days))
  {
    hide YearOfEra, CivilFromDays, DateOf, Valid, EraDays, MarchYearLength;
    CivilAsDateOf(days);
    var z := days + 719_468;
    YearOfEraDecomposes(z % 146_097);
    var yoe := YearOfEra(z % 146_097);
    DateOfValid(z / 146_097, yoe, z % 146_097 - EraDays(yoe));
  }

  /** Every day number is the day count of the date it maps to. */
  lemma {:induction false} CivilCountsDays(days: int)
    ensures Valid(CivilFromDays(days)) && DayNumber(CivilFromDays(days)) == days
    decreases if days >= 0 then days else -days
  {
    hide CivilFromDays, DayNumber, NextDay;
    CivilValid(days);
    if days > 0 {
      CivilCountsDays(days - 1);
      CivilSuccessor(days - 1);
      DayNumberNext(CivilFromDays(days - 1));
    } else if days < 0 {
      CivilCountsDays(days + 1);
      CivilSuccessor(days);
      DayNumberNext(CivilFromDays(days));
    } else {
      EpochIsJanuaryFirst();
    }
  }

  lemma EpochIsJanuaryFirst()
    ensures CivilFromDays(0) == Date(1970, 1, 1) && DayNumber(Date(1970, 1, 1)) == 0
  {
  }

  lemma {:induction false} YearsApart(a: int, b: int)
    requires a < b
    ensures DaysBeforeYear(a) + DaysInYear(a) <= DaysBeforeYear(b)
    decreases b - a
  {
    hide DaysBeforeYear;
    DaysBeforeYearNext(a);
    if a + 1 < b {
      YearsApart(a + 1, b);
    }
  }

  lemma {:induction false} MonthsApart(y: int, a: int, b: int)
    requires 1 <= a < b <= 12
    ensures DaysBeforeMonth(y, a) + DaysInMonth(y, a) <= DaysBeforeMonth(y, b)
    decreases b
  {
    if a < b - 1 {
      MonthsApart(y, a, b - 1);
    }
  }

  /** The day of the year lies inside the year. */
  lemma DayOfYearBounds(date: Date)
    requires Valid(date)
    ensures DaysBeforeYear(date.year) <= DayNumber(date) < DaysBeforeYear(date.year) + DaysInYear(date.year)
  {
    hide DaysBeforeYear, IsLeap;
    MonthsFillYear(date.year);
    if date.month > 1 {
      MonthsApart(date.year, 1, date.month);
    }
    if date.month < 12 {
      MonthsApart(date.year, date.month, 12);
    }
  }

  /** No two dates have the same number, so each calendar date is the image of its own day count. */
  lemma CivilInverse(date: Date)
    requires Valid(date)
    ensures CivilFromDays(DayNumber(date)) == date
  {
    hide CivilFromDays, DaysBeforeYear, DaysBeforeMonth, DaysInMonth;
    var other := CivilFromDays(DayNumber(date));
    CivilCountsDays(DayNumber(date));
    DayOfYearBounds(date);
    DayOfYearBounds(other);
    if other.year < date.year {
      YearsApart(other.year, date.year);
    } else if date.year < other.year {
      YearsApart(date.year, other.year);
    } else if other.month < date.month {
      MonthsApart(date.year, other.month, date.month);
    } else if date.month < other.month {
      MonthsApart(date.year, date.month, other.month);
    }
  }
}
