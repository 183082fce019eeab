/**
 The proleptic Gregorian calendar, and the two independent conversions of the CLI:
 the closed form used for deployment names and the year/month loops used for
 timing captures.
 */
module Calendar {

  newtype i32 = x: int | -0x8000_0000 <= x < 0x8000_0000
  newtype u32 = x: int | 0 <= x < 0x1_0000_0000
  newtype i64 = x: int | -0x8000_0000_0000_0000 <= x < 0x8000_0000_0000_0000
  newtype u64 = x: int | 0 <= x < 0x1_0000_0000_0000_0000

  const SECONDS_PER_DAY := 86_400

  // ---- Reference definition: counting days one year and one month at a time ----

  predicate IsLeap(y: int) {
    (y % 4 == 0 && y % 100 != 0) || y % 400 == 0
  }

  function DaysInYear(y: int): int {
    if IsLeap(y) then 366 else 365
  }

  function DaysInMonth(y: int, m: int): int
    requires 1 <= m <= 12
  {
    if m == 2 then (if IsLeap(y) then 29 else 28)
    else if m == 4 || m == 6 || m == 9 || m == 11 then 30
    else 31
  }

  /** Days from 1970-01-01 to January 1st of year y; negative before 1970. */
  function DaysBeforeYear(y: int): int
    decreases if y < 1970 then 1970 - y else y - 1970
  {
    if y == 1970 then 0
    else if y > 1970 then DaysBeforeYear(y - 1) + DaysInYear(y - 1)
    else DaysBeforeYear(y + 1) - DaysInYear(y)
  }

  /** Days from January 1st of year y to the first day of month m; m == 13 is the end of the year. */
  function DaysBeforeMonth(y: int, m: int): int
    requires 1 <= m <= 13
    decreases m
  {
    if m == 1 then 0 else DaysBeforeMonth(y, m - 1) + DaysInMonth(y, m - 1)
  }

  predicate ValidDate(y: int, m: int, d: int) {
    1 <= m <= 12 && 1 <= d <= DaysInMonth(y, m)
  }

  function DayNumber(y: int, m: int, d: int): int
    requires 1 <= m <= 12
  {
    DaysBeforeYear(y) + DaysBeforeMonth(y, m) + d - 1
  }

  // ---- Facts about the reference definition ----

  /** Leap years in [1, n], extended to all n. */
  function LeapsThrough(n: int): int {
    n / 4 - n / 100 + n / 400
  }

  lemma LeapsStep(y: int)
    ensures LeapsThrough(y) == LeapsThrough(y - 1) + (if IsLeap(y) then 1 else 0)
  {
    DivStep(y, 4);
    DivStep(y, 100);
    DivStep(y, 400);
    Multiples(y);
  }

  lemma Multiples(y: int)
    ensures y % 400 == 0 ==> y % 100 == 0
    ensures y % 100 == 0 ==> y % 4 == 0
  {
  }

  /** Shifting by a multiple shifts the quotient and keeps the remainder. */
  lemma DivShift(n: int, t: int, k: int)
    requires k == 4 || k == 100 || k == 400
    ensures (n + k * t) / k == n / k + t
    ensures (n + k * t) % k == n % k
  {
    if k == 4 {
      assert (n + 4 * t) / 4 == n / 4 + t;
    } else if k == 100 {
      assert (n + 100 * t) / 100 == n / 100 + t;
    } else {
      assert (n + 400 * t) / 400 == n / 400 + t;
    }
  }

  lemma DivStep(n: int, k: int)
    requires k == 4 || k == 100 || k == 400
    ensures n / k == (n - 1) / k + (if n % k == 0 then 1 else 0)
  {
  }

  lemma {:induction false} DaysBeforeYearClosed(y: int)
    ensures DaysBeforeYear(y) == 365 * (y - 1970) + LeapsThrough(y - 1) - LeapsThrough(1969)
    decreases if y < 1970 then 1970 - y else y - 1970
  {
    if y > 1970 {
      DaysBeforeYearClosed(y - 1);
      LeapsStep(y - 1);
    } else if y < 1970 {
      DaysBeforeYearClosed(y + 1);
      LeapsStep(y);
    }
  }

  lemma MonthTable(y: int)
    ensures DaysBeforeMonth(y, 1) == 0 && DaysBeforeMonth(y, 2) == 31
    ensures var n := DaysBeforeMonth(y, 3);
            && n == (if IsLeap(y) then 60 else 59)
            && DaysBeforeMonth(y, 4) == n + 31 && DaysBeforeMonth(y, 5) == n + 61
            && DaysBeforeMonth(y, 6) == n + 92 && DaysBeforeMonth(y, 7) == n + 122
            && DaysBeforeMonth(y, 8) == n + 153 && DaysBeforeMonth(y, 9) == n + 184
            && DaysBeforeMonth(y, 10) == n + 214 && DaysBeforeMonth(y, 11) == n + 245
            && DaysBeforeMonth(y, 12) == n + 275
    ensures DaysBeforeMonth(y, 13) == DaysInYear(y)
  {
    assert DaysBeforeMonth(y, 2) == 31;
    assert DaysBeforeMonth(y, 3) == DaysBeforeMonth(y, 2) + DaysInMonth(y, 2);
    assert DaysBeforeMonth(y, 5) == DaysBeforeMonth(y, 3) + 61;
    assert DaysBeforeMonth(y, 7) == DaysBeforeMonth(y, 5) + 61;
    assert DaysBeforeMonth(y, 9) == DaysBeforeMonth(y, 7) + 62;
    assert DaysBeforeMonth(y, 11) == DaysBeforeMonth(y, 9) + 61;
  }

  predicate EarlierDate(y1: int, m1: int, d1: int, y2: int, m2: int, d2: int) {
    y1 < y2 || (y1 == y2 && (m1 < m2 || (m1 == m2 && d1 < d2)))
  }

  lemma {:induction false} YearsAscend(y1: int, y2: int)
    requires y1 < y2
    ensures DaysBeforeYear(y1) + DaysInYear(y1) <= DaysBeforeYear(y2)
    decreases y2 - y1
  {
    assert DaysBeforeYear(y1 + 1) == DaysBeforeYear(y1) + DaysInYear(y1);
    if y1 + 1 < y2 {
      YearsAscend(y1 + 1, y2);
    }
  }

  /** The calendar is strictly increasing: a later date has a larger day number. */
  lemma DatesAscend(y1: int, m1: int, d1: int, y2: int, m2: int, d2: int)
    requires ValidDate(y1, m1, d1) && ValidDate(y2, m2, d2)
    requires EarlierDate(y1, m1, d1, y2, m2, d2)
    ensures DayNumber(y1, m1, d1) < DayNumber(y2, m2, d2)
  {
    MonthTable(y1);
    MonthTable(y2);
    if y1 < y2 {
      YearsAscend(y1, y2);
    }
  }

  /** Day numbers name dates uniquely. */
  lemma DayNumberInjective(y1: int, m1: int, d1: int, y2: int, m2: int, d2: int)
    requires ValidDate(y1, m1, d1) && ValidDate(y2, m2, d2)
    requires DayNumber(y1, m1, d1) == DayNumber(y2, m2, d2)
    ensures y1 == y2 && m1 == m2 && d1 == d2
  {
    if EarlierDate(y1, m1, d1, y2, m2, d2) {
      DatesAscend(y1, m1, d1, y2, m2, d2);
    } else if EarlierDate(y2, m2, d2, y1, m1, d1) {
      DatesAscend(y2, m2, d2, y1, m1, d1);
    }
  }

  // ---- The closed form ----

  /** Division as the source's integers do it: toward zero. */
  function TruncDiv(a: int, b: int): int
    requires b > 0
  {
    if a >= 0 then a / b else -((-a) / b)
  }

  /** First day of the March-based year `yoe` within a 400-year era. */
  function EraYearStart(yoe: int): int {
    365 * yoe + yoe / 4 - yoe / 100
  }

  function YearOfEra(doe: int): int {
    (doe - doe / 1460 + doe / 36_524 - doe / 146_096) / 365
  }

  /** Every day of an era lies in a century, a four-year block, a year and a day of that year. */
  lemma SplitEra(doe: int) returns (c: int, q: int, k: int, doy: int)
    requires 0 <= doe <= 146_096
    ensures 0 <= c <= 3 && 0 <= q <= 24 && 0 <= k <= 3 && 0 <= doy <= 365
    ensures doe == 36_524 * c + 1461 * q + 365 * k + doy
    ensures doy == 365 ==> k == 3 && (q == 24 ==> c == 3)
  {
    c := if doe == 146_096 then 3 else doe / 36_524;
    var r := doe - 36_524 * c;
    q := if r == 36_524 then 24 else r / 1461;
    var s := r - 1461 * q;
    k := if s == 1460 then 3 else s / 365;
    doy := s - 365 * k;
  }

  lemma Quotient(n: int, d: int, q: int)
    requires d == 4 || d == 100 || d == 400 || d == 365 || d == 1460 || d == 36_524 || d == 146_096
    requires d * q <= n < d * q + d
    ensures n / d == q
  {
  }

  /**
   The division formula for the year of the era finds the year the day falls in: after the three
   corrections the dividend is 365 times that year plus a remainder below 365.
   */
  lemma YearOfEraCorrect(doe: int)
    requires 0 <= doe <= 146_096
    ensures 0 <= doe - doe / 1460
    ensures 0 <= doe - doe / 1460 + doe / 36_524 - doe / 146_096
    ensures var y := YearOfEra(doe);
            && 0 <= y <= 399
            && EraYearStart(y) <= doe
            && doe - EraYearStart(y) <= (if IsLeap(y + 1) then 365 else 364)
  {
    var c, q, k, doy := SplitEra(doe);
    var y := 100 * c + 4 * q + k;
    var late := if 24 * c + q + 365 * k + doy >= 1460 then 1 else 0;
    var last := if doe == 146_096 then 1 else 0;
    Quotient(doe, 1460, 25 * c + q + late);
    Quotient(doe, 36_524, c + last);
    Quotient(doe, 146_096, last);
    Quotient(365 * y + doy - late, 365, y);
    Quotient(y, 4, 25 * c + q);
    Quotient(y, 100, c);
    assert YearOfEra(doe) == y && EraYearStart(y) == doe - doy;
    if doy == 365 {
      LastDayIsLeap(c, q, k);
    }
  }

  lemma LastDayIsLeap(c: int, q: int, k: int)
    requires 0 <= c <= 3 && 0 <= q <= 24 && k == 3 && (q == 24 ==> c == 3)
    ensures IsLeap(100 * c + 4 * q + k + 1)
  {
    var y := 100 * c + 4 * q + 4;
    assert y % 4 == 0 by { DivShift(0, 25 * c + q + 1, 4); }
    assert q < 24 ==> y % 100 == 4 * q + 4 by { DivShift(4 * q + 4, c, 100); }
  }

  /** Day of the March-based year to month (March is 0) and day of month. */
  lemma MonthOfDay(doy: int)
    requires 0 <= doy <= 365
    ensures var mp := (5 * doy + 2) / 153;
            && 0 <= mp <= 11
            && (153 * mp + 2) / 5 <= doy
            && doy - (153 * mp + 2) / 5 + 1 <= 31
            && (mp < 11 ==> doy < (153 * (mp + 1) + 2) / 5)
  {
  }

  function CivilFromDays(z: i64): (r: (i64, u32, u32))
    requires z as int + 719_468 < 0x8000_0000_0000_0000
    ensures ValidDate(r.0 as int, r.1 as int, r.2 as int)
    ensures DayNumber(r.0 as int, r.1 as int, r.2 as int) == z as int
  {
    var (era, doe) := EraAndDay(z + 719_468);
    var (yoe, doy) := YearAndDayOfEra(doe);
    var y := yoe as i64 + era * 400;
    var (mp, d) := MonthAndDay(doy);
    var m := (if mp < 10 then mp + 3 else mp - 9) as u32;
    var y' := if m <= 2 then y + 1 else y;
    MarchYear(era as int, yoe as int, doy as int, mp as int, y' as int, m as int, d as int);
    (y', m, d)
  }

  /** 400-year era, rounding down, and day of the era. */
  function EraAndDay(z: i64): (r: (i64, u64))
    requires -0x8000_0000_0000_0000 + 719_468 <= z as int
    ensures r.1 <= 146_096
    ensures z as int == r.0 as int * 146_097 + r.1 as int
    ensures -0x8000_0000_0000 <= r.0 < 0x8000_0000_0000
  {
    EraOf(z as int);
    var era := TruncDiv(if z >= 0 then z as int else z as int - 146_096, 146_097) as i64;
    var doe := (z - era * 146_097) as u64;
    (era, doe)
  }

  /** Year of the era and day of that March-based year; no unsigned step goes below zero. */
  function YearAndDayOfEra(doe: u64): (r: (u64, u64))
    requires doe <= 146_096
    ensures r.0 <= 399 && doe as int == EraYearStart(r.0 as int) + r.1 as int
    ensures r.1 as int <= (if IsLeap(r.0 as int + 1) then 365 else 364)
  {
    YearOfEraCorrect(doe as int);
    var yoe := (doe - doe / 1460 + doe / 36_524 - doe / 146_096) / 365;
    assert yoe as int == YearOfEra(doe as int);
    var doy := doe - (365 * yoe + yoe / 4 - yoe / 100);
    (yoe, doy)
  }

  /** Month counted from March, and day of month. */
  function MonthAndDay(doy: u64): (r: (u64, u32))
    requires doy <= 365
    ensures r.0 <= 11 && r.0 as int == (5 * doy as int + 2) / 153
    ensures r.1 as int == doy as int - (153 * r.0 as int + 2) / 5 + 1
  {
    MonthOfDay(doy as int);
    var mp := (5 * doy + 2) / 153;
    var d := (doy - (153 * mp + 2) / 5 + 1) as u32;
    (mp, d)
  }

  lemma EraOf(z: int)
    ensures var era := TruncDiv(if z >= 0 then z else z - 146_096, 146_097);
            0 <= z - era * 146_097 <= 146_096
  {
  }

  /** The month formula agrees with the month lengths, counted from March. */
  lemma MonthOffset(y: int, mp: int)
    requires 0 <= mp <= 11
    ensures var start := (153 * mp + 2) / 5;
            var next := (153 * (mp + 1) + 2) / 5;
            && 0 <= start
            && (mp < 10 ==> DaysBeforeMonth(y, mp + 3) == DaysBeforeMonth(y, 3) + start
                            && DaysInMonth(y, mp + 3) == next - start)
            && (mp >= 10 ==> DaysBeforeMonth(y, mp - 9) == start - 306)
            && (mp == 10 ==> DaysInMonth(y, 1) == next - start)
            && (mp == 11 ==> start == 337)
  {
    MonthTable(y);
  }

  /** January 1st of the year that contains the February of a March-based year. */
  lemma YearStart(era: int, yoe: int)
    requires 0 <= yoe <= 399
    ensures var y := yoe + era * 400;
            && DaysBeforeYear(y + 1) == era * 146_097 + EraYearStart(yoe) - 719_162
            && DaysBeforeYear(y) == DaysBeforeYear(y + 1) - DaysInYear(y)
            && IsLeap(y + 1) == IsLeap(yoe + 1)
  {
    var y := yoe + era * 400;
    DaysBeforeYearClosed(y + 1);
    EraLeap(yoe, era);
    EraLeap(yoe + 1, era);
    Quotient(yoe, 400, 0);
    assert LeapsThrough(1969) == 477;
  }

  /** Reassembling a March-based date gives the January-based day number. */
  lemma MarchYear(era: int, yoe: int, doy: int, mp: int, y: int, m: int, d: int)
    requires 0 <= yoe <= 399 && 0 <= doy <= (if IsLeap(yoe + 1) then 365 else 364)
    requires 0 <= mp <= 11 && mp == (5 * doy + 2) / 153
    requires m == (if mp < 10 then mp + 3 else mp - 9)
    requires y == yoe + era * 400 + (if m <= 2 then 1 else 0)
    requires d == doy - (153 * mp + 2) / 5 + 1
    ensures ValidDate(y, m, d)
    ensures DayNumber(y, m, d) == era * 146_097 + EraYearStart(yoe) + doy - 719_468
  {
    MonthOfDay(doy);
    YearStart(era, yoe);
    MonthOffset(y, mp);
    FromMarch(y);
  }

  lemma FromMarch(y: int)
    ensures DaysInYear(y) - DaysBeforeMonth(y, 3) == 306
  {
    MonthTable(y);
  }

  /** Leap years repeat every 400 years, 97 of them in each era. */
  lemma EraLeap(y: int, era: int)
    ensures IsLeap(y + era * 400) == IsLeap(y)
    ensures LeapsThrough(y + era * 400) == LeapsThrough(y) + 97 * era
  {
    DivShift(y, 100 * era, 4);
    DivShift(y, 4 * era, 100);
    DivShift(y, era, 400);
  }

  /** The closed form is the left inverse of the day count as well: no date is missed. */
  lemma CivilOfDayNumber(y: int, m: int, d: int)
    requires ValidDate(y, m, d)
    requires -0x8000_0000_0000_0000 <= DayNumber(y, m, d) < 0x8000_0000_0000_0000 - 719_468
    ensures var r := CivilFromDays(DayNumber(y, m, d) as i64);
            r.0 as int == y && r.1 as int == m && r.2 as int == d
  {
    var r := CivilFromDays(DayNumber(y, m, d) as i64);
    DayNumberInjective(r.0 as int, r.1 as int, r.2 as int, y, m, d);
  }

  // ---- The year and month loops ----

  function MonthLengths(leap: bool): (dim: seq<i64>)
    ensures |dim| == 12
  {
    [31, if leap then 29 else 28, 31, 30, 31, 30, 31, 31, 30, 31, 30, 31]
  }

  lemma MonthLengthsMatch(y: int, m: int)
    requires 1 <= m <= 12
    ensures MonthLengths(IsLeap(y))[m - 1] as int == DaysInMonth(y, m)
  {
  }

  /** The year counter of the loops is a 32-bit signed integer; it holds every year before 2^31. */
  predicate YearFits(t: u64) {
    t as int / SECONDS_PER_DAY < DaysBeforeYear(0x8000_0000)
  }

  method EpochToYmdhms(t: u64) returns (year: i32, mon: u32, day: u32, h: u32, m: u32, s: u32)
    requires YearFits(t)
    ensures (year as i64, mon, day) == CivilFromDays((t / 86_400) as i64)
    ensures h < 24 && m < 60 && s < 60
    ensures t as int == (t as int / SECONDS_PER_DAY) * SECONDS_PER_DAY + h as int * 3600 + m as int * 60 + s as int
  {
    var days: i64;
    days, h, m, s := SplitTime(t);
    year, days := YearLoop(days);
    mon, days := MonthLoop(year, days);
    day := days as u32 + 1;
    CivilOfDayNumber(year as int, mon as int, day as int);
  }

  method SplitTime(t: u64) returns (days: i64, h: u32, m: u32, s: u32)
    ensures days as int == t as int / SECONDS_PER_DAY
    ensures h < 24 && m < 60 && s < 60
    ensures t as int == days as int * SECONDS_PER_DAY + h as int * 3600 + m as int * 60 + s as int
  {
    var rest := t;
    s := (rest % 60) as u32;
    rest := rest / 60;
    m := (rest % 60) as u32;
    rest := rest / 60;
    h := (rest % 24) as u32;
    rest := rest / 24;
    TimeOfDay(t as int);
    days := rest as i64;
  }

  /** Counts whole years off the day count; the year never passes the 32-bit range. */
  method YearLoop(count: i64) returns (year: i32, days: i64)
    requires 0 <= count as int < DaysBeforeYear(0x8000_0000)
    ensures 1970 <= year && 0 <= days as int < DaysInYear(year as int)
    ensures DaysBeforeYear(year as int) + days as int == count as int
  {
    days := count;
    year := 1970;
    while true
      invariant 0 <= days && 1970 <= year
      invariant DaysBeforeYear(year as int) + days as int == count as int
      decreases days
    {
      var leap := (year % 4 == 0 && year % 100 != 0) || year % 400 == 0;
      var dy: i64 := if leap then 366 else 365;
      if days < dy {
        return;
      }
      NextYear(year as int);
      if year == 0x7fff_ffff {
        assert false;
      }
      days := days - dy;
      year := year + 1;
    }
  }

  /** Counts whole months off the day of the year; the month never passes December. */
  method MonthLoop(year: i32, count: i64) returns (mon: u32, days: i64)
    requires 0 <= count as int < DaysInYear(year as int) && 1970 <= year
    ensures 1 <= mon <= 12 && 0 <= days as int < DaysInMonth(year as int, mon as int)
    ensures DaysBeforeMonth(year as int, mon as int) + days as int == count as int
  {
    days := count;
    ghost var y := year as int;
    var leap := (year % 4 == 0 && year % 100 != 0) || year % 400 == 0;
    var dim := MonthLengths(leap);
    mon := 1;
    var i := 0;
    YearLength(y);
    while i < 12
      invariant 0 <= i <= 12 && mon as int == i + 1 && 0 <= days
      invariant DaysBeforeMonth(y, i + 1) + days as int == count as int < DaysInYear(y)
    {
      MonthLengthsMatch(y, i + 1);
      if days < dim[i] {
        return;
      }
      days := days - dim[i];
      mon := mon + 1;
      i := i + 1;
    }
  }

  lemma YearLength(y: int)
    ensures DaysBeforeMonth(y, 13) == DaysInYear(y)
  {
    MonthTable(y);
  }

  lemma NextYear(y: int)
    requires 1970 <= y
    ensures DaysBeforeYear(y + 1) == DaysBeforeYear(y) + DaysInYear(y)
  {
  }

  lemma TimeOfDay(t: int)
    requires 0 <= t
    ensures t / 60 / 60 / 24 == t / SECONDS_PER_DAY
    ensures t == (t / SECONDS_PER_DAY) * SECONDS_PER_DAY
                 + (t / 60 / 60 % 24) * 3600 + (t / 60 % 60) * 60 + t % 60
  {
    assert t / 60 / 60 == t / 3600;
    assert t / 3600 / 24 == t / SECONDS_PER_DAY;
  }
}
