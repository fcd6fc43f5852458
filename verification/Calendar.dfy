/** Epoch seconds to a calendar date, against the calendar counted out year by year and month by month. */
module Calendar {
  import opened Bits

  datatype Civil = Civil(year: int, month: int, day: int, hour: int, min: int, sec: int)

  // ---- The computation ----

  /** The year of a 400-year era that starts on the first of March, from the day of the era. */
  function YearOfEra(doe: int): int {
    (doe - doe / 1460 + doe / 36524 - doe / 146096) / 365
  }

  /** The days of an era before one of its years. */
  function EraYearStart(yoe: int): int {
    365 * yoe + yoe / 4 - yoe / 100
  }

  function CivilFromDays(z: nat): (int, int, int) {
    var era := z / 146097;
    var doe := z - era * 146097;
    var yoe := YearOfEra(doe);
    var y := yoe + era * 400;
    var doy := doe - EraYearStart(yoe);
    var mp := (5 * doy + 2) / 153;
    var d := doy - (153 * mp + 2) / 5 + 1;
    var m := if mp < 10 then mp + 3 else mp - 9;
    (if m <= 2 then y + 1 else y, m, d)
  }

  function CivilFromEpoch(secs: U64): Civil {
    var rem := secs % 86400;
    var (year, m, d) := CivilFromDays(secs / 86400 + 719468);
    Civil(year, m, d, rem / 3600, rem % 3600 / 60, rem % 60)
  }

  // ---- The calendar ----

  predicate Leap(y: int) {
    y % 4 == 0 && (y % 100 != 0 || y % 400 == 0)
  }

  function MonthDays(y: int, m: int): int {
    if m == 2 then (if Leap(y) then 29 else 28)
    else if m == 4 || m == 6 || m == 9 || m == 11 then 30
    else 31
  }

  predicate ValidDate(y: int, m: int, d: int) {
    1970 <= y && 1 <= m <= 12 && 1 <= d <= MonthDays(y, m)
  }

  /** The days of year `y` before its month `m`. */
  function DaysBeforeMonth(y: int, m: int): int
    requires 1 <= m <= 13
  {
    if m == 1 then 0 else DaysBeforeMonth(y, m - 1) + MonthDays(y, m - 1)
  }

  function YearDays(y: int): int {
    if Leap(y) then 366 else 365
  }

  /** The days from the first of January 1970 to the first of January of year `y`. */
  function DaysBeforeYear(y: int): int
    requires y >= 1970
    decreases y
  {
    if y == 1970 then 0 else DaysBeforeYear(y - 1) + YearDays(y - 1)
  }

  /** The days from the first of January 1970. */
  function DayCount(y: int, m: int, d: int): int
    requires ValidDate(y, m, d)
  {
    DaysBeforeYear(y) + DaysBeforeMonth(y, m) + d - 1
  }

  predicate Valid(c: Civil) {
    ValidDate(c.year, c.month, c.day) && 0 <= c.hour < 24 && 0 <= c.min < 60 && 0 <= c.sec < 60
  }

  function SecondCount(c: Civil): int
    requires Valid(c)
  {
    DayCount(c.year, c.month, c.day) * 86400 + c.hour * 3600 + c.min * 60 + c.sec
  }

  // ---- Years that start in March ----

  /** The days before the March year `y`, which starts on the first of March of year `y`. */
  function MarchYearStart(y: nat): int {
    365 * y + y / 4 - y / 100 + y / 400
  }

  /** A March year is a day longer when the February at its end is. */
  function MarchYearDays(y: nat): int {
    YearDays(y + 1)
  }

  lemma NextQuotient(y: nat, k: nat)
    requires k > 0
    ensures (y + 1) / k == y / k + (if (y + 1) % k == 0 then 1 else 0)
  {
    var q, r := y / k, y % k;
    assert y == k * q + r;
    if r + 1 < k {
      DivModUnique(y + 1, k, q, r + 1);
    } else {
      assert y + 1 == k * (q + 1) + 0;
      DivModUnique(y + 1, k, q + 1, 0);
    }
  }

  lemma MarchYearsFollow(y: nat)
    ensures MarchYearStart(y + 1) == MarchYearStart(y) + MarchYearDays(y)
  {
    hide MarchYearDays;
    NextQuotient(y, 4);
    NextQuotient(y, 100);
    NextQuotient(y, 400);
    LeapDay(y);
  }

  lemma LeapDay(y: nat)
    ensures MarchYearDays(y) ==
      365 + (if (y + 1) % 4 == 0 then 1 else 0) - (if (y + 1) % 100 == 0 then 1 else 0)
      + (if (y + 1) % 400 == 0 then 1 else 0)
  {
    assert (y + 1) % 400 == 0 ==> (y + 1) % 100 == 0;
    assert (y + 1) % 100 == 0 ==> (y + 1) % 4 == 0;
  }

  /** The first of January of year `y` is day 306 of the March year before. */
  lemma {:induction false} DaysBeforeYearIs(y: int)
    requires y >= 1970
    ensures DaysBeforeYear(y) == MarchYearStart(y - 1) + 306 - 719468
    decreases y
  {
    hide Leap;
    if y == 1970 {
    } else {
      DaysBeforeYearIs(y - 1);
      MarchYearsFollow(y - 2);
    }
  }

  /** A day of an era lies in century `c`, four-year group `k`, year `j` and day `t` of these. */
  predicate InEra(doe: int, c: int, k: int, j: int, t: int) {
    && 0 <= c < 4 && 0 <= k < 25 && 0 <= j < 4 && 0 <= t
    && t < (if j == 3 && (k < 24 || c == 3) then 366 else 365)
    && doe == 36524 * c + 1461 * k + 365 * j + t
  }

  function Cap(a: int, b: int): int {
    if a < b then a else b
  }

  lemma SplitEra(doe: int) returns (c: int, k: int, j: int, t: int)
    requires 0 <= doe < 146097
    ensures InEra(doe, c, k, j, t)
  {
    c := Cap(doe / 36524, 3);
    var r := doe - 36524 * c;
    k := Cap(r / 1461, 24);
    var s := r - 1461 * k;
    j := Cap(s / 365, 3);
    t := s - 365 * j;
  }

  lemma DayQuotients(doe: int, c: int, k: int, j: int, t: int)
    requires InEra(doe, c, k, j, t)
    ensures doe / 1460 == 25 * c + k + (if 24 * c + k + 365 * j + t >= 1460 then 1 else 0)
    ensures doe / 36524 - doe / 146096 == c
  {
    var rest := 24 * c + k + 365 * j + t;
    if rest >= 1460 {
      DivModUnique(doe, 1460, 25 * c + k + 1, rest - 1460);
    } else {
      DivModUnique(doe, 1460, 25 * c + k, rest);
    }
    if doe < 36524 * (c + 1) {
      DivModUnique(doe, 36524, c, doe - 36524 * c);
    }
  }

  lemma YearQuotients(c: int, k: int, j: int)
    requires 0 <= c < 4 && 0 <= k < 25 && 0 <= j < 4
    ensures EraYearStart(100 * c + 4 * k + j) == 36524 * c + 1461 * k + 365 * j
  {
    var yoe := 100 * c + 4 * k + j;
    DivModUnique(yoe, 4, 25 * c + k, j);
    DivModUnique(yoe, 100, c, 4 * k + j);
  }

  lemma YearOfEraIs(doe: int, c: int, k: int, j: int, t: int)
    requires InEra(doe, c, k, j, t)
    ensures YearOfEra(doe) == 100 * c + 4 * k + j
    ensures doe - EraYearStart(YearOfEra(doe)) == t
  {
    DayQuotients(doe, c, k, j, t);
    YearQuotients(c, k, j);
    hide EraYearStart;
    var carry := if 24 * c + k + 365 * j + t >= 1460 then 1 else 0;
    var n := doe - doe / 1460 + doe / 36524 - doe / 146096;
    assert n == 365 * (100 * c + 4 * k + j) + (t - carry);
    DivModUnique(n, 365, 100 * c + 4 * k + j, t - carry);
  }

  lemma InEraYearDays(era: nat, c: int, k: int, j: int)
    requires 0 <= c < 4 && 0 <= k < 25 && 0 <= j < 4
    ensures var y := 400 * era + 100 * c + 4 * k + j;
      && MarchYearStart(y) == 146097 * era + EraYearStart(100 * c + 4 * k + j)
      && MarchYearDays(y) == if j == 3 && (k < 24 || c == 3) then 366 else 365
  {
    hide MarchYearDays;
    EraYearParts(era, c, k, j);
    EraYearLength(era, c, k, j);
  }

  /** The quotients of a year that stands for its century, its leap period and its place in that. */
  lemma EraYearParts(era: nat, c: int, k: int, j: int)
    requires 0 <= c < 4 && 0 <= k < 25 && 0 <= j < 4
    ensures var yoe := 100 * c + 4 * k + j;
      && yoe / 4 == 25 * c + k && yoe / 100 == c
      && (400 * era + yoe) / 4 == 100 * era + 25 * c + k && (400 * era + yoe) / 100 == 4 * era + c
      && (400 * era + yoe) / 400 == era
  {
    var yoe := 100 * c + 4 * k + j;
    DivModUnique(yoe, 4, 25 * c + k, j);
    DivModUnique(yoe, 100, c, 4 * k + j);
    DivModUnique(400 * era + yoe, 4, 100 * era + 25 * c + k, j);
    DivModUnique(400 * era + yoe, 100, 4 * era + c, 4 * k + j);
    DivModUnique(400 * era + yoe, 400, era, yoe);
  }

  lemma EraYearLength(era: nat, c: int, k: int, j: int)
    requires 0 <= c < 4 && 0 <= k < 25 && 0 <= j < 4
    ensures MarchYearDays(400 * era + 100 * c + 4 * k + j) == if j == 3 && (k < 24 || c == 3) then 366 else 365
  {
    var m := 4 * k + j + 1;
    var n := 400 * era + 100 * c + m;
    if j == 3 {
      DivModUnique(n, 4, 100 * era + 25 * c + k + 1, 0);
    } else {
      DivModUnique(n, 4, 100 * era + 25 * c + k, j + 1);
    }
    if m == 100 {
      DivModUnique(n, 100, 4 * era + c + 1, 0);
      if c == 3 {
        DivModUnique(n, 400, era + 1, 0);
      } else {
        DivModUnique(n, 400, era, 100 * c + 100);
      }
    } else {
      DivModUnique(n, 100, 4 * era + c, m);
    }
  }

  /** The March year and its day, as the computation finds them. */
  lemma MarchYearIs(z: nat) returns (y: nat, doy: int)
    ensures 0 <= doy < MarchYearDays(y) && z == MarchYearStart(y) + doy
    ensures var doe := z - z / 146097 * 146097;
      y == YearOfEra(doe) + z / 146097 * 400 && doy == doe - EraYearStart(YearOfEra(doe))
  {
    var era := z / 146097;
    var doe := z - era * 146097;
    var c, k, j, t := SplitEra(doe);
    YearOfEraIs(doe, c, k, j, t);
    InEraYearDays(era, c, k, j);
    y, doy := 400 * era + 100 * c + 4 * k + j, t;
    hide MarchYearStart, MarchYearDays, YearOfEra, EraYearStart;
  }

  // ---- Months ----

  function MonthStart(mp: int): int {
    (153 * mp + 2) / 5
  }

  lemma MonthIs(doy: int)
    requires 0 <= doy < 366
    ensures var mp := (5 * doy + 2) / 153;
      0 <= mp < 12 && MonthStart(mp) <= doy && (mp < 11 ==> doy < MonthStart(mp + 1))
  {
  }

  /** The months of a March year, laid out over the two years it belongs to. */
  lemma MonthsOfMarchYear(y: int, mp: int)
    requires 0 <= mp < 12
    ensures mp < 10 ==> DaysBeforeMonth(y, mp + 3) == MonthStart(mp) + YearDays(y) - 306
    ensures mp >= 10 ==> DaysBeforeMonth(y + 1, mp - 9) == MonthStart(mp) - 306
    ensures mp < 10 ==> MonthDays(y, mp + 3) == MonthStart(mp + 1) - MonthStart(mp)
    ensures mp == 10 ==> MonthDays(y + 1, 1) == MonthStart(11) - MonthStart(10)
    ensures mp == 11 ==> MonthDays(y + 1, 2) == YearDays(y + 1) - MonthStart(11)
  {
    BeforeMonths(y);
    hide Leap, DaysBeforeMonth;
  }

  lemma BeforeMonths(y: int)
    ensures DaysBeforeMonth(y, 1) == 0 && DaysBeforeMonth(y + 1, 1) == 0 && DaysBeforeMonth(y + 1, 2) == 31
    ensures DaysBeforeMonth(y, 3) == YearDays(y) - 306
    ensures var march := DaysBeforeMonth(y, 3);
      && DaysBeforeMonth(y, 4) == march + 31 && DaysBeforeMonth(y, 5) == march + 61 &&
          DaysBeforeMonth(y, 6) == march + 92
      && DaysBeforeMonth(y, 7) == march + 122 && DaysBeforeMonth(y, 8) == march + 153 &&
          DaysBeforeMonth(y, 9) == march + 184
      && DaysBeforeMonth(y, 10) == march + 214 && DaysBeforeMonth(y, 11) == march + 245 &&
          DaysBeforeMonth(y, 12) == march + 275
  {
    hide Leap;
    assert DaysBeforeMonth(y, 2) == 31;
  }

  // ---- Exactness ----

  /** A day of a March year is a valid date, and counts as it should. */
  lemma MarchDateIs(y: nat, doy: int, mp: int)
    requires y >= 1969 && (y == 1969 ==> doy >= 306) && 0 <= doy < MarchYearDays(y)
    requires 0 <= mp < 12 && MonthStart(mp) <= doy && (mp < 11 ==> doy < MonthStart(mp + 1))
    ensures var d := doy - MonthStart(mp) + 1;
      if mp < 10 then
        ValidDate(y, mp + 3, d) && DayCount(y, mp + 3, d) == MarchYearStart(y) + doy - 719468
      else
        ValidDate(y + 1, mp - 9, d) && DayCount(y + 1, mp - 9, d) == MarchYearStart(y) + doy - 719468
  {
    MonthsOfMarchYear(y, mp);
    if mp < 10 {
      EarlyInMarchYear(mp);
      MarchYearsFollow(y - 1);
      DaysBeforeYearIs(y);
    } else {
      DaysBeforeYearIs(y + 1);
    }
    hide Leap, DaysBeforeMonth, DaysBeforeYear, MonthDays, MarchYearStart, MonthStart, YearDays;
  }

  lemma EarlyInMarchYear(mp: int)
    requires 0 <= mp < 10
    ensures MonthStart(mp + 1) <= 306
  {
  }

  lemma DateIsExact(days: nat)
    ensures var (y, m, d) := CivilFromDays(days + 719468); ValidDate(y, m, d) && DayCount(y, m, d) == days
  {
    hide YearOfEra, EraYearStart, MarchYearStart, ValidDate, DayCount, Leap;
    var z := days + 719468;
    var y, doy := MarchYearIs(z);
    AfterEpoch(y, doy);
    MonthIs(doy);
    var mp := (5 * doy + 2) / 153;
    assert CivilFromDays(z) ==
      (if mp < 10 then (y, mp + 3, doy - MonthStart(mp) + 1) else (y + 1, mp - 9, doy - MonthStart(mp) + 1));
    hide *;
    MarchDateIs(y, doy, mp);
  }

  lemma AfterEpoch(y: nat, doy: int)
    requires 0 <= doy < MarchYearDays(y) && MarchYearStart(y) + doy >= 719468
    ensures y >= 1969 && (y == 1969 ==> doy >= 306)
  {
    hide Leap;
  }

  lemma TimeOfDay(rem: int)
    requires 0 <= rem < 86400
    ensures 0 <= rem / 3600 < 24 && 0 <= rem % 3600 / 60 < 60 && 0 <= rem % 60 < 60
    ensures rem == rem / 3600 * 3600 + rem % 3600 / 60 * 60 + rem % 60
  {
    var h, r := rem / 3600, rem % 3600;
    DivModUnique(rem, 60, 60 * h + r / 60, r % 60);
  }

  /** Every second of the epoch becomes a valid date and time, and counting that back gives the second. */
  lemma EpochIsExact(secs: U64)
    ensures Valid(CivilFromEpoch(secs)) && SecondCount(CivilFromEpoch(secs)) == secs
  {
    DateIsExact(secs / 86400);
    TimeOfDay(secs % 86400);
    hide CivilFromDays, DayCount, ValidDate;
    var days, rem := secs / 86400, secs % 86400;
    assert secs == days * 86400 + rem;
  }

  // ---- Order ----

  predicate DateBefore(y: int, m: int, d: int, y': int, m': int, d': int) {
    y < y' || (y == y' && (m < m' || (m == m' && d < d')))
  }

  /** Lexicographic order of the result. */
  predicate Before(a: Civil, b: Civil) {
    || DateBefore(a.year, a.month, a.day, b.year, b.month, b.day)
    || (a.year == b.year && a.month == b.month && a.day == b.day
        && (a.hour < b.hour || (a.hour == b.hour && (a.min < b.min || (a.min == b.min && a.sec < b.sec)))))
  }

  lemma {:induction false} MonthsRise(y: int, m: int, n: int)
    requires 1 <= m <= n <= 13
    ensures DaysBeforeMonth(y, m) <= DaysBeforeMonth(y, n)
    ensures m < n ==> DaysBeforeMonth(y, m) + MonthDays(y, m) <= DaysBeforeMonth(y, n)
    decreases n
  {
    hide Leap;
    if m == n {
    } else {
      MonthsRise(y, m, n - 1);
    }
  }

  lemma {:induction false} YearsRise(y: int, n: int)
    requires 1970 <= y < n
    ensures DaysBeforeYear(y) + YearDays(y) <= DaysBeforeYear(n)
    decreases n
  {
    hide Leap;
    if y == n - 1 {
    } else {
      YearsRise(y, n - 1);
    }
  }

  lemma YearIsItsMonths(y: int)
    ensures DaysBeforeMonth(y, 13) == YearDays(y)
  {
    BeforeMonths(y);
    hide Leap;
  }

  lemma DayCountRises(y: int, m: int, d: int, y': int, m': int, d': int)
    requires ValidDate(y, m, d) && ValidDate(y', m', d') && DateBefore(y, m, d, y', m', d')
    ensures DayCount(y, m, d) < DayCount(y', m', d')
  {
    hide Leap, MonthDays, DaysBeforeMonth, DaysBeforeYear;
    if y < y' {
      YearIsItsMonths(y);
      MonthsRise(y, m, 13);
      YearsRise(y, y');
      MonthsRise(y', 1, m');
      assert DaysBeforeMonth(y', 1) == 0 by { BeforeMonths(y'); }
    } else if m < m' {
      MonthsRise(y, m, m');
    }
  }

  lemma SecondCountRises(a: Civil, b: Civil)
    requires Valid(a) && Valid(b) && Before(a, b)
    ensures SecondCount(a) < SecondCount(b)
  {
    hide ValidDate, DayCount;
    if DateBefore(a.year, a.month, a.day, b.year, b.month, b.day) {
      DayCountRises(a.year, a.month, a.day, b.year, b.month, b.day);
    }
  }

  /** Later seconds give later dates and times, field by field from the left. */
  lemma EpochOrderIsKept(s: U64, t: U64)
    requires s < t
    ensures Before(CivilFromEpoch(s), CivilFromEpoch(t))
  {
    EpochIsExact(s);
    EpochIsExact(t);
    hide CivilFromEpoch, Valid, SecondCount;
    BeforeIsTotal(CivilFromEpoch(s), CivilFromEpoch(t));
  }

  lemma BeforeIsTotal(a: Civil, b: Civil)
    requires Valid(a) && Valid(b) && SecondCount(a) < SecondCount(b)
    ensures Before(a, b)
  {
    hide SecondCount, Valid;
    if Before(b, a) {
      SecondCountRises(b, a);
    } else if a != b {
    }
  }

  /** The other way round: every valid date and time from 1970 on is what its second becomes. */
  lemma EveryDateIsReached(c: Civil)
    requires Valid(c) && SecondCount(c) < TWO_64
    ensures SecondCount(c) >= 0 && CivilFromEpoch(SecondCount(c)) == c
  {
    CountsFromZero(c);
    var secs := SecondCount(c);
    EpochIsExact(secs);
    var e := CivilFromEpoch(secs);
    hide CivilFromEpoch, SecondCount, Valid;
    if Before(c, e) {
      SecondCountRises(c, e);
    } else if Before(e, c) {
      SecondCountRises(e, c);
    }
  }

  lemma CountsFromZero(c: Civil)
    requires Valid(c)
    ensures SecondCount(c) >= 0
  {
    MonthsRise(c.year, 1, c.month);
    YearCountsFromZero(c.year);
    hide Leap, DaysBeforeMonth, DaysBeforeYear, MonthDays;
    assert DaysBeforeMonth(c.year, 1) == 0 by { BeforeMonths(c.year); }
  }

  lemma YearCountsFromZero(y: int)
    requires y >= 1970
    ensures DaysBeforeYear(y) >= 0
  {
    if y > 1970 {
      YearsRise(1970, y);
    }
  }
}
