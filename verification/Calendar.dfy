/** The civil-calendar arithmetic that stamps alert messages. Years are counted from
    1 March, so that a leap day is the last day of its year. */
module Calendar {

  datatype Date = Date(year: nat, month: nat, day: nat)

  // ----- The Gregorian calendar -----

  predicate Leap(year: nat) {
    year % 4 == 0 && (year % 100 != 0 || year % 400 == 0)
  }

  function MonthLength(year: nat, month: nat): nat {
    if month == 2 then (if Leap(year) then 29 else 28)
    else if month == 4 || month == 6 || month == 9 || month == 11 then 30
    else 31
  }

  ghost predicate ValidDate(d: Date) {
    1 <= d.month <= 12 && 1 <= d.day <= MonthLength(d.year, d.month)
  }

  function NextDay(d: Date): Date {
    if d.day < MonthLength(d.year, d.month) then d.(day := d.day + 1)
    else if d.month < 12 then Date(d.year, d.month + 1, 1)
    else Date(d.year + 1, 1, 1)
  }

  /** Days from 1 March of year 0 to 1 March of year `y`. */
  ghost function YearStart(y: nat): nat {
    if y == 0 then 0 else YearStart(y - 1) + (if Leap(y) then 366 else 365)
  }

  lemma LeapCount(y: nat)
    requires y > 0
    ensures y / 4 - y / 100 + y / 400 ==
      (y - 1) / 4 - (y - 1) / 100 + (y - 1) / 400 + (if Leap(y) then 1 else 0)
  {
    assert y / 4 == (y - 1) / 4 + (if y % 4 == 0 then 1 else 0);
    assert y / 100 == (y - 1) / 100 + (if y % 100 == 0 then 1 else 0);
    assert y / 400 == (y - 1) / 400 + (if y % 400 == 0 then 1 else 0);
    assert y % 400 == 0 ==> y % 100 == 0;
    assert y % 100 == 0 ==> y % 4 == 0;
  }

  lemma {:induction false} YearStartClosed(y: nat)
    ensures YearStart(y) == 365 * y + y / 4 - y / 100 + y / 400
  {
    if y > 0 {
      YearStartClosed(y - 1);
      LeapCount(y);
    }
  }

  lemma {:induction false} YearStartMonotone(x: nat, y: nat)
    requires x <= y
    ensures YearStart(x) + 365 * (y - x) <= YearStart(y)
  {
    if x < y {
      YearStartMonotone(x, y - 1);
    }
  }

  lemma YearStartOfEra(era: nat, yoe: nat)
    ensures YearStart(yoe + 400 * era) == 146097 * era + YearStart(yoe)
  {
    YearStartClosed(yoe);
    YearStartClosed(yoe + 400 * era);
    assert (yoe + 400 * era) / 4 == yoe / 4 + 100 * era;
    assert (yoe + 400 * era) / 100 == yoe / 100 + 4 * era;
    assert (yoe + 400 * era) / 400 == yoe / 400 + era;
  }

  // ----- The year of a 400-year era -----

  function YearOfEra(doe: nat): (yoe: nat)
    requires doe <= 146096
  {
    (doe - doe / 1460 + doe / 36524 - doe / 146096) / 365
  }

  /** Day `t` of four-year group `q` of century `c`. */
  lemma YearOfEraForm(c: nat, q: nat, t: nat)
    requires c <= 3 && q <= 24 && t <= 1460
    requires 36524 * c + 1461 * q + t < 36524 * (c + 1) || (c == 3 && 1461 * q + t == 36524)
    ensures YearOfEra(36524 * c + 1461 * q + t) == 100 * c + 4 * q + (if t == 1460 then 3 else t / 365)
  {
    var doe := 36524 * c + 1461 * q + t;
    var over := if 24 * c + q + t >= 1460 then 1 else 0;
    assert doe == 1460 * (25 * c + q) + (24 * c + q + t);
    assert doe / 1460 == 25 * c + q + over;
    if 1461 * q + t == 36524 {
      assert q == 24 && t == 1460;
    } else {
      assert doe / 36524 == c && doe / 146096 == 0;
      assert YearOfEra(doe) == (365 * (100 * c + 4 * q) + t - over) / 365;
    }
  }

  lemma YearStartForm(c: nat, q: nat, k: nat)
    requires c <= 3 && q <= 24 && k <= 3
    ensures YearStart(100 * c + 4 * q + k) == 36524 * c + 1461 * q + 365 * k
  {
    YearStartClosed(100 * c + 4 * q + k);
    assert (100 * c + 4 * q + k) / 4 == 25 * c + q;
    assert (100 * c + 4 * q + k) / 100 == c;
  }

  lemma EraParts(doe: nat) returns (c: nat, q: nat, t: nat)
    requires doe <= 146096
    ensures c <= 3 && q <= 24 && t <= 1460 && doe == 36524 * c + 1461 * q + t
    ensures 36524 * c + 1461 * q + t < 36524 * (c + 1) || (c == 3 && 1461 * q + t == 36524)
  {
    c := if doe == 146096 then 3 else doe / 36524;
    var r := doe - 36524 * c;
    q, t := r / 1461, r % 1461;
  }

  /** The year after year `k` of four-year group `q` of century `c` starts where that year ends. */
  lemma NextYearStart(c: nat, q: nat, k: nat)
    requires c <= 3 && q <= 24 && k <= 3
    ensures YearStart(100 * c + 4 * q + k + 1) ==
      if k < 3 then 36524 * c + 1461 * q + 365 * (k + 1)
      else if q < 24 then 36524 * c + 1461 * (q + 1)
      else if c < 3 then 36524 * (c + 1)
      else 146097
  {
    if k < 3 {
      YearStartForm(c, q, k + 1);
    } else if q < 24 {
      YearStartForm(c, q + 1, 0);
    } else if c < 3 {
      YearStartForm(c + 1, 0, 0);
    } else {
      YearStartClosed(400);
    }
  }

  lemma FormBounds(c: nat, q: nat, t: nat, yoe: nat)
    requires c <= 3 && q <= 24 && t <= 1460
    requires 36524 * c + 1461 * q + t < 36524 * (c + 1) || (c == 3 && 1461 * q + t == 36524)
    requires yoe == 100 * c + 4 * q + (if t == 1460 then 3 else t / 365)
    ensures yoe <= 399 && YearStart(yoe) <= 36524 * c + 1461 * q + t < YearStart(yoe + 1)
  {
    var k := if t == 1460 then 3 else t / 365;
    YearStartForm(c, q, k);
    NextYearStart(c, q, k);
  }

  lemma YearStartInEra(yoe: nat)
    requires yoe <= 399
    ensures YearStart(yoe) == 365 * yoe + yoe / 4 - yoe / 100
  {
    YearStartClosed(yoe);
  }

  /** The closed formula finds the March-based year that contains day `doe` of an era. */
  lemma YearOfEraBounds(doe: nat, yoe: nat)
    requires doe <= 146096 && yoe == YearOfEra(doe)
    ensures yoe <= 399 && YearStart(yoe) <= doe < YearStart(yoe + 1)
    ensures YearStart(yoe) == 365 * yoe + yoe / 4 - yoe / 100
    ensures doe - (365 * yoe + yoe / 4 - yoe / 100) <= 365
  {
    var c, q, t := EraParts(doe);
    YearOfEraForm(c, q, t);
    FormBounds(c, q, t, yoe);
    YearStartInEra(yoe);
  }

  // ----- The algorithm -----

  /** The date that is day `doy` of the year starting on 1 March of `y`. */
  function Civil(y: nat, doy: nat): Date
    requires doy <= 365
  {
    var mp := (5 * doy + 2) / 153;
    var d := doy - (153 * mp + 2) / 5 + 1;
    var m := if mp < 10 then mp + 3 else mp - 9;
    Date(if m <= 2 then y + 1 else y, m, d)
  }

  /** Day `doe` of a 400-year era. */
  function FromEra(era: nat, doe: nat): Date
    requires doe <= 146096
  {
    var yoe := YearOfEra(doe);
    YearOfEraBounds(doe, yoe);
    Civil(yoe + era * 400, doe - (365 * yoe + yoe / 4 - yoe / 100))
  }

  function DaysToYmd(days: nat): Date {
    var z := days + 719468;
    var era := z / 146097;
    FromEra(era, z - era * 146097)
  }

  ghost predicate InYear(z: nat, y: nat, doy: nat) {
    z == YearStart(y) + doy && doy < (if Leap(y + 1) then 366 else 365)
  }

  lemma YearStartNext(y: nat)
    ensures YearStart(y + 1) == YearStart(y) + (if Leap(y + 1) then 366 else 365)
  {
  }

  lemma EraYear(era: nat, doe: nat) returns (y: nat, doy: nat)
    requires doe <= 146096
    ensures InYear(146097 * era + doe, y, doy)
    ensures FromEra(era, doe) == Civil(y, doy)
  {
    hide Civil, YearOfEra, YearStart, Leap;
    var yoe := YearOfEra(doe);
    YearOfEraBounds(doe, yoe);
    YearStartOfEra(era, yoe);
    YearStartOfEra(era, yoe + 1);
    y, doy := yoe + era * 400, doe - YearStart(yoe);
    YearStartNext(y);
  }

  /** The algorithm finds the March-based year of its day and the day within it. */
  lemma DaysToYmdIsCivil(days: nat) returns (y: nat, doy: nat)
    ensures InYear(days + 719468, y, doy)
    ensures DaysToYmd(days) == Civil(y, doy)
  {
    var z := days + 719468;
    var era := z / 146097;
    y, doy := EraYear(era, z - era * 146097);
  }

  lemma YearUnique(z: nat, x: nat, i: nat, y: nat, j: nat)
    requires InYear(z, x, i) && InYear(z, y, j)
    ensures x == y && i == j
  {
    if x < y {
      YearStartMonotone(x + 1, y);
    } else if y < x {
      YearStartMonotone(y + 1, x);
    }
  }

  /** First day of the month numbered from March. */
  function MonthStart(mp: nat): nat {
    (153 * mp + 2) / 5
  }

  lemma CivilValid(y: nat, doy: nat)
    requires doy < if Leap(y + 1) then 366 else 365
    ensures ValidDate(Civil(y, doy))
  {
  }

  lemma CivilNextDay(y: nat, doy: nat)
    requires doy + 1 < if Leap(y + 1) then 366 else 365
    ensures Civil(y, doy + 1) == NextDay(Civil(y, doy))
  {
    hide Leap;
    var mp := (5 * doy + 2) / 153;
    if mp == 0 {} else if mp == 1 {} else if mp == 2 {} else if mp == 3 {} else if mp == 4 {} else if mp == 5 {}
    else if mp == 6 {} else if mp == 7 {} else if mp == 8 {} else if mp == 9 {} else if mp == 10 {} else {}
  }

  lemma CivilNextYear(y: nat, doy: nat)
    requires doy + 1 == if Leap(y + 1) then 366 else 365
    ensures Civil(y + 1, 0) == NextDay(Civil(y, doy))
  {
  }

  lemma EpochDay()
    ensures InYear(719468, 1969, 306)
  {
    YearStartClosed(1969);
  }

  /** Day 0 is 1 January 1970. */
  lemma DayZero()
    ensures DaysToYmd(0) == Date(1970, 1, 1)
  {
    hide DaysToYmd, YearStart, Leap;
    var y, doy := DaysToYmdIsCivil(0);
    EpochDay();
    YearUnique(719468, y, doy, 1969, 306);
  }

  /** Consecutive day numbers are consecutive Gregorian dates. */
  lemma DaysToYmdNext(days: nat)
    ensures ValidDate(DaysToYmd(days))
    ensures DaysToYmd(days + 1) == NextDay(DaysToYmd(days))
  {
    hide DaysToYmd, Civil, Leap, NextDay, ValidDate;
    var z := days + 719468;
    var y, doy := DaysToYmdIsCivil(days);
    var y', doy' := DaysToYmdIsCivil(days + 1);
    CivilValid(y, doy);
    if doy + 1 < if Leap(y + 1) then 366 else 365 {
      YearUnique(z + 1, y', doy', y, doy + 1);
      CivilNextDay(y, doy);
    } else {
      YearUnique(z + 1, y', doy', y + 1, 0);
      CivilNextYear(y, doy);
    }
  }

  ghost function DaysLater(d: Date, n: nat): Date {
    if n == 0 then d else NextDay(DaysLater(d, n - 1))
  }

  /** The closed formula counts days on the calendar, from 1 January 1970. */
  lemma {:induction false} CountsFromEpoch(n: nat)
    ensures DaysToYmd(n) == DaysLater(Date(1970, 1, 1), n)
  {
    hide DaysToYmd, NextDay;
    if n == 0 {
      DayZero();
    } else {
      CountsFromEpoch(n - 1);
      DaysToYmdNext(n - 1);
    }
  }

  // ----- Order and inverse -----

  predicate Before(a: Date, b: Date) {
    a.year < b.year || (a.year == b.year && (a.month < b.month || (a.month == b.month && a.day < b.day)))
  }

  lemma {:induction false} StrictlyIncreasing(m: nat, n: nat)
    requires m < n
    ensures Before(DaysToYmd(m), DaysToYmd(n))
  {
    hide DaysToYmd, Leap;
    DaysToYmdNext(n - 1);
    if m < n - 1 {
      StrictlyIncreasing(m, n - 1);
    }
  }

  /** The inverse day count: days from 1 January 1970. */
  ghost function YmdToDays(d: Date): int
    requires 1 <= d.month <= 12 && (d.month <= 2 ==> d.year > 0)
  {
    var y := if d.month <= 2 then d.year - 1 else d.year;
    var mp := if d.month <= 2 then d.month + 9 else d.month - 3;
    YearStart(y) + MonthStart(mp) + d.day - 1 - 719468
  }

  lemma CivilMonth(y: nat, doy: nat)
    requires doy <= 365
    ensures var d := Civil(y, doy);
      1 <= d.month <= 12 && (d.month <= 2 ==> d.year > 0) && YmdToDays(d) == YearStart(y) + doy - 719468
  {
  }

  lemma InverseLeft(days: nat)
    ensures var d := DaysToYmd(days);
      1 <= d.month <= 12 && (d.month <= 2 ==> d.year > 0) && YmdToDays(d) == days
  {
    var y, doy := DaysToYmdIsCivil(days);
    CivilMonth(y, doy);
  }

  lemma MonthRoundTrip(y: nat, mp: nat, day: nat)
    requires mp <= 11 && 1 <= day
    requires day <= MonthLength(if mp < 10 then y else y + 1, if mp < 10 then mp + 3 else mp - 9)
    ensures MonthStart(mp) + day - 1 < if Leap(y + 1) then 366 else 365
    ensures Civil(y, MonthStart(mp) + day - 1) ==
      Date(if mp < 10 then y else y + 1, if mp < 10 then mp + 3 else mp - 9, day)
  {
    if mp == 0 {} else if mp == 1 {} else if mp == 2 {} else if mp == 3 {} else if mp == 4 {} else if mp == 5 {}
    else if mp == 6 {} else if mp == 7 {} else if mp == 8 {} else if mp == 9 {} else if mp == 10 {} else {}
  }

  lemma JanuaryStart(mp: nat)
    requires 10 <= mp
    ensures MonthStart(mp) >= 306
  {
  }

  /** Every valid date from 1970 on is produced, by its own day count. */
  lemma InverseRight(d: Date)
    requires ValidDate(d) && d.year >= 1970
    ensures YmdToDays(d) >= 0 && DaysToYmd(YmdToDays(d)) == d
  {
    hide DaysToYmd, Civil, Leap, MonthStart;
    var y := if d.month <= 2 then d.year - 1 else d.year;
    var mp := if d.month <= 2 then d.month + 9 else d.month - 3;
    var doy := MonthStart(mp) + d.day - 1;
    MonthRoundTrip(y, mp, d.day);
    if y > 1969 {
      YearStartMonotone(1970, y);
    } else {
      JanuaryStart(mp);
    }
    YearStartClosed(1969);
    YearStartClosed(1970);
    var n := YmdToDays(d);
    var y', doy' := DaysToYmdIsCivil(n);
    YearUnique(n + 719468, y', doy', y, doy);
  }

  // ----- Time stamps -----

  datatype Stamp = Stamp(date: Date, hours: nat, minutes: nat, seconds: nat)

  /** The fields of the formatted time stamp. */
  function StampOf(epochSecs: nat): Stamp {
    var timeOfDay := epochSecs % 86400;
    Stamp(DaysToYmd(epochSecs / 86400), timeOfDay / 3600, timeOfDay % 3600 / 60, timeOfDay % 60)
  }

  predicate StampBefore(a: Stamp, b: Stamp) {
    Before(a.date, b.date) ||
    (a.date == b.date &&
     (a.hours < b.hours ||
      (a.hours == b.hours &&
       (a.minutes < b.minutes || (a.minutes == b.minutes && a.seconds < b.seconds)))))
  }

  lemma ClockOrdered(a: nat, b: nat)
    requires a < b < 86400
    ensures a / 3600 <= b / 3600
    ensures a / 3600 == b / 3600 ==> a % 3600 / 60 <= b % 3600 / 60
    ensures a / 3600 == b / 3600 && a % 3600 / 60 == b % 3600 / 60 ==> a % 60 < b % 60
  {
    assert a == 3600 * (a / 3600) + a % 3600 && b == 3600 * (b / 3600) + b % 3600;
    assert a % 60 == a % 3600 % 60 && b % 60 == b % 3600 % 60;
  }

  /** Later instants have later stamps, field by field, and each stamp determines its instant. */
  lemma StampsOrdered(s: nat, t: nat)
    requires s < t
    ensures StampBefore(StampOf(s), StampOf(t))
  {
    hide DaysToYmd, Before;
    if s / 86400 < t / 86400 {
      StrictlyIncreasing(s / 86400, t / 86400);
    } else {
      ClockOrdered(s % 86400, t % 86400);
    }
  }

  lemma StampInverse(s: nat)
    ensures var p := StampOf(s);
      p.hours < 24 && p.minutes < 60 && p.seconds < 60 &&
      1 <= p.date.month <= 12 && (p.date.month <= 2 ==> p.date.year > 0) &&
      s == 86400 * YmdToDays(p.date) + 3600 * p.hours + 60 * p.minutes + p.seconds
  {
    hide DaysToYmd, YmdToDays;
    InverseLeft(s / 86400);
    var t := s % 86400;
    assert t == 3600 * (t / 3600) + 60 * (t % 3600 / 60) + t % 60;
  }
}
