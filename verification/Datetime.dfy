/** From seconds since 1970 to a Gregorian date. */
module Datetime {
  import opened Bytes

  /** Arithmetic in C's `int`: every assignment to one is checked not to overflow. */
  type int32 = x: int | -0x8000_0000 <= x < 0x8000_0000

  /** C's division truncates towards zero, and its remainder has the sign of the dividend. */
  function Quotient(a: int, b: int): (q: int)
    requires b > 0
  {
    if a >= 0 then a / b else -(-a / b)
  }

  function Remainder(a: int, b: int): (r: int)
    requires b > 0
  {
    a - b * Quotient(a, b)
  }

  datatype Datetime = Datetime(hour: int, min: int, sec: int, wday: int, mday: int, yday: int, mon: int, year: int)

  // ---------- the calendar ----------

  predicate Leap(y: int) {
    y % 4 == 0 && (y % 100 != 0 || y % 400 == 0)
  }

  function LeapDay(y: int): (n: nat) {
    if Leap(y) then 1 else 0
  }

  /** Number of leap years before the year, counted from year 1. */
  function LeapsBefore(y: int): (n: int) {
    (y - 1) / 4 - (y - 1) / 100 + (y - 1) / 400
  }

  /** Days from 1 January 1970 to 1 January of the year, negative for earlier years. */
  function YearStart(y: int): (n: int) {
    365 * (y - 1970) + LeapsBefore(y) - LeapsBefore(1970)
  }

  lemma Next(x: int, m: int)
    requires m > 1
    ensures (x + 1) / m == x / m + if (x + 1) % m == 0 then 1 else 0
  {
    var q, r := x / m, x % m;
    assert x == m * q + r;
    if r == m - 1 {
      assert x + 1 == m * (q + 1);
      ModUnique(x + 1, m, q + 1, 0);
    } else {
      ModUnique(x + 1, m, q, r + 1);
    }
  }

  /** The count of days is the one that starts in 1970 and advances by the length of every year. */
  lemma YearStartCounts(y: int)
    ensures YearStart(1970) == 0
    ensures YearStart(y + 1) == YearStart(y) + 365 + LeapDay(y)
  {
    Next(y - 1, 4);
    Next(y - 1, 100);
    Next(y - 1, 400);
  }

  function MonthLength(y: int, mon: nat): (n: nat)
    requires mon < 12
  {
    if mon == 1 then 28 + LeapDay(y) else if mon == 3 || mon == 5 || mon == 8 || mon == 10 then 30 else 31
  }

  /** Days of the year before the month. */
  function MonthStart(y: int, mon: nat): (n: nat)
    requires mon <= 12
  {
    if mon == 0 then 0 else MonthStart(y, mon - 1) + MonthLength(y, mon - 1)
  }

  /** The months fill the year. */
  lemma YearLength(y: int)
    ensures MonthStart(y, 12) == 365 + LeapDay(y)
  {
    MonthTable(y);
  }

  lemma MonthTable(y: int)
    ensures MonthStart(y, 0) == 0 && MonthStart(y, 1) == 31
    ensures var l := LeapDay(y);
            && MonthStart(y, 2) == 59 + l && MonthStart(y, 3) == 90 + l && MonthStart(y, 4) == 120 + l
            && MonthStart(y, 5) == 151 + l && MonthStart(y, 6) == 181 + l && MonthStart(y, 7) == 212 + l
            && MonthStart(y, 8) == 243 + l && MonthStart(y, 9) == 273 + l && MonthStart(y, 10) == 304 + l
            && MonthStart(y, 11) == 334 + l && MonthStart(y, 12) == 365 + l
  {
    assert MonthStart(y, 1) == 31;
    assert MonthStart(y, 3) == 90 + LeapDay(y);
    assert MonthStart(y, 5) == 151 + LeapDay(y);
    assert MonthStart(y, 7) == 212 + LeapDay(y);
    assert MonthStart(y, 9) == 273 + LeapDay(y);
    assert MonthStart(y, 11) == 334 + LeapDay(y);
  }

  /** Days from 1 January 1970. */
  function DayNumber(y: int, mon: nat, mday: int): (n: int)
    requires mon < 12
  {
    YearStart(y) + MonthStart(y, mon) + mday - 1
  }

  predicate IsDate(y: int, mon: int, mday: int) {
    0 <= mon < 12 && 1 <= mday <= MonthLength(y, mon)
  }

  // ---------- the steps of the calculation ----------

  /** `n` days after 1 March 2000, in centuries of 36524 days, groups of four years, years, and days left over. */
  ghost predicate Parts(n: int, q: int, c: nat, e: nat, g: nat, d: nat) {
    && n == 146097 * q + 36524 * c + 1461 * e + 365 * g + d
    && c <= 3 && e <= 24 && g <= 3 && d <= 365
    && (d == 365 ==> g == 3 && (e == 24 ==> c == 3))
  }

  lemma PartsBounds(n: int, q: int, c: nat, e: nat, g: nat, d: nat)
    requires Parts(n, q, c, e, g, d)
    ensures c <= 3 && e <= 24 && g <= 3 && d <= 365
  {
  }

  /** The year that begins in March. */
  function MarchYear(q: int, c: nat, e: nat, g: nat): (y: int) {
    2000 + 400 * q + 100 * c + 4 * e + g
  }

  lemma MarchYearDivides(q: int, c: nat, e: nat, g: nat)
    requires c <= 3 && e <= 24 && g <= 3
    ensures var y := MarchYear(q, c, e, g);
            && y / 4 == 500 + 100 * q + 25 * c + e && y / 100 == 20 + 4 * q + c && y / 400 == 5 + q
            && (y % 4 == 0 <==> g == 0) && (y % 100 == 0 <==> e == 0 && g == 0)
            && (y % 400 == 0 <==> c == 0 && e == 0 && g == 0)
  {
    var y := MarchYear(q, c, e, g);
    assert y == 4 * (500 + 100 * q + 25 * c + e) + g;
    assert y == 100 * (20 + 4 * q + c) + (4 * e + g);
    assert y == 400 * (5 + q) + (100 * c + 4 * e + g);
  }

  lemma MarchStart(n: int, q: int, c: nat, e: nat, g: nat, d: nat)
    requires Parts(n, q, c, e, g, d)
    ensures var y := MarchYear(q, c, e, g);
            n + 11017 == YearStart(y) + 59 + LeapDay(y) + d && n + 11017 == YearStart(y + 1) - 306 + d
  {
    var y := MarchYear(q, c, e, g);
    MarchYearDivides(q, c, e, g);
    YearStartCounts(y);
    assert LeapsBefore(1970) == 477;
    assert LeapsBefore(y + 1) == y / 4 - y / 100 + y / 400;
  }

  lemma LastDayIsLeap(n: int, q: int, c: nat, e: nat, g: nat, d: nat)
    requires Parts(n, q, c, e, g, d) && d == 365
    ensures Leap(MarchYear(q, c, e, g) + 1)
  {
    var y := MarchYear(q, c, e, g) + 1;
    if e < 24 {
      MarchYearDivides(q, c, e + 1, 0);
    } else {
      MarchYearDivides(q + 1, 0, 0, 0);
    }
  }

  lemma LeapMarchYear(q: int, c: nat, e: nat, g: nat)
    requires c <= 3 && e <= 24 && g <= 3
    ensures Leap(MarchYear(q, c, e, g)) <==> g == 0 && (e == 0 ==> c == 0)
  {
    MarchYearDivides(q, c, e, g);
  }

  /** Month counted from March, and day counted from 0, of a day of the year that begins in March. */
  lemma MonthOfDay(y: int, d: nat)
    requires d <= 365
    ensures var mon := (10 * d + 5) / 306;
            var day := (10 * d + 5 - 306 * mon) / 10;
            && mon <= 11 && day >= 0
            && (mon < 10 ==> 59 + LeapDay(y) + d == MonthStart(y, mon + 2) + day && day < MonthLength(y, mon + 2))
            && (mon >= 10 ==> d - 306 == MonthStart(y + 1, mon - 10) + day && day < MonthLength(y + 1, mon - 10) + if d == 365 && !Leap(y + 1) then 1 else 0)
  {
    MonthTable(y);
    MonthTable(y + 1);
    var mon := (10 * d + 5) / 306;
    assert 306 * mon <= 10 * d + 5 < 306 * mon + 306;
    assert mon == 0 || mon == 1 || mon == 2 || mon == 3 || mon == 4 || mon == 5 || mon == 6 || mon == 7 || mon == 8
           || mon == 9 || mon == 10 || mon == 11;
  }

  // ---------- the function ----------

  /** The seconds for which no step overflows; any 32-bit number of seconds is among them. */
  predicate InRange(t: int) {
    -(0x8000_0000 - 11017) * 86400 <= t < (0x8000_0000 - 4) * 86400
  }

  /** The years in which the day of the year comes out one too high from March on: those that end a century
      without being leap years. */
  predicate EndsCentury(y: int) {
    y % 100 == 0 && y % 400 != 0
  }

  /** What is promised of the result: a date and time that exist, are `t` seconds from the start of 1970, and
      fall on the right day of the week. */
  ghost predicate Right(dt: Datetime, t: int) {
    var y := dt.year + 1900;
    && IsDate(y, dt.mon, dt.mday)
    && 0 <= dt.hour < 24 && 0 <= dt.min < 60 && 0 <= dt.sec < 60
    && 86400 * DayNumber(y, dt.mon, dt.mday) + 3600 * dt.hour + 60 * dt.min + dt.sec == t
    && dt.wday == (DayNumber(y, dt.mon, dt.mday) + 4) % 7
  }

  method FromSeconds(t: int) returns (dt: Datetime)
    requires InRange(t)
    ensures Right(dt, t) && YdayAsComputed(dt)
    ensures YdayRight(dt) <==> !OpensCentury(t / 86400)
  {
    var tod: int32 := Remainder(t, 86400);
    var day: int32 := Quotient(t, 86400);
    if tod < 0 { tod, day := tod + 86400, day - 1; }
    ghost var days: int := day;
    assert t == 86400 * days + tod && 0 <= tod < 86400;

    var hour, min, sec := TimeOfDay(tod);
    var wday := Weekday(day);
    day := day - 11017;
    var year: int32;
    var yday: int32;
    ghost var q: int;
    ghost var c: nat, e: nat, g: nat;
    year, day, yday, q, c, e, g := MarchDate(day);
    var mon: int32;
    var mday: int32;
    year, yday, mon, mday := Month(year, day, yday, days - 11017, q, c, e, g);
    dt := Datetime(hour, min, sec, wday, mday, yday, mon, year - 1900);
    assert Right(dt, t);
    YdayRightWhen(dt, t);
  }

  /** The year that begins in March, the day in it, and whether this is one of the first 306 days of four years. */
  method MarchDate(day0: int32) returns (year: int32, day: int32, early: int32, ghost q: int, ghost c: nat, ghost e: nat, ghost g: nat)
    ensures day >= 0 && Parts(day0, q, c, e, g, day) && year == MarchYear(q, c, e, g)
    ensures early == if g == 0 && day < 306 then 1 else 0
  {
    year, day, q, c := Centuries(day0);
    ghost var d2: int := day;
    year := year * 25;
    e := day / 1461;
    year := year + Quotient(day, 1461);
    day := Remainder(day, 1461);
    year := year * 4;
    early := if day < 306 then 1 else 0;
    assert d2 == 1461 * e + day && e <= 24 && 0 <= day < 1461 && (e == 24 && day == 1460 ==> c == 3);
    year, day, g := YearOfFour(year, day);
  }

  /** Four times the 400-year period plus the century in it, and the day in the century. */
  method Centuries(day0: int32) returns (year: int32, day: int32, ghost q: int, ghost c: nat)
    ensures day0 == 146097 * q + 36524 * c + day && c <= 3 && 0 <= day <= 36524 && (day == 36524 ==> c == 3)
    ensures year == 4 * (5 + q) + c && -20000 < q < 20000
  {
    day := day0;
    year := 5 + Quotient(day, 146097);
    day := Remainder(day, 146097);
    if day < 0 { day, year := day + 146097, year - 1; }
    q := year - 5;
    assert day0 == 146097 * q + day && 0 <= day < 146097;
    year := year * 4;
    if day == 146096 {
      year, day, c := year + 3, 36524, 3;
    } else {
      c := day / 36524;
      year, day := year + Quotient(day, 36524), Remainder(day, 36524);
    }
  }

  /** The year of a group of four, and the day in it. */
  method YearOfFour(year0: int32, day0: int32) returns (year: int32, day: int32, ghost g: nat)
    requires 0 <= day0 < 1461 && -8000000 < year0 < 8000000
    ensures day0 == 365 * g + day && g <= 3 && 0 <= day <= 365 && (day == 365 ==> g == 3) && year == year0 + g
    ensures day0 < 306 <==> g == 0 && day < 306
  {
    if day0 == 1460 { return year0 + 3, 365, 3; }
    g := day0 / 365;
    return year0 + Quotient(day0, 365), Remainder(day0, 365), g;
  }

  /** From the year that begins in March to month and day. */
  method Month(year0: int32, day0: int32, early: int32, ghost n: int, ghost q: int, ghost c: nat, ghost e: nat, ghost g: nat)
      returns (year: int32, yday: int32, mon: int32, mday: int32)
    requires day0 >= 0 && Parts(n, q, c, e, g, day0) && year0 == MarchYear(q, c, e, g) && -8000000 < year0 < 8000000
    requires early == if g == 0 && day0 < 306 then 1 else 0
    ensures IsDate(year, mon, mday) && DayNumber(year, mon, mday) == n + 11017
    ensures yday == MonthStart(year, mon) + mday - 1 + if mon >= 2 && EndsCentury(year) then 1 else 0
    ensures year0 <= year <= year0 + 1
  {
    hide YearStart, MonthStart, MonthLength, Leap, Parts, MarchYear;
    PartsBounds(n, q, c, e, g, day0);
    year := year0;
    yday := early + day0;
    var day: int32 := day0 * 10;
    mon := Quotient(day + 5, 306);
    day := day + 5 - 306 * mon;
    day := Quotient(day, 10);
    MonthOfDay(year0, day0);
    MarchStart(n, q, c, e, g, day0);
    LeapMarchYear(q, c, e, g);
    MarchYearDivides(q, c, e, g);
    if day0 == 365 { LastDayIsLeap(n, q, c, e, g, day0); }
    if mon >= 10 {
      yday, year, mon := yday - 306, year + 1, mon - 10;
    } else {
      yday, mon := yday + 59, mon + 2;
    }
    mday := day + 1;
  }

  method TimeOfDay(t: int32) returns (hour: int32, min: int32, sec: int32)
    requires 0 <= t < 86400
    ensures 0 <= hour < 24 && 0 <= min < 60 && 0 <= sec < 60 && t == 3600 * hour + 60 * min + sec
  {
    var tod := t;
    hour := Quotient(tod, 3600);
    tod := Remainder(tod, 3600);
    min := Quotient(tod, 60);
    sec := Remainder(tod, 60);
  }

  method Weekday(day: int32) returns (wday: int32)
    requires day + 4 < 0x8000_0000
    ensures wday == (day + 4) % 7
  {
    wday := Remainder(day + 4, 7);
    if wday < 0 { wday := wday + 7; }
  }

  // ---------- what the result means ----------

  lemma {:induction false} YearsApart(y: int, z: int)
    requires y < z
    ensures YearStart(z) >= YearStart(y) + 365 + LeapDay(y)
    decreases z - y
  {
    YearStartCounts(y);
    if y + 1 < z { YearsApart(y + 1, z); }
  }

  lemma {:induction false} MonthsApart(y: int, m: nat, n: nat)
    requires m < n <= 12
    ensures MonthStart(y, n) >= MonthStart(y, m) + MonthLength(y, m)
    decreases n
  {
    if m < n - 1 { MonthsApart(y, m, n - 1); }
  }

  lemma DayInYear(y: int, mon: nat, mday: int)
    requires IsDate(y, mon, mday)
    ensures 0 <= MonthStart(y, mon) + mday - 1 < 365 + LeapDay(y)
  {
    MonthsApart(y, mon, 12);
    YearLength(y);
  }

  /** A day has only one date. */
  lemma DateUnique(y: int, mon: nat, mday: int, y': int, mon': nat, mday': int)
    requires IsDate(y, mon, mday) && IsDate(y', mon', mday') && DayNumber(y, mon, mday) == DayNumber(y', mon', mday')
    ensures y == y' && mon == mon' && mday == mday'
  {
    DayInYear(y, mon, mday);
    DayInYear(y', mon', mday');
    if y < y' { YearsApart(y, y'); }
    if y' < y { YearsApart(y', y); }
    if mon < mon' { MonthsApart(y, mon, mon'); }
    if mon' < mon { MonthsApart(y, mon', mon); }
  }

  predicate YdayAsComputed(dt: Datetime)
    requires 0 <= dt.mon < 12
  {
    var y := dt.year + 1900;
    dt.yday == MonthStart(y, dt.mon) + dt.mday - 1 + if dt.mon >= 2 && EndsCentury(y) then 1 else 0
  }

  /** Days since 1 January of the same year. */
  predicate YdayRight(dt: Datetime)
    requires 0 <= dt.mon < 12
  {
    var y := dt.year + 1900;
    dt.yday == DayNumber(y, dt.mon, dt.mday) - DayNumber(y, 0, 1)
  }

  /** The seconds that fall on the day. */
  predicate OnDay(t: int, y: int, mon: int, mday: int) {
    IsDate(y, mon, mday) && 86400 * DayNumber(y, mon, mday) <= t < 86400 * (DayNumber(y, mon, mday) + 1)
  }

  /** The first 306 days of the second, third and fourth century, where every 400 years begin on a first of March. */
  predicate OpensCentury(day: int) {
    var r := (day - 11017) % 146097;
    1 <= r / 36524 <= 3 && r % 36524 < 306
  }

  lemma DateOfSeconds(dt: Datetime, t: int, y: int, mon: int, mday: int)
    requires Right(dt, t) && OnDay(t, y, mon, mday)
    ensures dt.year + 1900 == y && dt.mon == mon && dt.mday == mday
  {
    DateUnique(dt.year + 1900, dt.mon, dt.mday, y, mon, mday);
  }

  /** On which dates the day of the year is right: in January and February, and in all years that do not end a
      century or are leap years. */
  lemma YdayRightOn(dt: Datetime, t: int, y: int, mon: int, mday: int)
    requires Right(dt, t) && YdayAsComputed(dt) && OnDay(t, y, mon, mday)
    ensures YdayRight(dt) <==> mon < 2 || !EndsCentury(y)
  {
    DateOfSeconds(dt, t, y, mon, mday);
    assert MonthStart(y, 0) == 0;
  }

  /** From March on, the days of a year that ends a century are the first of a century that begins in March. */
  lemma CenturyOpens(y: int, mon: nat, mday: int)
    requires IsDate(y, mon, mday) && mon >= 2 && EndsCentury(y)
    ensures OpensCentury(DayNumber(y, mon, mday))
  {
    var k := y / 100 - 20;
    var q, c := k / 4, k % 4;
    var d := MonthStart(y, mon) + mday - 1 - 59;
    MonthTable(y);
    DayInYear(y, mon, mday);
    var n := 146097 * q + 36524 * c + d;
    MonthsApart(y, 1, mon);
    assert y == MarchYear(q, c, 0, 0);
    MarchStart(n, q, c, 0, 0, d);
    ModUnique(n, 146097, q, 36524 * c + d);
    ModUnique(36524 * c + d, 36524, c, d);
  }

  /** The other way round. */
  lemma OpenedByCentury(y: int, mon: nat, mday: int)
    requires IsDate(y, mon, mday) && OpensCentury(DayNumber(y, mon, mday))
    ensures mon >= 2 && EndsCentury(y)
  {
    var n := DayNumber(y, mon, mday) - 11017;
    var q, r := n / 146097, n % 146097;
    var c, d := r / 36524, r % 36524;
    var z := MarchYear(q, c, 0, 0);
    MarchStart(n, q, c, 0, 0, d);
    MarchYearDivides(q, c, 0, 0);
    MonthOfDay(z, d);
    hide YearStart, MonthStart, MonthLength, Leap, MarchYear;
    var m := (10 * d + 5) / 306;
    var day := (10 * d + 5 - 306 * m) / 10;
    DateUnique(y, mon, mday, z, m + 2, day + 1);
  }

  /** For which seconds the day of the year is right, for all numbers of seconds. */
  lemma YdayRightWhen(dt: Datetime, t: int)
    requires Right(dt, t) && YdayAsComputed(dt)
    ensures YdayRight(dt) <==> !OpensCentury(t / 86400)
  {
    var y := dt.year + 1900;
    var n := DayNumber(y, dt.mon, dt.mday);
    ModUnique(t, 86400, n, t - 86400 * n);
    hide OpensCentury, YearStart, MonthLength, EndsCentury;
    YdayRightOn(dt, t, y, dt.mon, dt.mday);
    if dt.mon >= 2 && EndsCentury(y) { CenturyOpens(y, dt.mon, dt.mday); }
    if OpensCentury(n) { OpenedByCentury(y, dt.mon, dt.mday); }
  }

  /** 1 March 2100 is the first day of the year 2100 for which it is wrong: 60 instead of 59. */
  lemma FirstOfMarch2100(dt: Datetime)
    requires Right(dt, 4107542400) && YdayAsComputed(dt)
    ensures dt.year == 200 && dt.mon == 2 && dt.mday == 1 && dt.yday == 60 && !YdayRight(dt)
  {
    MonthTable(2100);
    assert YearStart(2100) == 47482;
    DateOfSeconds(dt, 4107542400, 2100, 2, 1);
    YdayRightWhen(dt, 4107542400);
  }
}
