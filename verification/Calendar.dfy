/** Calendar arithmetic: FAT time stamps and Unix time (fat_date_to_unix and fat_unix_to_date in
    kernel/fs/fat.c, days_from_civil_year_month in kernel/arch/x86_64/timer.c). */
module Calendar {

  // ----- the Gregorian calendar -----

  predicate Leap(y: nat)
  {
    y % 4 == 0 && (y % 100 != 0 || y % 400 == 0)
  }

  function MonthDays(y: nat, m: nat): nat
  {
    if m == 2 then (if Leap(y) then 29 else 28)
    else if m == 4 || m == 6 || m == 9 || m == 11 then 30 else 31
  }

  /** The days from 1 January 1970 to the first of month `m` of year `y`, month by month. */
  function DaysTo(y: nat, m: nat): nat
    requires y >= 1970 && 1 <= m <= 12
    decreases y, m
  {
    if m > 1 then DaysTo(y, m - 1) + MonthDays(y, m - 1)
    else if y > 1970 then DaysTo(y - 1, 12) + 31
    else 0
  }

  // ----- the closed form -----

  /** days_from_civil_year_month; fat_date_to_unix has the same expression. */
  function CivilDays(year: nat, m: nat): int
    requires year >= 1 && 1 <= m <= 12
  {
    var y := if m <= 2 then year - 1 else year;
    var era := y / 400;
    var yoe := y - era * 400;
    var doy := (153 * (if m > 2 then m - 3 else m + 9) + 2) / 5;
    var doe := yoe * 365 + yoe / 4 - yoe / 100 + doy;
    era * 146097 + doe - 719468
  }

  /** Days in the years before March of year `y`. */
  function YearStart(y: nat): nat
  {
    365 * y + y / 4 - y / 100 + y / 400
  }

  lemma EraForm(y: nat)
    ensures var era := y / 400; var yoe := y - era * 400;
            0 <= yoe < 400 && era * 146097 + (yoe * 365 + yoe / 4 - yoe / 100) == YearStart(y)
  {
    var era := y / 400;
    var yoe := y - era * 400;
    assert y / 4 == 100 * era + yoe / 4;
    assert y / 100 == 4 * era + yoe / 100;
  }

  lemma Step4(y: nat)
    ensures (y + 1) / 4 == y / 4 + if (y + 1) % 4 == 0 then 1 else 0
  {
  }

  lemma Step100(y: nat)
    ensures (y + 1) / 100 == y / 100 + if (y + 1) % 100 == 0 then 1 else 0
  {
  }

  lemma Step400(y: nat)
    ensures (y + 1) / 400 == y / 400 + if (y + 1) % 400 == 0 then 1 else 0
  {
  }

  lemma Multiples(y: nat)
    ensures y % 400 == 0 ==> y % 100 == 0
    ensures y % 100 == 0 ==> y % 4 == 0
  {
    if y % 400 == 0 { assert y == 100 * (4 * (y / 400)); }
    if y % 100 == 0 { assert y == 4 * (25 * (y / 100)); }
  }

  lemma YearStep(y: nat)
    ensures YearStart(y + 1) == YearStart(y) + if Leap(y + 1) then 366 else 365
  {
    Step4(y);
    Step100(y);
    Step400(y);
    Multiples(y + 1);
  }

  /** Days from 1 March to the first of month `m`. */
  function MonthStart(m: nat): nat
    requires 1 <= m <= 12
  {
    (153 * (if m > 2 then m - 3 else m + 9) + 2) / 5
  }

  lemma MonthStep(y: nat, m: nat)
    requires 2 <= m <= 12 && m != 3
    ensures MonthStart(m) == MonthStart(m - 1) + MonthDays(y, m - 1)
  {
    if m == 2 {} else if m == 4 {} else if m == 5 {} else if m == 6 {} else if m == 7 {} else if m == 8 {}
    else if m == 9 {} else if m == 10 {} else if m == 11 {} else {}
  }

  lemma CivilForm(year: nat, m: nat)
    requires year >= 1 && 1 <= m <= 12
    ensures CivilDays(year, m) ==
              YearStart(if m <= 2 then year - 1 else year) + MonthStart(m) - 719468
  {
    EraForm(if m <= 2 then year - 1 else year);
  }

  /** The closed form is the sum of the real month lengths since 1970. */
  lemma {:induction false} CivilIsSum(y: nat, m: nat)
    requires y >= 1970 && 1 <= m <= 12
    ensures CivilDays(y, m) == DaysTo(y, m)
    decreases y, m
  {
    hide YearStart, CivilDays, Leap;
    CivilForm(y, m);
    if m > 1 {
      CivilIsSum(y, m - 1);
      CivilForm(y, m - 1);
      if m == 3 { YearStep(y - 1); } else { hide MonthStart; MonthStep(y, m); }
    } else if y > 1970 {
      CivilIsSum(y - 1, 12);
      CivilForm(y - 1, 12);
    } else {
      Start1969();
    }
  }

  lemma Start1969()
    ensures YearStart(1969) == 719162
  {
  }

  // ----- and back -----

  datatype Date = Date(y: int, m: int, d: int)

  /** Year, month and day of day number `days` since 1970. */
  function FromDays(days: nat): Date
  {
    var z := days + 719468;
    var era := z / 146097;
    var doe := z - era * 146097;
    var yoe := YearOfEra(doe);
    InEra(era, yoe, doe - (365 * yoe + yoe / 4 - yoe / 100))
  }

  /** Day `doy`, counted from March, of year `yoe` of an era. */
  function InEra(era: int, yoe: int, doy: int): Date
  {
    var mp := (5 * doy + 2) / 153;
    var d := doy - (153 * mp + 2) / 5 + 1;
    var m := if mp < 10 then mp + 3 else mp - 9;
    Date(yoe + era * 400 + (if m <= 2 then 1 else 0), m, d)
  }

  function YearOfEra(doe: nat): nat
  {
    (doe - doe / 1460 + doe / 36524 - doe / 146096) / 365
  }

  /** Centuries, four-year cycles and years of an era, as days. */
  function EraDays(cent: nat, quad: nat, yr: nat): nat
  {
    36524 * cent + 1461 * quad + 365 * yr
  }

  /** Where day `doe` of an era lies: only the fourth year of a cycle has a day 365, and the last
      cycle of a century only in the fourth century. */
  lemma Locate(doe: nat) returns (cent: nat, quad: nat, yr: nat, doy: nat)
    requires doe < 146097
    ensures cent <= 3 && quad <= 24 && yr <= 3 && doy <= 365 && doe == EraDays(cent, quad, yr) + doy
    ensures doy == 365 ==> yr == 3 && (quad == 24 ==> cent == 3)
  {
    cent := if doe / 36524 > 3 then 3 else doe / 36524;
    var r := doe - 36524 * cent;
    assert r <= 36524 && (cent < 3 ==> r < 36524);
    quad := r / 1461;
    var q := r - 1461 * quad;
    assert quad <= 24 && 0 <= q <= 1460;
    yr := if q / 365 > 3 then 3 else q / 365;
    doy := q - 365 * yr;
  }

  lemma YearIs(cent: nat, quad: nat, yr: nat, doy: nat)
    requires cent <= 3 && quad <= 24 && yr <= 3 && doy <= 365 && (doy == 365 ==> yr == 3 && (quad == 24 ==> cent == 3))
    ensures YearOfEra(EraDays(cent, quad, yr) + doy) == 100 * cent + 4 * quad + yr
  {
    var doe := EraDays(cent, quad, yr) + doy;
    var k := 24 * cent + quad + 365 * yr + doy;
    var extra := if k >= 1460 then 1 else 0;
    Quotients(25 * cent + quad + extra, k - 1460 * extra);
    CenturyIs(cent, 1461 * quad + 365 * yr + doy);
    Quotients(100 * cent + 4 * quad + yr, doy - extra);
  }

  lemma Quotients(q: nat, r: nat)
    ensures r < 365 ==> (365 * q + r) / 365 == q
    ensures r < 1460 ==> (1460 * q + r) / 1460 == q
    ensures r < 36524 ==> (36524 * q + r) / 36524 == q
  {
  }

  lemma CenturyIs(cent: nat, r: nat)
    requires cent <= 3 && r <= 36524 && (r == 36524 ==> cent == 3)
    ensures (36524 * cent + r) / 36524 - (36524 * cent + r) / 146096 == cent
  {
    Quotients(cent, r);
  }

  /** The year within the era is the one whose days hold `doe`. */
  lemma YearFits(doe: nat)
    requires doe < 146097
    ensures var yoe := YearOfEra(doe); var start := 365 * yoe + yoe / 4 - yoe / 100;
            yoe < 400 && start <= doe <= start + 365 && (doe == start + 365 ==> Leap(yoe + 1))
  {
    var cent, quad, yr, doy := Locate(doe);
    YearIs(cent, quad, yr, doy);
    hide YearOfEra;
    var yoe := YearOfEra(doe);
    assert yoe / 4 == 25 * cent + quad;
    assert yoe / 100 == cent;
    if doy == 365 { LeapEnd(cent, quad); }
  }

  /** The fourth year of a cycle is a leap year, but for the last cycle of a century. */
  lemma LeapEnd(cent: nat, quad: nat)
    requires cent <= 3 && quad <= 24 && (quad == 24 ==> cent == 3)
    ensures Leap(100 * cent + 4 * quad + 4)
  {
    assert (100 * cent + 4 * quad + 4) % 4 == 0;
    if quad < 24 { assert (100 * cent + 4 * quad + 4) % 100 == 4 * quad + 4; }
  }

  /** Day `doy` from March on is in month `mp` from March on; 29 February is day 365. */
  lemma DayFits(doy: nat, y: nat)
    requires doy <= 365 && (doy == 365 ==> Leap(y))
    ensures var mp := (5 * doy + 2) / 153; var d := doy - (153 * mp + 2) / 5 + 1;
            0 <= mp <= 11 && 1 <= d <= MonthDays(y, if mp < 10 then mp + 3 else mp - 9)
  {
    hide Leap;
    var mp := (5 * doy + 2) / 153;
    if mp == 0 {} else if mp == 1 {} else if mp == 2 {} else if mp == 3 {} else if mp == 4 {} else if mp == 5 {}
    else if mp == 6 {} else if mp == 7 {} else if mp == 8 {} else if mp == 9 {} else if mp == 10 {} else {}
  }

  /** The same year of another era. */
  lemma LeapAgain(era: nat, y: nat)
    ensures Leap(y + era * 400) <==> Leap(y)
  {
    Rem4(y, 100 * era);
    Rem100(y, 4 * era);
    Rem400(y, era);
  }

  lemma Rem4(y: nat, k: nat)
    ensures (y + 4 * k) % 4 == y % 4
  {
  }

  lemma Rem100(y: nat, k: nat)
    ensures (y + 100 * k) % 100 == y % 100
  {
  }

  lemma Rem400(y: nat, k: nat)
    ensures (y + 400 * k) % 400 == y % 400
  {
  }

  /** A date of the calendar. */
  predicate Real(t: Date)
  {
    t.y >= 1 && 1 <= t.m <= 12 && 1 <= t.d <= MonthDays(t.y, t.m)
  }

  lemma InEraReal(era: nat, yoe: nat, doy: nat)
    requires yoe < 400 && doy <= 365 && (doy == 365 ==> Leap(yoe + 1)) && era > 0
    ensures Real(InEra(era, yoe, doy))
  {
    LeapAgain(era, yoe + 1);
    DayFits(doy, yoe + 1);
    hide Leap;
    var t := InEra(era, yoe, doy);
    assert t.m <= 2 ==> t.y == yoe + 1 + era * 400;
  }

  lemma InEraBack(era: nat, yoe: nat, doy: nat)
    requires yoe < 400 && doy <= 365 && (doy == 365 ==> Leap(yoe + 1))
    ensures var t := InEra(era, yoe, doy);
            && t.y >= yoe + era * 400 && 1 <= t.m <= 12 && t.y >= 0
            && (t.y >= 1 ==>
                 CivilDays(t.y, t.m) + t.d - 1 == era * 146097 + (365 * yoe + yoe / 4 - yoe / 100) + doy - 719468)
  {
    DayFits(doy, yoe + 1);
    SameEra(era, yoe);
  }

  lemma SameEra(era: nat, yoe: nat)
    requires yoe < 400
    ensures (yoe + era * 400) / 400 == era
  {
  }

  lemma EraOf(z: nat)
    requires z >= 719468
    ensures z / 146097 >= 4 && 0 <= z - z / 146097 * 146097 < 146097
  {
  }

  /** Every day number has a date of the calendar, whose day number it is. */
  lemma FromDaysBack(days: nat)
    ensures Real(FromDays(days)) && CivilDays(FromDays(days).y, FromDays(days).m) + FromDays(days).d - 1 == days
  {
    hide YearOfEra, InEra, CivilDays, Leap, Real;
    var z := days + 719468;
    EraOf(z);
    var era := z / 146097;
    var doe := z - era * 146097;
    YearFits(doe);
    var yoe := YearOfEra(doe);
    var doy := doe - (365 * yoe + yoe / 4 - yoe / 100);
    InEraBack(era, yoe, doy);
    InEraReal(era, yoe, doy);
    RealYear(FromDays(days));
  }

  lemma RealYear(t: Date)
    requires Real(t)
    ensures t.y >= 1 && 1 <= t.m <= 12
  {
  }

  /** A month begins when the one before it is over. */
  lemma NextMonth(y: nat, m: nat)
    requires y >= 1 && 1 <= m <= 12
    ensures CivilDays(y, m) + MonthDays(y, m) == if m < 12 then CivilDays(y, m + 1) else CivilDays(y + 1, 1)
  {
    hide YearStart, CivilDays, Leap;
    CivilForm(y, m);
    if m == 12 {
      CivilForm(y + 1, 1);
    } else {
      CivilForm(y, m + 1);
      if m == 2 { YearStep(y - 1); } else { hide MonthStart; MonthStep(y, m + 1); }
    }
  }

  /** Earlier months are over before later ones begin. */
  lemma {:induction false} MonthOrder(y: nat, m: nat, y2: nat, m2: nat)
    requires y >= 1 && 1 <= m <= 12 && 1 <= m2 <= 12 && (y < y2 || (y == y2 && m < m2))
    ensures CivilDays(y, m) + MonthDays(y, m) <= CivilDays(y2, m2)
    decreases y2, m2
  {
    hide CivilDays, MonthDays;
    var py, pm := if m2 > 1 then y2 else y2 - 1, if m2 > 1 then m2 - 1 else 12;
    NextMonth(py, pm);
    if !(py == y && pm == m) {
      MonthOrder(y, m, py, pm);
      DaysPositive(py, pm);
    }
  }

  lemma DaysPositive(y: nat, m: nat)
    ensures MonthDays(y, m) >= 28
  {
  }

  lemma DateOrder(a: Date, b: Date)
    requires Real(a) && Real(b) && (a.y < b.y || (a.y == b.y && a.m < b.m))
    ensures CivilDays(a.y, a.m) + a.d < CivilDays(b.y, b.m) + b.d
  {
    hide CivilDays;
    MonthOrder(a.y, a.m, b.y, b.m);
  }

  /** Every date of the calendar from 1970 on is the date of its day number: with FromDaysBack, the two
      conversions are inverse. */
  lemma ToDaysBack(t: Date)
    requires Real(t) && CivilDays(t.y, t.m) + t.d - 1 >= 0
    ensures FromDays(CivilDays(t.y, t.m) + t.d - 1) == t
  {
    hide CivilDays, FromDays, MonthDays;
    var days := CivilDays(t.y, t.m) + t.d - 1;
    FromDaysBack(days);
    var u := FromDays(days);
    if u.y < t.y || (u.y == t.y && u.m < t.m) { DateOrder(u, t); }
    else if t.y < u.y || (u.y == t.y && t.m < u.m) { DateOrder(t, u); }
  }

  // ----- FAT time stamps -----

  /** fat_date_to_unix: years from 1980 in bits 9 to 15, month, day; hours, minutes, seconds by two. */
  function ToUnix(date: int, time: int): int
  {
    if date == 0 && time == 0 then 0 else
    var day, mon, yr := date % 32, date / 32 % 16, 1980 + date / 512 % 128;
    if mon < 1 || mon > 12 || day < 1 || day > 31 then 0 else
    (CivilDays(yr, mon) + day - 1) * 86400 + time / 2048 % 32 * 3600 + time / 32 % 64 * 60 + time % 32 * 2
  }

  /** fat_unix_to_date: nothing before 1980, and the year, its offset cut to 16 bits first, stops at 2107. */
  function ToFat(u: nat): (int, int)
  {
    if u == 0 then (0, 0) else
    var t := FromDays(u / 86400);
    if t.y < 1980 then (0, 0) else (Pack(t), PackTime(u % 86400))
  }

  function YearOff(y: nat): (r: nat)
    requires y >= 1980
    ensures r <= 127
  {
    var o := (y - 1980) % 0x1_0000;
    if o > 127 then 127 else o
  }

  function Pack(t: Date): int
    requires t.y >= 1980
  {
    YearOff(t.y) * 512 + t.m * 32 + t.d
  }

  function PackTime(rem: nat): int
  {
    rem / 3600 * 2048 + rem % 3600 / 60 * 32 + rem % 60 / 2
  }

  lemma Fields(a: nat, b: nat, c: nat)
    requires b < 16 && c < 32
    ensures var n := a * 512 + b * 32 + c; n % 32 == c && n / 32 % 16 == b && n / 512 == a
  {
    var n := a * 512 + b * 32 + c;
    assert n / 32 == a * 16 + b;
  }

  lemma TimeFields(h: nat, m: nat, s: nat)
    requires m < 64 && s < 32
    ensures var n := h * 2048 + m * 32 + s; n % 32 == s && n / 32 % 64 == m && n / 2048 == h
  {
    var n := h * 2048 + m * 32 + s;
    assert n / 32 == h * 64 + m;
  }

  lemma Clock(rem: nat)
    requires rem < 86400
    ensures rem / 3600 < 24 && rem % 3600 / 60 < 60 && rem % 60 / 2 < 30
    ensures rem / 3600 * 3600 + rem % 3600 / 60 * 60 + rem % 60 / 2 * 2 == rem - rem % 2
  {
    var h, r := rem / 3600, rem % 3600;
    assert rem % 60 == r % 60;
    assert rem % 2 == r % 60 % 2;
  }

  /** The year of a Unix time is from 1980 to 2107 exactly in this stretch. */
  lemma Years(u: nat)
    ensures var y := FromDays(u / 86400).y; 1980 <= y <= 2107 <==> 315532800 <= u < 4354819200
    ensures FromDays(u / 86400).y < 1980 <==> u < 315532800
  {
    var t := FromDays(u / 86400);
    FromDaysBack(u / 86400);
    YearBounds(t.y, t.m, t.d);
    hide FromDays, CivilDays;
  }

  lemma YearBounds(y: nat, m: nat, d: nat)
    requires y >= 1 && 1 <= m <= 12 && 1 <= d <= 31
    ensures var n := CivilDays(y, m) + d - 1; (y < 1980 <==> n < 3652) && (y <= 2107 <==> n < 50403)
  {
    CivilForm(y, m);
    hide CivilDays;
  }

  /** What is left of a date and a time of day after packing. */
  lemma Unpacked(t: Date, rem: nat)
    requires t.y >= 1980 && 1 <= t.m <= 12 && 1 <= t.d <= 31 && rem < 86400
    ensures var y := 1980 + YearOff(t.y);
            ToUnix(Pack(t), PackTime(rem)) == (CivilDays(y, t.m) + t.d - 1) * 86400 + (rem - rem % 2)
  {
    hide CivilDays;
    Clock(rem);
    Fields(YearOff(t.y), t.m, t.d);
    TimeFields(rem / 3600, rem % 3600 / 60, rem % 60 / 2);
    assert Pack(t) != 0;
  }

  lemma Even(u: nat)
    ensures u / 86400 * 86400 + (u % 86400 - u % 86400 % 2) == u - u % 2
  {
  }

  /** Converting a Unix time to a FAT stamp and back loses the odd second and nothing else, for every
      time in the years 1980 to 2107; for other times it is off, but for the first two seconds. */
  lemma RoundTrip(u: nat)
    ensures ToUnix(ToFat(u).0, ToFat(u).1) == u - u % 2 <==> u < 2 || 315532800 <= u < 4354819200
  {
    hide FromDays, CivilDays, Pack, PackTime, ToUnix;
    var t := FromDays(u / 86400);
    FromDaysBack(u / 86400);
    Years(u);
    Even(u);
    ZeroStamp();
    if u > 0 && t.y >= 1980 {
      Unpacked(t, u % 86400);
      if t.y > 2107 {
        YearBounds(t.y, t.m, t.d);
        var y := 1980 + YearOff(t.y);
        YearBounds(y, t.m, t.d);
        OtherDay(CivilDays(y, t.m) + t.d - 1, u / 86400, u % 86400 - u % 86400 % 2);
      }
    }
  }

  lemma OtherDay(a: int, b: int, r: int)
    requires a < b
    ensures a * 86400 + r != b * 86400 + r
  {
  }

  /** The fields of a FAT stamp: years from 1980 above the month above the day, hours above minutes above seconds in
      twos, and the time they mean. */
  lemma StampFields(t: Date, h: nat, min: nat, sec: nat)
    requires Real(t) && 1980 <= t.y <= 2107 && h < 24 && min < 60 && sec < 60
    ensures ToUnix((t.y - 1980) * 512 + t.m * 32 + t.d, h * 2048 + min * 32 + sec / 2) ==
            (DaysTo(t.y, t.m) + t.d - 1) * 86400 + h * 3600 + min * 60 + sec / 2 * 2
  {
    hide CivilDays, DaysTo, ToUnix;
    var date, time := (t.y - 1980) * 512 + t.m * 32 + t.d, h * 2048 + min * 32 + sec / 2;
    Fields(t.y - 1980, t.m, t.d);
    TimeFields(h, min, sec / 2);
    CivilIsSum(t.y, t.m);
    UnixOf(date, time, t.y - 1980, t.m, t.d, h, min, sec / 2);
  }

  lemma UnixOf(date: nat, time: nat, y: nat, m: nat, d: nat, h: nat, min: nat, s: nat)
    requires date % 32 == d && date / 32 % 16 == m && date / 512 == y < 128 && 1 <= m <= 12 && 1 <= d <= 31
    requires time % 32 == s && time / 32 % 64 == min && time / 2048 == h < 32
    ensures ToUnix(date, time) == (CivilDays(1980 + y, m) + d - 1) * 86400 + h * 3600 + min * 60 + s * 2
  {
    hide CivilDays;
    assert date != 0;
  }

  lemma ZeroStamp()
    ensures ToUnix(0, 0) == 0
  {
  }
}
