/** Civil dates and times (userspace/libc/time.c). */
module Calendar {
  import opened Words

  /** The C operators, which round towards zero. */
  function Div(a: int, b: int): int
    requires b > 0
  {
    if a >= 0 then a / b else -((-a) / b)
  }

  function Rem(a: int, b: int): int
    requires b > 0
  {
    a - b * Div(a, b)
  }

  datatype Date = Date(y: int, m: int, d: int)

  // ----- the calendar, from its own rules -----------------------------------------------------------

  predicate Leap(y: int) {
    y % 4 == 0 && (y % 100 != 0 || y % 400 == 0)
  }

  function MonthLength(y: int, m: int): int {
    if m == 2 then (if Leap(y) then 29 else 28)
    else if m == 4 || m == 6 || m == 9 || m == 11 then 30 else 31
  }

  predicate Valid(t: Date) {
    1 <= t.m <= 12 && 1 <= t.d <= MonthLength(t.y, t.m)
  }

  function NextDay(t: Date): Date {
    if t.d < MonthLength(t.y, t.m) then t.(d := t.d + 1)
    else if t.m < 12 then Date(t.y, t.m + 1, 1)
    else Date(t.y + 1, 1, 1)
  }

  // ----- the code ---------------------------------------------------------------------------------------

  /** The day within an era of 400 years that starts on the first of March. */
  function DayOfEra(yoe: int, doy: int): int {
    yoe * 365 + yoe / 4 - yoe / 100 + doy
  }

  /** The conversion (unsigned). */
  function U32(x: int): nat {
    x % TWO32
  }

  /** The year of days_from_civil, which begins in March. */
  function Shifted(t: Date): int {
    t.y - (if t.m <= 2 then 1 else 0)
  }

  function Era(y: int): int {
    Div(if y >= 0 then y else y - 399, 400)
  }

  /** The day of the year before it is converted to unsigned. */
  function DayOfYear(t: Date): int {
    Div(153 * (t.m + (if t.m > 2 then -3 else 9)) + 2, 5) + t.d - 1
  }

  /** days_from_civil. */
  function DaysFromCivil(t: Date): int {
    var y := Shifted(t);
    var yoe, doy := U32(y - Era(y) * 400), U32(DayOfYear(t));
    var doe := U32(DayOfEra(yoe, doy));
    Era(y) * 146097 + doe - 719468
  }

  /** The day of the era that days_from_civil is meant to compute. */
  function EraDay(t: Date): int {
    DayOfEra(Shifted(t) % 400, DayOfYear(t))
  }

  /** The day number it is meant to compute: no conversion cuts anything. */
  function DayNumber(t: Date): int {
    Era(Shifted(t)) * 146097 + EraDay(t) - 719468
  }

  function YearOfEra(doe: int): int {
    (doe - doe / 1460 + doe / 36524 - doe / 146096) / 365
  }

  /** civil_from_days, the year and the day of the year known. */
  function FromYear(y: int, doy: nat): Date {
    var mp := (5 * doy + 2) / 153;
    var d := U32(doy - (153 * mp + 2) / 5 + 1);
    var m := if mp < 10 then mp + 3 else (mp + TWO32 - 9) % TWO32;
    Date(y + (if m <= 2 then 1 else 0), m, d)
  }

  /** civil_from_days, the era and the day of the era known. */
  function FromEra(era: int, doe: nat): Date {
    var yoe := YearOfEra(doe);
    FromYear(yoe + era * 400, U32(doe - (365 * yoe + yoe / 4 - yoe / 100)))
  }

  /** civil_from_days. */
  function CivilFromDays(days: int): Date {
    var z := days + 719468;
    var era := Div(if z >= 0 then z else z - 146096, 146097);
    FromEra(era, U32(z - era * 146097))
  }

  // ----- eras -----------------------------------------------------------------------------------------------

  /** The code's way of rounding down. */
  lemma FloorDiv(x: int, n: int)
    requires n > 1
    ensures Div(if x >= 0 then x else x - (n - 1), n) == x / n
  {
    if x < 0 {
      var q, r := x / n, x % n;
      var a := n - 1 - x;
      assert a == n * (-q) + (n - 1 - r);
      ModUnique(a, n, -q, n - 1 - r);
    }
  }

  /** The code is right exactly when the day of the era is one an unsigned int can hold. Otherwise it
      is off by a multiple of 2^32 days. */
  lemma CastsExactIff(t: Date)
    ensures DaysFromCivil(t) == DayNumber(t) <==> 0 <= EraDay(t) < TWO32
    ensures DaysFromCivil(t) == DayNumber(t) - EraDay(t) / TWO32 * TWO32
  {
    hide DayOfEra;
    var y := Shifted(t);
    FloorDiv(y, 400);
    U32Same(y % 400);
    var d := DayOfYear(t);
    DayAdds(y % 400, d, U32(d));
    AddU32(EraDay(t) - d, d);
    var e := EraDay(t);
    assert e == TWO32 * (e / TWO32) + e % TWO32;
  }

  lemma DayAdds(yoe: int, a: int, b: int)
    ensures DayOfEra(yoe, b) == DayOfEra(yoe, a) - a + b
  {
  }

  lemma U32Same(x: int)
    requires 0 <= x < TWO32
    ensures U32(x) == x
  {
  }

  lemma AddU32(x: int, y: int)
    ensures U32(x + U32(y)) == U32(x + y)
  {
    var q, r := y / TWO32, y % TWO32;
    var k, m := (x + r) / TWO32, (x + r) % TWO32;
    ModUnique(x + y, TWO32, q + k, m);
  }

  /** For the fields of a struct tm, which are 32-bit ints, only a day before the era can be lost. */
  lemma IntFieldsExactIff(t: Date)
    requires DayOfYear(t) < 0x8000_0000
    ensures DaysFromCivil(t) == DayNumber(t) <==> EraDay(t) >= 0
  {
    CastsExactIff(t);
  }

  /** The last day of February 2000 as day 0 of March: the era starts on the first of March 2000, so
      the day of the era is -1 and the result is 2^32 days too late. */
  lemma DayZeroWraps()
    ensures DayNumber(Date(2000, 3, 0)) == 11016 && DaysFromCivil(Date(2000, 3, 0)) == 11016 + TWO32
  {
    hide DaysFromCivil;
    assert EraDay(Date(2000, 3, 0)) == -1;
    CastsExactIff(Date(2000, 3, 0));
  }

  /** The year that begins in March of year yoe of the era ends in a leap February. */
  predicate LongYear(yoe: int) {
    yoe % 4 == 3 && (yoe % 100 != 99 || yoe == 399)
  }

  predicate InYear(yoe: int, doy: int) {
    0 <= yoe < 400 && 0 <= doy <= (if LongYear(yoe) then 365 else 364)
  }

  lemma DayOfEraBounds(yoe: int, doy: int)
    requires InYear(yoe, doy)
    ensures 0 <= DayOfEra(yoe, doy) < 146097
  {
  }

  /** The closed form for the year is right for every day of the era. */
  lemma YearFound(yoe: int, doy: int)
    requires InYear(yoe, doy)
    ensures YearOfEra(DayOfEra(yoe, doy)) == yoe
  {
    var c, r := yoe / 100, yoe % 100;
    var q, s := r / 4, r % 4;
    assert yoe == 100 * c + r && r == 4 * q + s && 0 <= c <= 3 && 0 <= q <= 24 && 0 <= s <= 3;
    assert yoe / 4 == 25 * c + q;
    var e := 1461 * q + 365 * s + doy;
    var doe := DayOfEra(yoe, doy);
    assert doe == 36524 * c + e;
    CenturyFound(c, q, s, doy, e, doe);
    var x := 24 * c + q + 365 * s + doy;
    FourYears(c, q, x, e, doe);
    Finish(c, q, s, doy, x);
    assert doe - doe / 1460 + doe / 36524 - doe / 146096 == 36500 * c + 1460 * q + 365 * s + doy - x / 1460;
    ModUnique(36500 * c + 1460 * q + 365 * s + doy - x / 1460, 365, 100 * c + 4 * q + s, doy - x / 1460);
  }

  lemma CenturyFound(c: int, q: int, s: int, doy: int, e: int, doe: int)
    requires 0 <= c <= 3 && 0 <= q <= 24 && 0 <= s <= 3 && 0 <= doy <= 365 && e == 1461 * q + 365 * s + doy
    requires doe == 36524 * c + e
    requires doy == 365 ==> s == 3 && (q == 24 ==> c == 3)
    ensures doe / 36524 - doe / 146096 == c
  {
    if e == 36524 {
      assert doe == 146096;
    } else {
      assert 0 <= e < 36524;
      ModUnique(doe, 36524, c, e);
      ModUnique(doe, 146096, 0, doe);
    }
  }

  lemma FourYears(c: int, q: int, x: int, e: int, doe: int)
    requires 0 <= c && 0 <= q && 0 <= x && 24 * c + e == 1460 * q + x && doe == 36524 * c + e
    ensures doe / 1460 == 25 * c + q + x / 1460
  {
    assert doe == 1460 * (25 * c + q + x / 1460) + x % 1460;
    ModUnique(doe, 1460, 25 * c + q + x / 1460, x % 1460);
  }

  lemma Finish(c: int, q: int, s: int, doy: int, x: int)
    requires 0 <= c <= 3 && 0 <= q <= 24 && 0 <= s <= 3 && 0 <= doy <= 365 && (doy == 365 ==> s == 3)
    requires x == 24 * c + q + 365 * s + doy
    ensures 0 <= doy - x / 1460 < 365
  {
  }

  /** The year and day of a day of the era, century by century. */
  lemma Locate(doe: int) returns (yoe: int, doy: int)
    requires 0 <= doe < 146097
    ensures InYear(yoe, doy) && DayOfEra(yoe, doy) == doe
  {
    var c := if doe == 146096 then 3 else doe / 36524;
    var e := doe - 36524 * c;
    var q := if e / 1461 > 24 then 24 else e / 1461;
    var f := e - 1461 * q;
    var s := if f == 1460 then 3 else f / 365;
    yoe, doy := 100 * c + 4 * q + s, f - 365 * s;
    assert 0 <= c <= 3 && 0 <= e <= 36524 && 0 <= q <= 24 && 0 <= f <= 1460 && 0 <= s <= 3 && 0 <= doy <= 365;
    Digits(c, q, s);
  }

  lemma Digits(c: int, q: int, s: int)
    requires 0 <= c <= 3 && 0 <= q <= 24 && 0 <= s <= 3
    ensures var yoe := 100 * c + 4 * q + s; yoe / 100 == c && yoe % 100 == 4 * q + s
    ensures var yoe := 100 * c + 4 * q + s; yoe / 4 == 25 * c + q && yoe % 4 == s
  {
    var yoe := 100 * c + 4 * q + s;
    ModUnique(yoe, 100, c, 4 * q + s);
    ModUnique(yoe, 4, 25 * c + q, s);
  }

  // ----- months, counted from March -------------------------------------------------------------------------

  /** The day of the year on which month mp starts. */
  function Start(mp: int): int {
    (153 * mp + 2) / 5
  }

  /** The length of month mp in a year that ends in February of length `feb`. */
  function Length(mp: int, feb: int): int {
    if mp == 11 then feb
    else if mp == 1 || mp == 3 || mp == 6 || mp == 8 then 30 else 31
  }

  lemma MonthFound(mp: int, d: int)
    requires 0 <= mp <= 11 && 1 <= d <= Length(mp, 29)
    ensures var doy := Start(mp) + d - 1; 0 <= doy <= 365 && (5 * doy + 2) / 153 == mp
  {
    assert Start(0) == 0 && Start(1) == 31 && Start(2) == 61 && Start(3) == 92 && Start(4) == 122 && Start(5) == 153
        && Start(6) == 184 && Start(7) == 214 && Start(8) == 245
        && Start(9) == 275 && Start(10) == 306 && Start(11) == 337;
    var doy := Start(mp) + d - 1;
    assert 153 * mp <= 5 * doy + 2 < 153 * (mp + 1);
  }

  lemma MonthExists(doy: int)
    requires 0 <= doy <= 365
    ensures var mp := (5 * doy + 2) / 153; 0 <= mp <= 11 && 1 <= doy - Start(mp) + 1 <= Length(mp, 29)
    ensures var mp := (5 * doy + 2) / 153; doy <= 364 ==> doy - Start(mp) + 1 <= Length(mp, 28)
    ensures doy == 365 ==> (5 * doy + 2) / 153 == 11 && Start(11) == 337
  {
    var mp := (5 * doy + 2) / 153;
    assert 0 <= mp <= 11;
    assert Start(0) == 0 && Start(1) == 31 && Start(2) == 61 && Start(3) == 92 && Start(4) == 122 && Start(5) == 153
        && Start(6) == 184 && Start(7) == 214 && Start(8) == 245
        && Start(9) == 275 && Start(10) == 306 && Start(11) == 337;
  }

  lemma MonthStep(mp: int, feb: int)
    requires 0 <= mp < 11
    ensures Start(mp + 1) == Start(mp) + Length(mp, feb)
  {
  }

  // ----- dates as era, year, month and day -----------------------------------------------------------------------

  function March(m: int): int {
    if m > 2 then m - 3 else m + 9
  }

  function Days(y: int, mp: int, d: int): int {
    y / 400 * 146097 + DayOfEra(y % 400, Start(mp) + d - 1) - 719468
  }

  lemma DaysShifted(t: Date)
    requires 1 <= t.m <= 12
    ensures DayNumber(t) == Days(Shifted(t), March(t.m), t.d)
  {
    FloorDiv(Shifted(t), 400);
  }

  lemma LeapShifted(y: int)
    ensures Leap(y + 1) <==> LongYear(y % 400)
  {
    var e, r := y / 400, y % 400;
    assert y == 400 * e + r;
    var q4, m4 := (r + 1) / 4, (r + 1) % 4;
    ModUnique(y + 1, 4, 100 * e + q4, m4);
    var q1, m1 := (r + 1) / 100, (r + 1) % 100;
    ModUnique(y + 1, 100, 4 * e + q1, m1);
    if r == 399 { ModUnique(y + 1, 400, e + 1, 0); } else { ModUnique(y + 1, 400, e, r + 1); }
    LongYearNext(r);
  }

  lemma LongYearNext(r: int)
    requires 0 <= r < 400
    ensures LongYear(r) <==> (r + 1) % 4 == 0 && ((r + 1) % 100 != 0 || r == 399)
  {
    var q, m := r / 100, r % 100;
    if m == 99 { ModUnique(r + 1, 100, q + 1, 0); } else { ModUnique(r + 1, 100, q, m + 1); }
    var q4, m4 := r / 4, r % 4;
    if m4 == 3 { ModUnique(r + 1, 4, q4 + 1, 0); } else { ModUnique(r + 1, 4, q4, m4 + 1); }
  }

  function Feb(y: int): int {
    if LongYear(y % 400) then 29 else 28
  }

  lemma LengthShifted(t: Date)
    requires 1 <= t.m <= 12
    ensures MonthLength(t.y, t.m) == Length(March(t.m), Feb(Shifted(t))) && 0 <= March(t.m) <= 11
  {
    LeapShifted(Shifted(t));
  }

  lemma InYearShifted(y: int, mp: int, d: int)
    requires 0 <= mp <= 11 && 1 <= d <= Length(mp, Feb(y))
    ensures InYear(y % 400, Start(mp) + d - 1)
  {
    MonthFound(mp, d);
    if mp < 11 { assert Start(10) == 306; assert Start(mp) + d - 1 <= 336; }
  }

  // ----- the theorems ---------------------------------------------------------------------------------------------

  function Unmarched(mp: int): int {
    if mp < 10 then mp + 3 else (mp + TWO32 - 9) % TWO32
  }

  /** civil_from_days from the parts of a day number. */
  lemma CivilParts(days: int, era: int, yoe: int, doy: int, mp: int)
    requires InYear(yoe, doy) && days + 719468 == 146097 * era + DayOfEra(yoe, doy) && mp == (5 * doy + 2) / 153
    ensures var m := Unmarched(mp);
            CivilFromDays(days) == Date(yoe + era * 400 + (if m <= 2 then 1 else 0), m, doy - Start(mp) + 1)
  {
    hide YearOfEra, LongYear, DayOfEra, FromEra, FromYear, Div, U32;
    var z, doe := days + 719468, DayOfEra(yoe, doy);
    DayOfEraBounds(yoe, doy);
    FloorDiv(z, 146097);
    ModUnique(z, 146097, era, doe);
    U32Same(doe);
    EraParts(era, yoe, doy);
    YearParts(yoe + era * 400, doy, mp);
  }

  lemma EraParts(era: int, yoe: int, doy: int)
    requires InYear(yoe, doy) && DayOfEra(yoe, doy) >= 0
    ensures doy >= 0 && FromEra(era, DayOfEra(yoe, doy)) == FromYear(yoe + era * 400, doy)
  {
    hide YearOfEra, LongYear, FromYear, U32;
    YearFound(yoe, doy);
    U32Same(doy);
  }

  lemma YearParts(y: int, doy: nat, mp: int)
    requires doy <= 365 && mp == (5 * doy + 2) / 153
    ensures FromYear(y, doy) == Date(y + (if Unmarched(mp) <= 2 then 1 else 0), Unmarched(mp), doy - Start(mp) + 1)
  {
    hide U32;
    MonthExists(doy);
    U32Same(doy - Start(mp) + 1);
  }

  /** On dates of the calendar no conversion cuts anything. */
  lemma CastsKeep(t: Date)
    requires Valid(t)
    ensures DaysFromCivil(t) == DayNumber(t) && 0 <= EraDay(t) < 146097
  {
    hide DayOfEra, LongYear, Leap, DayNumber, DaysFromCivil, Start;
    var y, mp := Shifted(t), March(t.m);
    LengthShifted(t);
    InYearShifted(y, mp, t.d);
    EraDayShifted(t);
    DayOfEraBounds(y % 400, Start(mp) + t.d - 1);
    CastsExactIff(t);
  }

  lemma EraDayShifted(t: Date)
    requires 1 <= t.m <= 12
    ensures EraDay(t) == DayOfEra(Shifted(t) % 400, Start(March(t.m)) + t.d - 1)
  {
  }

  /** A date survives the trip to a day number and back. */
  lemma CivilRoundTrip(t: Date)
    requires Valid(t)
    ensures DaysFromCivil(t) == DayNumber(t) && CivilFromDays(DaysFromCivil(t)) == t
  {
    hide DayOfEra, LongYear, Leap, DayNumber, DaysFromCivil, CivilFromDays, Start, InYear;
    var y, mp := Shifted(t), March(t.m);
    CastsKeep(t);
    DaysShifted(t);
    LengthShifted(t);
    InYearShifted(y, mp, t.d);
    FebRange(y);
    MonthFound(mp, t.d);
    CivilParts(DayNumber(t), y / 400, y % 400, Start(mp) + t.d - 1, mp);
    Unmarch(t.m);
  }

  lemma FebRange(y: int)
    ensures 28 <= Feb(y) <= 29
  {
  }

  lemma Unmarch(m: int)
    requires 1 <= m <= 12
    ensures Unmarched(March(m)) == m
  {
  }

  /** A day number survives the trip to a date and back, and the date is one of the calendar. */
  lemma DaysRoundTrip(days: int)
    ensures Valid(CivilFromDays(days)) && DaysFromCivil(CivilFromDays(days)) == days
  {
    hide DayOfEra, YearOfEra, LongYear, Leap, DayNumber, DaysFromCivil, CivilFromDays, Start, InYear, MonthLength;
    var z := days + 719468;
    var era, doe := z / 146097, z % 146097;
    var yoe, doy := Locate(doe);
    DayBounds(yoe, doy);
    MonthExists(doy);
    var mp := (5 * doy + 2) / 153;
    CivilParts(days, era, yoe, doy, mp);
    Remarch(mp);
    var t, y := CivilFromDays(days), yoe + era * 400;
    assert Shifted(t) == y && March(t.m) == mp && t.d == doy - Start(mp) + 1;
    ModUnique(y, 400, era, yoe);
    DaysShifted(t);
    LengthShifted(t);
    LengthFits(y, doy, mp);
    CastsKeep(t);
  }

  lemma DayBounds(yoe: int, doy: int)
    requires InYear(yoe, doy)
    ensures 0 <= yoe < 400 && 0 <= doy <= 365
  {
  }

  lemma LengthFits(y: int, doy: int, mp: int)
    requires InYear(y % 400, doy) && mp == (5 * doy + 2) / 153
    ensures 1 <= doy - Start(mp) + 1 <= Length(mp, Feb(y))
  {
    hide Start, LongYear;
    MonthExists(doy);
  }

  lemma Remarch(mp: int)
    requires 0 <= mp <= 11
    ensures var m := Unmarched(mp); 1 <= m <= 12 && March(m) == mp && (m <= 2 <==> mp >= 10)
  {
  }

  /** The next date has the next number. */
  lemma NextDayNext(t: Date)
    requires Valid(t)
    ensures Valid(NextDay(t)) && DaysFromCivil(NextDay(t)) == DaysFromCivil(t) + 1
  {
    hide LongYear, Leap, DayNumber, DaysFromCivil, DayOfEra, Start, MonthLength, Feb;
    var n := NextDay(t);
    var y, mp := Shifted(t), March(t.m);
    LengthShifted(t);
    FebRange(y);
    if t.d < MonthLength(t.y, t.m) {
      DaysShifted(t); DaysShifted(n);
      DayLinear(y % 400, Start(mp) + t.d - 1);
    } else {
      NextMonth(t);
      DaysShifted(t); DaysShifted(n);
      LengthShifted(n);
      FebRange(Shifted(n));
      if mp < 11 {
        MonthStep(mp, Feb(y));
        DayLinear(y % 400, Start(mp) + t.d - 1);
      } else {
        YearEnd(y);
      }
    }
    CastsKeep(t); CastsKeep(n);
  }

  lemma DayLinear(yoe: int, doy: int)
    ensures DayOfEra(yoe, doy + 1) == DayOfEra(yoe, doy) + 1
  {
  }

  /** The month after a month, counted from March. */
  lemma NextMonth(t: Date)
    requires 1 <= t.m <= 12 && t.d == MonthLength(t.y, t.m)
    ensures 1 <= NextDay(t).m <= 12 && NextDay(t).d == 1
    ensures March(t.m) < 11 ==> Shifted(NextDay(t)) == Shifted(t) && March(NextDay(t).m) == March(t.m) + 1
    ensures March(t.m) == 11 ==> Shifted(NextDay(t)) == Shifted(t) + 1 && March(NextDay(t).m) == 0
  {
    hide MonthLength;
  }

  /** The last day of February and the first of March. */
  lemma YearEnd(y: int)
    ensures Days(y + 1, 0, 1) == Days(y, 11, Feb(y)) + 1
  {
    var era, yoe := y / 400, y % 400;
    assert Start(11) == 337 && Start(0) == 0;
    if yoe == 399 {
      ModUnique(y + 1, 400, era + 1, 0);
    } else {
      ModUnique(y + 1, 400, era, yoe + 1);
      NextYear(yoe);
    }
  }

  lemma NextYear(yoe: int)
    requires 0 <= yoe < 399
    ensures DayOfEra(yoe + 1, 0) == DayOfEra(yoe, if LongYear(yoe) then 365 else 364) + 1
  {
    var q, m := yoe / 100, yoe % 100;
    if m == 99 { ModUnique(yoe + 1, 100, q + 1, 0); } else { ModUnique(yoe + 1, 100, q, m + 1); }
    var q4, m4 := yoe / 4, yoe % 4;
    if m4 == 3 { ModUnique(yoe + 1, 4, q4 + 1, 0); } else { ModUnique(yoe + 1, 4, q4, m4 + 1); }
    assert m == 99 ==> m4 == 3;
  }

  lemma Epoch()
    ensures DaysFromCivil(Date(1970, 1, 1)) == 0
  {
    hide DaysFromCivil;
    CastsKeep(Date(1970, 1, 1));
  }

  /** n days after the epoch, one day at a time. */
  function Count(n: nat): Date {
    if n == 0 then Date(1970, 1, 1) else NextDay(Count(n - 1))
  }

  /** civil_from_days counts days from the epoch. */
  lemma {:induction false} CivilIsCount(n: nat)
    ensures Valid(Count(n)) && DaysFromCivil(Count(n)) == n && CivilFromDays(n) == Count(n)
  {
    if n == 0 {
      Epoch();
    } else {
      hide DaysFromCivil, CivilFromDays;
      CivilIsCount(n - 1);
      NextDayNext(Count(n - 1));
    }
    CivilRoundTrip(Count(n));
  }

  // ----- times ---------------------------------------------------------------------------------------------------

  /** Days of the year before month m. */
  function Before(y: int, m: nat): int {
    if m <= 1 then 0 else Before(y, m - 1) + MonthLength(y, m - 1)
  }

  lemma DaysLinear(y: int, m: int, d: int)
    requires 1 <= m <= 12
    ensures DayNumber(Date(y, m, d)) == DayNumber(Date(y, m, 1)) + d - 1
  {
    hide DayNumber, Start;
    DaysShifted(Date(y, m, d)); DaysShifted(Date(y, m, 1));
  }

  /** The day numbers of a year follow the months. */
  lemma {:induction false} YearDay(y: int, m: int)
    requires 1 <= m <= 12
    ensures DaysFromCivil(Date(y, m, 1)) - DaysFromCivil(Date(y, 1, 1)) == Before(y, m)
    decreases m
  {
    hide DaysFromCivil, DayNumber, MonthLength;
    if m <= 1 {
    } else {
      YearDay(y, m - 1);
      var last := Date(y, m - 1, MonthLength(y, m - 1));
      assert 1 <= last.d by { LengthShifted(last); FebRange(Shifted(last)); }
      DaysLinear(y, m - 1, last.d);
      CastsKeep(last); CastsKeep(Date(y, m - 1, 1));
      NextDayNext(last);
    }
  }

  lemma YearDayRange(t: Date)
    requires Valid(t)
    ensures 0 <= DaysFromCivil(t) - DaysFromCivil(Date(t.y, 1, 1)) <= (if Leap(t.y) then 365 else 364)
  {
    hide DaysFromCivil, DayNumber, Leap;
    YearDay(t.y, t.m);
    CastsKeep(t); CastsKeep(Date(t.y, t.m, 1));
    DaysLinear(t.y, t.m, t.d);
    BeforeTable(t.y, t.m);
  }

  lemma BeforeTable(y: int, m: nat)
    requires 1 <= m <= 12
    ensures 0 <= Before(y, m) && Before(y, m) + MonthLength(y, m) <= 365 + (if Leap(y) then 1 else 0)
  {
    hide Leap;
    var f := MonthLength(y, 2);
    assert Before(y, 1) == 0; assert Before(y, 2) == 31; assert Before(y, 3) == 31 + f; assert Before(y, 4) == 62 + f;
    assert Before(y, 5) == 92 + f; assert Before(y, 6) == 123 + f;
    assert Before(y, 7) == 153 + f; assert Before(y, 8) == 184 + f;
    assert Before(y, 9) == 215 + f; assert Before(y, 10) == 245 + f;
    assert Before(y, 11) == 276 + f; assert Before(y, 12) == 306 + f;
  }

  /** The conversion (int). */
  function Int32(x: int): int {
    (x + 0x8000_0000) % TWO32 - 0x8000_0000
  }

  lemma Int32Same(x: int)
    requires -0x8000_0000 <= x < 0x8000_0000
    ensures Int32(x) == x
  {
    ModUnique(x + 0x8000_0000, TWO32, 0, x + 0x8000_0000);
  }

  /** The date of a time. */
  function DateOf(t: int): Date {
    CivilFromDays(t / 86400)
  }

  /** The year of a time fits the fields of struct tm. */
  predicate Fits(t: int) {
    -0x8000_0000 <= DateOf(t).y - 1900 && DateOf(t).y < 0x8000_0000
  }

  lemma FloorTime(t: int)
    ensures var days, rem := Div(t, 86400), Rem(t, 86400);
            (if rem < 0 then days - 1 else days) == t / 86400 && (if rem < 0 then rem + 86400 else rem) == t % 86400
  {
    var q, r := t / 86400, t % 86400;
    if t < 0 {
      var a := -t;
      if r == 0 { ModUnique(a, 86400, -q, 0); } else { ModUnique(a, 86400, -q - 1, 86400 - r); }
    }
  }

  lemma WeekDay(days: int)
    ensures Rem(Rem(days, 7) + 7 + 4, 7) == (days + 4) % 7
  {
    var q, r := Div(days, 7), Rem(days, 7);
    assert days == 7 * q + r && -6 <= r <= 6;
    var x := r + 11;
    ModUnique(days + 4, 7, q - 1 + x / 7, x % 7);
  }

  /** struct tm. */
  class Tm {
    var year: int
    var mon: int
    var mday: int
    var hour: int
    var min: int
    var sec: int
    var wday: int
    var yday: int

    /** time_to_tm. Everything but the year is right for every time; the year is converted to int. */
    method Fill(t: int)
      modifies this
      ensures year == Int32(DateOf(t).y - 1900) && Date(DateOf(t).y, mon + 1, mday) == DateOf(t) && Valid(DateOf(t))
      ensures hour * 3600 + min * 60 + sec == t % 86400 && 0 <= hour < 24 && 0 <= min < 60 && 0 <= sec < 60
      ensures wday == (t / 86400 + 4) % 7
      ensures yday == Before(DateOf(t).y, DateOf(t).m) + mday - 1
      ensures 0 <= yday <= (if Leap(DateOf(t).y) then 365 else 364)
    {
      hide CivilFromDays, DaysFromCivil, DayNumber, Before, Leap, MonthLength;
      FloorTime(t);
      var days, rem := Div(t, 86400), Rem(t, 86400);
      if rem < 0 { rem, days := rem + 86400, days - 1; }
      DaysRoundTrip(days);
      var date := CivilFromDays(days);
      year, mon, mday := Int32(date.y - 1900), date.m - 1, date.d;
      hour, min, sec := Div(rem, 3600), Div(Rem(rem, 3600), 60), Rem(rem, 60);
      Clock(rem);
      WeekDay(days);
      wday := Rem(Rem(days, 7) + 7 + 4, 7);
      YearDay(date.y, date.m);
      DaysLinear(date.y, date.m, date.d);
      YearDayRange(date);
      CastsKeep(date); CastsKeep(Date(date.y, date.m, 1));
      yday := days - DaysFromCivil(Date(date.y, 1, 1));
    }

    /** mktime; the fields are normalised. The time is the one the fields mean, with days before the
        first or after the last of the month counted on, exactly when the day of the era does not
        leave the range of an unsigned int. */
    method Mktime() returns (t: int)
      modifies this
      ensures t == old(DaysFromCivil(Date(year + 1900, mon + 1, mday)) * 86400 + hour * 3600 + min * 60 + sec)
      ensures t == old(DayNumber(Date(year + 1900, mon + 1, mday)) * 86400 + hour * 3600 + min * 60 + sec)
              <==> 0 <= old(EraDay(Date(year + 1900, mon + 1, mday))) < TWO32
      ensures year == Int32(DateOf(t).y - 1900) && Date(DateOf(t).y, mon + 1, mday) == DateOf(t)
      ensures hour * 3600 + min * 60 + sec == t % 86400
    {
      hide CivilFromDays, DaysFromCivil, DayNumber, EraDay, Before, Leap, MonthLength;
      var date := Date(year + 1900, mon + 1, mday);
      CastsExactIff(date);
      t := DaysFromCivil(date) * 86400 + hour * 3600 + min * 60 + sec;
      Fill(t);
    }

    /** mktime undoes gmtime. */
    method RoundTrip(t: int) returns (r: int)
      requires Fits(t)
      modifies this
      ensures r == t
    {
      hide CivilFromDays, DaysFromCivil, DayNumber, EraDay, Before, Leap, MonthLength;
      Fill(t);
      Int32Same(DateOf(t).y - 1900);
      DaysRoundTrip(t / 86400);
      assert t == t / 86400 * 86400 + t % 86400;
      r := Mktime();
    }
  }

  lemma Clock(rem: int)
    requires 0 <= rem < 86400
    ensures var h, m, s := Div(rem, 3600), Div(Rem(rem, 3600), 60), Rem(rem, 60);
            h * 3600 + m * 60 + s == rem && 0 <= h < 24 && 0 <= m < 60 && 0 <= s < 60
  {
    var h, r := rem / 3600, rem % 3600;
    var m, s := r / 60, r % 60;
    assert rem == 60 * (60 * h + m) + s;
    ModUnique(rem, 60, 60 * h + m, s);
  }
}
