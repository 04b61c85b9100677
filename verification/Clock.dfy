/** Calendar arithmetic: seconds since the Epoch, counted day by day. */
module Calendar {
  datatype DateTime = DateTime(year: int, month: int, day: int, hour: int, minute: int, second: int)

  predicate Leap(year: int) {
    (year % 4 == 0 && year % 100 != 0) || year % 400 == 0
  }

  function DaysInYear(year: int): int {
    if Leap(year) then 366 else 365
  }

  function DaysInMonth(year: int, month: int): int {
    if month == 2 then (if Leap(year) then 29 else 28)
    else if month == 4 || month == 6 || month == 9 || month == 11 then 30
    else 31
  }

  predicate Valid(t: DateTime) {
    && 1 <= t.month <= 12 && 1 <= t.day <= DaysInMonth(t.year, t.month)
    && 0 <= t.hour < 24 && 0 <= t.minute < 60 && 0 <= t.second < 60
  }

  /** Days of the whole years from 1970 up to, but not including, `year`. */
  function YearsBefore(year: int): int
    requires 1970 <= year
    decreases year
  {
    if year == 1970 then 0 else YearsBefore(year - 1) + DaysInYear(year - 1)
  }

  /** Days of the whole months of `year` before `month`. */
  function MonthsBefore(year: int, month: int): int
    decreases month
  {
    if month <= 1 then 0 else MonthsBefore(year, month - 1) + DaysInMonth(year, month - 1)
  }

  /** The months make up the year. */
  lemma MonthsFillYear(year: int)
    ensures MonthsBefore(year, 13) == DaysInYear(year)
  {
    assert MonthsBefore(year, 4) == MonthsBefore(year, 2) + DaysInMonth(year, 2) + 31;
    assert MonthsBefore(year, 7) == MonthsBefore(year, 4) + 91;
    assert MonthsBefore(year, 10) == MonthsBefore(year, 7) + 92;
    assert MonthsBefore(year, 13) == MonthsBefore(year, 10) + 92;
  }

  function Seconds(t: DateTime): int
    requires 1970 <= t.year
  {
    (YearsBefore(t.year) + MonthsBefore(t.year, t.month) + t.day - 1) * 86400 + t.hour * 3600 + t.minute * 60 + t.second
  }

  /** The formula of section 4.15 of the POSIX.1-2008 Base Definitions; `year` counts from 1900. */
  function Formula(year: int, yearDay: int, hour: int, minute: int, second: int): int {
    second + minute * 60 + hour * 3600 + yearDay * 86400
    + (year - 70) * 31536000 + (year - 69) / 4 * 86400
    - (year - 1) / 100 * 86400 + (year + 299) / 400 * 86400
  }

  lemma YearStep(year: int)
    requires 1970 <= year
    ensures (year - 1968) / 4 - (year - 1900) / 100 + (year - 1600) / 400 ==
            (year - 1969) / 4 - (year - 1901) / 100 + (year - 1601) / 400 + if Leap(year) then 1 else 0
  {
    assert (year - 1968) / 4 - (year - 1969) / 4 == if year % 4 == 0 then 1 else 0;
    assert (year - 1900) / 100 - (year - 1901) / 100 == if year % 100 == 0 then 1 else 0;
    assert (year - 1600) / 400 - (year - 1601) / 400 == if year % 400 == 0 then 1 else 0;
  }

  lemma {:induction false} YearsClosed(year: int)
    requires 1970 <= year
    ensures YearsBefore(year) == (year - 1970) * 365 + (year - 1969) / 4 - (year - 1901) / 100 + (year - 1601) / 400
    decreases year
  {
    if 1970 < year {
      YearsClosed(year - 1);
      YearStep(year - 1);
    }
  }

  /** The closed formula counts the same seconds as the calendar, for every date from 1970 on. */
  lemma FormulaCounts(t: DateTime)
    requires 1970 <= t.year
    ensures Formula(t.year - 1900, MonthsBefore(t.year, t.month) + t.day - 1, t.hour, t.minute, t.second) == Seconds(t)
  {
    YearsClosed(t.year);
  }

  /** The date one second later. */
  function Next(t: DateTime): DateTime {
    if t.second < 59 then t.(second := t.second + 1)
    else if t.minute < 59 then t.(minute := t.minute + 1, second := 0)
    else if t.hour < 23 then t.(hour := t.hour + 1, minute := 0, second := 0)
    else if t.day < DaysInMonth(t.year, t.month) then DateTime(t.year, t.month, t.day + 1, 0, 0, 0)
    else if t.month < 12 then DateTime(t.year, t.month + 1, 1, 0, 0, 0)
    else DateTime(t.year + 1, 1, 1, 0, 0, 0)
  }

  lemma MidnightAdvances(t: DateTime, years: int, months: int)
    requires Valid(t) && 1970 <= t.year && t.second == 59 && t.minute == 59 && t.hour == 23
    requires years == YearsBefore(t.year) && months == MonthsBefore(t.year, t.month)
    ensures Valid(Next(t)) && Seconds(Next(t)) == (years + months + t.day) * 86400
  {
    if t.day < DaysInMonth(t.year, t.month) {
      SecondsAre(Next(t), years, months);
    } else if t.month < 12 {
      SecondsAre(Next(t), years, months + t.day);
    } else {
      MonthsFillYear(t.year);
      SecondsAre(Next(t), years + DaysInYear(t.year), 0);
    }
  }

  /** The count advances by one with every second, through the ends of months and years. */
  lemma SecondsAdvance(t: DateTime)
    requires Valid(t) && 1970 <= t.year
    ensures Valid(Next(t)) && Seconds(Next(t)) == Seconds(t) + 1
  {
    var years, months := YearsBefore(t.year), MonthsBefore(t.year, t.month);
    SecondsAre(t, years, months);
    if t.second == 59 && t.minute == 59 && t.hour == 23 {
      MidnightAdvances(t, years, months);
    } else {
      SecondsAre(Next(t), years, months);
    }
  }

  /** Dates whose timestamps are well known: the second 10^9, the digits 1 to 9, 1.7 * 10^9 and the last 32-bit second. */
  lemma Billion(t: DateTime)
    requires t == DateTime(2001, 9, 9, 1, 46, 40)
    ensures Seconds(t) == 1_000_000_000
  {
    YearsClosed(t.year);
    MonthSums(t.year, t.month);
    SecondsAre(t, 11323, 243);
  }

  lemma Digits(t: DateTime)
    requires t == DateTime(2009, 2, 13, 23, 31, 30)
    ensures Seconds(t) == 1_234_567_890
  {
    YearsClosed(t.year);
    MonthSums(t.year, t.month);
    SecondsAre(t, 14245, 31);
  }

  lemma SeventeenHundredMillion(t: DateTime)
    requires t == DateTime(2023, 11, 14, 22, 13, 20)
    ensures Seconds(t) == 1_700_000_000
  {
    YearsClosed(t.year);
    MonthSums(t.year, t.month);
    SecondsAre(t, 19358, 304);
  }

  lemma LastSecond(t: DateTime)
    requires t == DateTime(2038, 1, 19, 3, 14, 7)
    ensures Seconds(t) == 0x7FFF_FFFF
  {
    YearsClosed(t.year);
    SecondsAre(t, 24837, 0);
  }

  lemma SecondsAre(t: DateTime, years: int, months: int)
    requires 1970 <= t.year && years == YearsBefore(t.year) && months == MonthsBefore(t.year, t.month)
    ensures Seconds(t) == (years + months + t.day - 1) * 86400 + t.hour * 3600 + t.minute * 60 + t.second
  {
  }

  /** The days of the year before each month. */
  lemma MonthSums(year: int, month: int)
    requires 1 <= month <= 12
    ensures MonthsBefore(year, month) == [0, 31, 59, 90, 120, 151, 181, 212, 243, 273, 304, 334][month - 1]
                                         + if Leap(year) && 2 < month then 1 else 0
  {
    assert MonthsBefore(year, 3) == 59 + if Leap(year) then 1 else 0;
    assert MonthsBefore(year, 5) == MonthsBefore(year, 3) + 61;
    assert MonthsBefore(year, 7) == MonthsBefore(year, 5) + 61;
    assert MonthsBefore(year, 9) == MonthsBefore(year, 7) + 62;
    assert MonthsBefore(year, 11) == MonthsBefore(year, 9) + 61;
  }

  /** The intermediate values of the formula up to the day of the year, in evaluation order. */
  function DayPartials(yearDay: int, hour: int, minute: int, second: int): seq<int> {
    var a := second + minute * 60;
    var b := a + hour * 3600;
    [minute * 60, a, hour * 3600, b, yearDay * 86400, b + yearDay * 86400]
  }

  /** Those of the year, added to the sum `c` so far. */
  function YearPartials(year: int, c: int): seq<int> {
    var d := c + (year - 70) * 31536000;
    var e := d + (year - 69) / 4 * 86400;
    var f := e - (year - 1) / 100 * 86400;
    [(year - 70) * 31536000, d, (year - 69) / 4 * 86400, e,
     (year - 1) / 100 * 86400, f, (year + 299) / 400 * 86400, f + (year + 299) / 400 * 86400]
  }

  /** Every intermediate value of the formula, in evaluation order. */
  function Partials(year: int, yearDay: int, hour: int, minute: int, second: int): seq<int> {
    var ps := DayPartials(yearDay, hour, minute, second);
    ps + YearPartials(year, ps[5])
  }

  predicate InInt(x: int) {
    -0x8000_0000 <= x < 0x8000_0000
  }

  ghost predicate FitsInt(ps: seq<int>) {
    forall i :: 0 <= i < |ps| ==> InInt(ps[i])
  }

  lemma FitsBoth(ps: seq<int>, qs: seq<int>)
    ensures FitsInt(ps + qs) <==> FitsInt(ps) && FitsInt(qs)
  {
    if FitsInt(ps + qs) {
      assert forall i :: 0 <= i < |ps| ==> ps[i] == (ps + qs)[i];
      assert forall i :: 0 <= i < |qs| ==> qs[i] == (ps + qs)[|ps| + i];
    }
  }

  /** The value two's complement arithmetic keeps in 32 bits. */
  function Int32(x: int): (r: int)
    ensures InInt(r) && (r == x <==> InInt(x))
  {
    (x + 0x8000_0000) % 0x1_0000_0000 - 0x8000_0000
  }

  lemma {:induction false} MonthsBound(year: int, month: int)
    requires 1 <= month <= 12
    ensures 0 <= MonthsBefore(year, month) <= 31 * (month - 1)
    decreases month
  {
    if 1 < month {
      MonthsBound(year, month - 1);
    }
  }

  /** From 2000 on, no intermediate leaves the 32-bit range exactly when the timestamp itself does not. */
  lemma NoOverflowIff(t: DateTime)
    requires Valid(t) && 2000 <= t.year
    ensures FitsInt(Partials(t.year - 1900, MonthsBefore(t.year, t.month) + t.day - 1, t.hour, t.minute, t.second))
            <==> Seconds(t) < 0x8000_0000
  {
    var year, yearDay := t.year - 1900, MonthsBefore(t.year, t.month) + t.day - 1;
    FormulaCounts(t);
    MonthsBound(t.year, t.month);
    if Seconds(t) < 0x8000_0000 {
      PartialsFit(year, yearDay, t.hour, t.minute, t.second);
    } else {
      assert Partials(year, yearDay, t.hour, t.minute, t.second)[13] == Seconds(t);
    }
  }

  lemma CenturiesCancel(year: int)
    requires 100 <= year
    ensures year <= 200 ==> (year - 1) / 100 == (year + 299) / 400 <= 1
    ensures (year - 1) / 100 <= (year - 69) / 4
  {
  }

  lemma PartialsFit(year: int, yearDay: int, hour: int, minute: int, second: int)
    requires 100 <= year && 0 <= yearDay <= 371 && 0 <= hour < 24 && 0 <= minute < 60 && 0 <= second < 60
    requires Formula(year, yearDay, hour, minute, second) < 0x8000_0000
    ensures FitsInt(Partials(year, yearDay, hour, minute, second))
  {
    CenturiesCancel(year);
    assert year <= 138;
  }
}

/** The real-time clock registers and platformTimestamp (src/platform/x86_64/cmos.c). */
module Clock {
  import opened Calendar

  const PLATFORM_TIMER_FREQUENCY := 100

  /** Register contents; `binary` and `hours24` are the two format bits of status register B. */
  datatype Registers = Registers(
    binary: bool, hours24: bool, year: Byte, month: Byte, day: Byte, hours: Byte, minutes: Byte, seconds: Byte)

  type Byte = x: nat | x < 256

  function Decoded(binary: bool, x: Byte): Byte {
    if binary then x else x / 16 % 16 * 10 + x % 16
  }

  function HourOf(r: Registers): nat {
    var hour := Decoded(r.binary, r.hours % 128);
    var pm := r.hours / 128 % 2 == 1;
    if r.hours24 then hour
    else if hour == 12 then (if pm then 12 else 0)
    else if pm then hour + 12 else hour
  }

  function DateOf(r: Registers): DateTime {
    DateTime(Decoded(r.binary, r.year) + 2000, Decoded(r.binary, r.month), Decoded(r.binary, r.day), HourOf(r),
             Decoded(r.binary, r.minutes), Decoded(r.binary, r.seconds))
  }

  /** How the clock chip shows a number below 100. */
  function Encoded(binary: bool, x: nat): Byte
    requires x < 100
  {
    if binary then x else x / 10 * 16 + x % 10
  }

  function HoursShown(binary: bool, hours24: bool, hour: nat): Byte
    requires hour < 24
  {
    if hours24 then Encoded(binary, hour)
    else Encoded(binary, if hour % 12 == 0 then 12 else hour % 12) + if 12 <= hour then 128 else 0
  }

  function Shown(t: DateTime, binary: bool, hours24: bool): Registers
    requires Valid(t) && 2000 <= t.year < 2100
  {
    Registers(binary, hours24, Encoded(binary, t.year - 2000), Encoded(binary, t.month), Encoded(binary, t.day),
              HoursShown(binary, hours24, t.hour), Encoded(binary, t.minute), Encoded(binary, t.second))
  }

  lemma Decodes(binary: bool, x: nat)
    requires x < 100
    ensures Decoded(binary, Encoded(binary, x)) == x && (x < 60 ==> Encoded(binary, x) < 128)
  {
    var q, d := x / 10, x % 10;
    assert x == q * 10 + d;
    assert (q * 16 + d) / 16 == q && (q * 16 + d) % 16 == d;
  }

  /** Every date of the century is read back from its registers, in all four formats. */
  lemma DateShownIsRead(t: DateTime, binary: bool, hours24: bool)
    requires Valid(t) && 2000 <= t.year < 2100
    ensures DateOf(Shown(t, binary, hours24)) == t
  {
    Decodes(binary, t.year - 2000);
    Decodes(binary, t.month);
    Decodes(binary, t.day);
    Decodes(binary, t.minute);
    Decodes(binary, t.second);
    HourShownIsRead(t.hour, Shown(t, binary, hours24));
  }

  lemma HourShownIsRead(hour: nat, r: Registers)
    requires hour < 24 && r.hours == HoursShown(r.binary, r.hours24, hour)
    ensures HourOf(r) == hour
  {
    Decodes(r.binary, hour);
    var twelve := if hour % 12 == 0 then 12 else hour % 12;
    Decodes(r.binary, twelve);
    Flagged(Encoded(r.binary, hour), false);
    Flagged(Encoded(r.binary, twelve), 12 <= hour);
    TwelveHours(hour);
  }

  lemma Flagged(x: nat, pm: bool)
    requires x < 128
    ensures var y := x + if pm then 128 else 0; y % 128 == x && (y / 128 % 2 == 1 <==> pm)
  {
  }

  lemma TwelveHours(hour: nat)
    requires hour < 24
    ensures hour == if 12 <= hour then 12 + hour % 12 else hour % 12
  {
  }

  /** The register values as numbers: binary-coded decimal and twelve-hour forms are undone in place. */
  method Read(r: Registers) returns (t: DateTime)
    ensures t == DateOf(r)
  {
    var year: nat, month: nat, day: nat := r.year, r.month, r.day;
    var hour: nat, pm := r.hours % 128, r.hours / 128 % 2 == 1;
    var min: nat, sec: nat := r.minutes, r.seconds;
    if !r.binary {
      year := year / 16 % 16 * 10 + year % 16;
      month := month / 16 % 16 * 10 + month % 16;
      day := day / 16 % 16 * 10 + day % 16;
      hour := hour / 16 % 16 * 10 + hour % 16;
      min := min / 16 % 16 * 10 + min % 16;
      sec := sec / 16 % 16 * 10 + sec % 16;
    }
    if !r.hours24 {
      if hour == 12 {
        if !pm {
          hour := 0;
        }
      } else if pm {
        hour := hour + 12;
      }
    }
    return DateTime(year + 2000, month, day, hour, min, sec);
  }

  /** The month loop. */
  method YearDay(year: int, month: int, day: int) returns (yearDay: int)
    requires month <= 12
    ensures yearDay == MonthsBefore(year, month) + day - 1
  {
    var daysPerMonth := [31, 28, 31, 30, 31, 30, 31, 31, 30, 31, 30, 31];
    var leap := (year % 4 == 0 && year % 100 != 0) || year % 400 == 0;
    yearDay := 0;
    var i := 1;
    while i < month
      invariant 1 <= i && (i <= month || i == 1)
      invariant yearDay == MonthsBefore(year, i)
    {
      if i == 2 && leap {
        yearDay := yearDay + 29;
      } else {
        yearDay := yearDay + daysPerMonth[i - 1];
      }
      i := i + 1;
    }
    yearDay := yearDay + day - 1;
  }

  /** A 32-bit product of small factors. */
  method Times(x: int, k: int, before: bool) returns (r: int, overflow: bool)
    ensures r == Int32(x * k) && (overflow <==> before || !InInt(x * k))
  {
    r := Int32(x * k);
    overflow := before || r != x * k;
  }

  /** A 32-bit sum. The operands stand for `x` and `y`, and are these numbers unless something overflowed. */
  method Plus(v: int, w: int, before: bool, ghost x: int, ghost y: int) returns (r: int, overflow: bool)
    requires v == Int32(x) && w == Int32(y) && (!before ==> v == x && w == y)
    ensures r == Int32(x + y)
    ensures !overflow <==> !before && InInt(x + y)
    ensures !overflow ==> r == x + y
  {
    SumWraps(x, y);
    r := Int32(v + w);
    overflow := before || r != v + w;
  }

  method Minus(v: int, w: int, before: bool, ghost x: int, ghost y: int) returns (r: int, overflow: bool)
    requires v == Int32(x) && w == Int32(y) && (!before ==> v == x && w == y)
    ensures r == Int32(x - y)
    ensures !overflow <==> !before && InInt(x - y)
    ensures !overflow ==> r == x - y
  {
    DifferenceWraps(x, y);
    r := Int32(v - w);
    overflow := before || r != v - w;
  }

  lemma DifferenceWraps(x: int, y: int)
    ensures Int32(Int32(x) - Int32(y)) == Int32(x - y)
  {
    var i, j := (x + 0x8000_0000) / 0x1_0000_0000, (y + 0x8000_0000) / 0x1_0000_0000;
    assert Int32(x) - Int32(y) == x - y - (i - j) * 0x1_0000_0000;
    WholeTurns(x - y, i - j);
  }

  lemma SumWraps(x: int, y: int)
    ensures Int32(Int32(x) + Int32(y)) == Int32(x + y)
  {
    var i, j := (x + 0x8000_0000) / 0x1_0000_0000, (y + 0x8000_0000) / 0x1_0000_0000;
    assert Int32(x) + Int32(y) == x + y - (i + j) * 0x1_0000_0000;
    WholeTurns(x + y, i + j);
  }

  lemma WholeTurns(x: int, k: int)
    ensures Int32(x - k * 0x1_0000_0000) == Int32(x)
  {
    var y, n := x + 0x8000_0000, 0x1_0000_0000;
    assert y == y / n * n + y % n;
    assert y - k * n == (y / n - k) * n + y % n;
  }

  /** The part of the expression within the year, operation by operation. */
  method EvaluateDay(yearDay: int, hour: int, minute: int, second: int) returns (v: int, overflow: bool)
    requires InInt(second)
    ensures v == Int32(DayPartials(yearDay, hour, minute, second)[5])
    ensures overflow <==> !FitsInt(DayPartials(yearDay, hour, minute, second))
    ensures !overflow ==> v == DayPartials(yearDay, hour, minute, second)[5]
  {
    ghost var ps := DayPartials(yearDay, hour, minute, second);
    var term;
    term, overflow := Times(minute, 60, false);
    v, overflow := Plus(second, term, overflow, second, ps[0]);
    term, overflow := Times(hour, 3600, overflow);
    v, overflow := Plus(v, term, overflow, ps[1], ps[2]);
    term, overflow := Times(yearDay, 86400, overflow);
    v, overflow := Plus(v, term, overflow, ps[3], ps[4]);
    assert overflow || (InInt(ps[0]) && InInt(ps[1]) && InInt(ps[2]) && InInt(ps[3]) && InInt(ps[4]) && InInt(ps[5]));
  }

  /** The part that counts the years. */
  method EvaluateYear(year: int, day: int, before: bool, ghost c: int) returns (v: int, overflow: bool)
    requires day == Int32(c) && (!before ==> day == c)
    ensures v == Int32(YearPartials(year, c)[7])
    ensures overflow <==> before || !FitsInt(YearPartials(year, c))
  {
    ghost var ps := YearPartials(year, c);
    var term;
    term, overflow := Times(year - 70, 31536000, before);
    v, overflow := Plus(day, term, overflow, c, ps[0]);
    term, overflow := Times((year - 69) / 4, 86400, overflow);
    v, overflow := Plus(v, term, overflow, ps[1], ps[2]);
    term, overflow := Times((year - 1) / 100, 86400, overflow);
    v, overflow := Minus(v, term, overflow, ps[3], ps[4]);
    term, overflow := Times((year + 299) / 400, 86400, overflow);
    v, overflow := Plus(v, term, overflow, ps[5], ps[6]);
    assert overflow || (InInt(ps[0]) && InInt(ps[1]) && InInt(ps[2]) && InInt(ps[3]) && InInt(ps[4]) && InInt(ps[5])
                        && InInt(ps[6]) && InInt(ps[7]));
  }

  /** The timestamp expression in 32-bit arithmetic. */
  method Evaluate(year: int, yearDay: int, hour: int, minute: int, second: int) returns (v: int, overflow: bool)
    requires InInt(second)
    ensures v == Int32(Formula(year, yearDay, hour, minute, second))
    ensures overflow <==> !FitsInt(Partials(year, yearDay, hour, minute, second))
  {
    ghost var ps := DayPartials(yearDay, hour, minute, second);
    v, overflow := EvaluateDay(yearDay, hour, minute, second);
    v, overflow := EvaluateYear(year, v, overflow, ps[5]);
    FitsBoth(ps, YearPartials(year, ps[5]));
  }

  lemma SecondsPositive(t: DateTime)
    requires Valid(t) && 2000 <= t.year
    ensures 0 <= Seconds(t)
  {
    YearsClosed(t.year);
    MonthsBound(t.year, t.month);
  }

  /** The timestamp of a date read from the registers. */
  method Count(date: DateTime) returns (t: int, overflow: bool)
    requires 2000 <= date.year && date.month <= 12 && InInt(date.second)
    ensures t == Int32(Seconds(date))
    ensures Valid(date) ==> (overflow <==> 0x8000_0000 <= Seconds(date)) && (t == Seconds(date) <==> !overflow)
  {
    var yearDay := YearDay(date.year, date.month, date.day);
    t, overflow := Evaluate(date.year - 1900, yearDay, date.hour, date.minute, date.second);
    Counted(date, t, overflow);
  }

  lemma Counted(date: DateTime, t: int, overflow: bool)
    requires 2000 <= date.year
    requires var yearDay := MonthsBefore(date.year, date.month) + date.day - 1;
             && t == Int32(Formula(date.year - 1900, yearDay, date.hour, date.minute, date.second))
             && (overflow <==> !FitsInt(Partials(date.year - 1900, yearDay, date.hour, date.minute, date.second)))
    ensures t == Int32(Seconds(date))
    ensures Valid(date) ==> (overflow <==> 0x8000_0000 <= Seconds(date)) && (t == Seconds(date) <==> !overflow)
  {
    FormulaCounts(date);
    if Valid(date) {
      NoOverflowIff(date);
      SecondsPositive(date);
    }
  }

  class WallClock {
    var initialTimestamp: int
    var initialUptime: nat

    constructor ()
      ensures initialTimestamp == 0 && initialUptime == 0
    {
      initialTimestamp, initialUptime := 0, 0;
    }

    /**
     platformTimestamp: `uptime` is the tick counter; the registers are read on the first call only.
     `overflow` says that a 32-bit intermediate of the formula did not fit; the value is then what
     two's complement arithmetic leaves.
     */
    method Timestamp(r: Registers, uptime: nat) returns (t: int, overflow: bool)
      requires Decoded(r.binary, r.month) <= 12 && initialUptime <= uptime
      modifies this
      ensures old(initialTimestamp) == 0 ==> t == initialTimestamp == Int32(Seconds(DateOf(r))) && initialUptime == uptime
      ensures old(initialTimestamp) == 0 && Valid(DateOf(r)) ==>
                (overflow <==> 0x8000_0000 <= Seconds(DateOf(r))) && (t == Seconds(DateOf(r)) <==> !overflow)
      ensures old(initialTimestamp) != 0 ==> unchanged(this) && !overflow
      ensures old(initialTimestamp) != 0 ==>
                t == initialTimestamp + (uptime - initialUptime) / 100
    {
      if initialTimestamp != 0 {
        return initialTimestamp + (uptime - initialUptime) / PLATFORM_TIMER_FREQUENCY, false;
      }
      var date := Read(r);
      t, overflow := Count(date);
      initialTimestamp := t;
      initialUptime := uptime;
    }
  }
}
