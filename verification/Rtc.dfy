/**
  The real-time clock (src/timer/rtc.rs): calendar registers in binary-coded decimal, a closed form
  for the days since 1970-01-01, and setting the clock.
 */
module Rtc {
  import opened Options
  import opened Arith

  type Byte = n: nat | n < 256

  // ---------- binary-coded decimal ----------

  function BcdToBin(bcd: Byte): Byte { bcd % 16 + bcd / 16 * 10 }

  /** The shift drops what does not fit in a byte. */
  function BinToBcd(bin: Byte): Byte { bin / 10 * 16 % 256 + bin % 10 }

  lemma DecodeDigits(tens: nat, ones: nat)
    requires tens < 16 && ones < 16
    ensures BcdToBin(tens * 16 + ones) == tens * 10 + ones
  {
    DivMod(tens, ones, 16);
  }

  lemma EncodeDigits(tens: nat, ones: nat)
    requires tens * 10 + ones < 256 && ones < 10
    ensures BinToBcd(tens * 10 + ones) == tens % 16 * 16 + ones
  {
    DivMod(tens, ones, 10);
    var q, r := Split(tens, 16);
    DivMod(q, r * 16, 256);
  }

  /** Encoding is undone by decoding exactly for the values below 160. */
  lemma BcdRoundTrip(b: Byte)
    ensures BcdToBin(BinToBcd(b)) == b <==> b < 160
    ensures BcdToBin(BinToBcd(b)) < 160
    ensures b < 80 ==> BinToBcd(b) < 128
  {
    var tens, ones := Split(b, 10);
    EncodeDigits(tens, ones);
    DecodeDigits(tens % 16, ones);
  }

  // ---------- the calendar, day by day ----------

  predicate IsLeapYear(year: nat) { (year % 4 == 0 && year % 100 != 0) || year % 400 == 0 }

  /** The calendar itself; the table that the code adds up is `MONTH_DAYS`. */
  function DaysIn(year: nat, month: nat): nat
    requires 1 <= month <= 12
  {
    match month
    case 4 => 30
    case 6 => 30
    case 9 => 30
    case 11 => 30
    case 2 => if IsLeapYear(year) then 29 else 28
    case _ => 31
  }

  predicate ValidDate(year: nat, month: nat, day: nat) {
    1970 <= year && 1 <= month <= 12 && 1 <= day <= DaysIn(year, month)
  }

  /** Days since 1970-01-01, counted one by one. */
  function DayNumber(year: nat, month: nat, day: nat): nat
    requires ValidDate(year, month, day)
    decreases year, month, day
  {
    if day > 1 then DayNumber(year, month, day - 1) + 1
    else if month > 1 then DayNumber(year, month - 1, DaysIn(year, month - 1)) + 1
    else if year > 1970 then DayNumber(year - 1, 12, 31) + 1
    else 0
  }

  // ---------- the calendar, second by second ----------

  /** A date and time of day. */
  datatype Shown = Shown(year: nat, month: nat, day: nat, hour: nat, min: nat, sec: nat)

  predicate ValidTime(hour: nat, min: nat, sec: nat) { hour < 24 && min < 60 && sec < 60 }

  predicate ValidShown(t: Shown) {
    ValidDate(t.year, t.month, t.day) && ValidTime(t.hour, t.min, t.sec)
  }

  /** Seconds since 1970-01-01 00:00:00, counted one by one, back over minutes, hours, days, months and years. */
  function SecondNumber(t: Shown): nat
    requires ValidShown(t)
    decreases t.year, t.month, t.day, t.hour, t.min, t.sec
  {
    if t.sec > 0 then SecondNumber(t.(sec := t.sec - 1)) + 1
    else if t.min > 0 then SecondNumber(t.(min := t.min - 1, sec := 59)) + 1
    else if t.hour > 0 then SecondNumber(t.(hour := t.hour - 1, min := 59, sec := 59)) + 1
    else if t.day > 1 then SecondNumber(Shown(t.year, t.month, t.day - 1, 23, 59, 59)) + 1
    else if t.month > 1 then SecondNumber(Shown(t.year, t.month - 1, DaysIn(t.year, t.month - 1), 23, 59, 59)) + 1
    else if t.year > 1970 then SecondNumber(Shown(t.year - 1, 12, 31, 23, 59, 59)) + 1
    else 0
  }

  /** The count at midnight. */
  function StartOfDay(year: nat, month: nat, day: nat): nat
    requires ValidDate(year, month, day)
  {
    SecondNumber(Shown(year, month, day, 0, 0, 0))
  }

  /** Within a day. */
  lemma {:induction false} SecondsInDay(t: Shown)
    requires ValidShown(t)
    ensures SecondNumber(t) == StartOfDay(t.year, t.month, t.day) + t.hour * 3600 + t.min * 60 + t.sec
    decreases t.hour, t.min, t.sec
  {
    if t.sec > 0 {
      SecondsInDay(t.(sec := t.sec - 1));
    } else if t.min > 0 {
      SecondsInDay(t.(min := t.min - 1, sec := 59));
    } else if t.hour > 0 {
      SecondsInDay(t.(hour := t.hour - 1, min := 59, sec := 59));
    }
  }

  predicate FirstDay(year: nat, month: nat, day: nat) { year == 1970 && month == 1 && day == 1 }

  /** The day before. */
  function DayBefore(year: nat, month: nat, day: nat): (nat, nat, nat)
    requires ValidDate(year, month, day) && !FirstDay(year, month, day)
  {
    if day > 1 then (year, month, day - 1)
    else if month > 1 then (year, month - 1, DaysIn(year, month - 1))
    else (year - 1, 12, 31)
  }

  lemma DayBeforeCounts(year: nat, month: nat, day: nat, y: nat, m: nat, d: nat)
    requires ValidDate(year, month, day) && !FirstDay(year, month, day) && (y, m, d) == DayBefore(year, month, day)
    ensures ValidDate(y, m, d) && DayNumber(year, month, day) == DayNumber(y, m, d) + 1
  {
  }

  lemma DayBeforeEnds(year: nat, month: nat, day: nat, y: nat, m: nat, d: nat)
    requires ValidDate(year, month, day) && !FirstDay(year, month, day) && (y, m, d) == DayBefore(year, month, day)
    ensures ValidDate(y, m, d) && StartOfDay(year, month, day) == SecondNumber(Shown(y, m, d, 23, 59, 59)) + 1
  {
  }

  /** The day before, and what both counts say of it. */
  lemma OneDayBack(year: nat, month: nat, day: nat) returns (y: nat, m: nat, d: nat)
    requires ValidDate(year, month, day) && !FirstDay(year, month, day)
    ensures ValidDate(y, m, d) && DayNumber(year, month, day) == DayNumber(y, m, d) + 1
    ensures StartOfDay(year, month, day) == StartOfDay(y, m, d) + 86400
  {
    var before := DayBefore(year, month, day);
    y, m, d := before.0, before.1, before.2;
    DayBeforeCounts(year, month, day, y, m, d);
    NextDay(year, month, day, y, m, d);
  }

  lemma FirstMidnight()
    ensures StartOfDay(1970, 1, 1) == 0 && DayNumber(1970, 1, 1) == 0
  {
  }

  /** From day to day. */
  lemma {:induction false} Midnight(year: nat, month: nat, day: nat, days: nat)
    requires ValidDate(year, month, day) && days == DayNumber(year, month, day)
    ensures StartOfDay(year, month, day) == days * 86400
    decreases days
  {
    if FirstDay(year, month, day) {
      FirstMidnight();
    } else {
      var y, m, d := OneDayBack(year, month, day);
      Midnight(y, m, d, days - 1);
    }
  }

  lemma NextDay(year: nat, month: nat, day: nat, y: nat, m: nat, d: nat)
    requires ValidDate(year, month, day) && !FirstDay(year, month, day) && (y, m, d) == DayBefore(year, month, day)
    ensures ValidDate(y, m, d) && StartOfDay(year, month, day) == StartOfDay(y, m, d) + 86400
  {
    DayBeforeEnds(year, month, day, y, m, d);
    NextMidnight(y, m, d);
  }

  lemma NextMidnight(year: nat, month: nat, day: nat)
    requires ValidDate(year, month, day)
    ensures SecondNumber(Shown(year, month, day, 23, 59, 59)) + 1 == StartOfDay(year, month, day) + 86400
  {
    SecondsInDay(Shown(year, month, day, 23, 59, 59));
  }

  /** The count in days, hours, minutes and seconds. */
  lemma SecondsOfDays(t: Shown)
    requires ValidShown(t)
    ensures SecondNumber(t) == DayNumber(t.year, t.month, t.day) * 86400 + t.hour * 3600 + t.min * 60 + t.sec
  {
    SecondsInDay(t);
    Midnight(t.year, t.month, t.day, DayNumber(t.year, t.month, t.day));
  }

  // ---------- the closed form ----------

  const MONTH_DAYS: seq<nat> := [0, 31, 28, 31, 30, 31, 30, 31, 31, 30, 31, 30, 31]

  /** Days of the years before `year`; the subtraction comes after the first two terms are added. */
  function YearDays(year: nat): nat
    requires year >= 1970
  {
    (year - 1970) * 365 + (year - 1969) / 4 - (year - 1901) / 100 + (year - 1601) / 400
  }

  /** No step of the sum goes below zero. */
  lemma NoUnderflow(year: nat)
    requires year >= 1970
    ensures (year - 1970) * 365 + (year - 1969) / 4 >= (year - 1901) / 100
  {
    DivMod((year - 1901) / 100, (year - 1901) % 100, 100);
  }

  function DaysBefore(month: nat): nat
    requires 1 <= month <= 13
  {
    if month == 1 then 0 else DaysBefore(month - 1) + MONTH_DAYS[month - 1]
  }

  function ClosedDays(year: nat, month: nat, day: nat): nat
    requires 1970 <= year && 1 <= month <= 13 && day >= 1
  {
    YearDays(year) + DaysBefore(month) + (if month > 2 && IsLeapYear(year) then 1 else 0) + (day - 1)
  }

  /** Multiples of `n` up to `year`, counted from a base one past a multiple of `n`. */
  lemma FloorStep(year: nat, base: nat, n: nat)
    requires n > 1 && base % n == 1 && year >= base
    ensures (year + 1 - base) / n == (year - base) / n + if year % n == 0 then 1 else 0
  {
    var q, r := Split(year - base, n);
    var b, one := Split(base, n);
    assert year == (q + b) * n + (r + 1);
    if r + 1 == n {
      assert year == (q + b + 1) * n + 0 && year + 1 - base == (q + 1) * n + 0;
      DivMod(q + b + 1, 0, n);
      DivMod(q + 1, 0, n);
    } else {
      assert year + 1 - base == q * n + (r + 1);
      DivMod(q + b, r + 1, n);
      DivMod(q, r + 1, n);
    }
  }

  lemma Of400(year: nat)
    requires year % 400 == 0
    ensures year % 100 == 0
  {
    var q, r := Split(year, 400);
    DivMod(4 * q, 0, 100);
  }

  lemma Of100(year: nat)
    requires year % 100 == 0
    ensures year % 4 == 0
  {
    var q, r := Split(year, 100);
    DivMod(25 * q, 0, 4);
  }

  /** The three corrections of the closed form grow by one exactly past a leap year. */
  lemma LeapStep(year: nat, f: nat, h: nat, q: nat, f': nat, h': nat, q': nat)
    requires f' == f + if year % 4 == 0 then 1 else 0
    requires h' == h + if year % 100 == 0 then 1 else 0
    requires q' == q + if year % 400 == 0 then 1 else 0
    ensures f' - h' + q' == f - h + q + if IsLeapYear(year) then 1 else 0
  {
    if year % 400 == 0 { Of400(year); }
    if year % 100 == 0 { Of100(year); }
  }

  /** A year adds 365 days, and one more when it is a leap year. */
  lemma YearStep(year: nat)
    requires year >= 1970
    ensures YearDays(year + 1) == YearDays(year) + if IsLeapYear(year) then 366 else 365
  {
    FloorStep(year, 1969, 4);
    FloorStep(year, 1901, 100);
    FloorStep(year, 1601, 400);
    LeapStep(year,
      (year - 1969) / 4, (year - 1901) / 100, (year - 1601) / 400,
      (year + 1 - 1969) / 4, (year + 1 - 1901) / 100, (year + 1 - 1601) / 400);
  }

  /** The first day of a month comes one after the last of the month before. */
  lemma MonthStep(year: nat, month: nat)
    requires year >= 1970 && 1 <= month < 12
    ensures ClosedDays(year, month + 1, 1) == ClosedDays(year, month, DaysIn(year, month)) + 1
  {
    assert DaysBefore(month + 1) == DaysBefore(month) + MONTH_DAYS[month];
  }

  lemma {:induction false} ClosedFormCountsDays(year: nat, month: nat, day: nat)
    requires ValidDate(year, month, day)
    ensures ClosedDays(year, month, day) == DayNumber(year, month, day)
    decreases year, month, day
  {
    if day > 1 {
      ClosedFormCountsDays(year, month, day - 1);
    } else if month > 1 {
      ClosedFormCountsDays(year, month - 1, DaysIn(year, month - 1));
      MonthStep(year, month - 1);
    } else if year > 1970 {
      ClosedFormCountsDays(year - 1, 12, 31);
      YearStep(year - 1);
      WholeYear();
    }
  }

  lemma WholeYear()
    ensures DaysBefore(12) + 31 == 365
  {
    assert DaysBefore(4) == 90;
    assert DaysBefore(7) == 181;
    assert DaysBefore(10) == 273;
  }

  // ---------- the registers ----------

  datatype Registers = Registers(
    sec: Byte, min: Byte, hour: Byte, day: Byte, month: Byte, year: Byte, century: Byte, statusB: Byte)

  /** The top bit marks the afternoon. */
  function HourOf(raw: Byte): nat {
    BcdToBin(raw % 128) + if raw >= 128 then 12 else 0
  }

  function YearOf(r: Registers): nat {
    BcdToBin(r.century) * 100 + BcdToBin(r.year)
  }

  function TimeOfDay(hour: nat, min: nat, sec: nat): nat { hour * 3600 + min * 60 + sec }

  function ShownBy(r: Registers): Shown {
    Shown(YearOf(r), BcdToBin(r.month), BcdToBin(r.day), HourOf(r.hour), BcdToBin(r.min), BcdToBin(r.sec))
  }

  /** Years before 1970, months past 13 and day 0 have no reading. */
  function Seconds(t: Shown): Option<nat> {
    if t.year < 1970 || t.month > 13 || t.day == 0 then None
    else Some(ClosedDays(t.year, if t.month == 0 then 1 else t.month, t.day) * 86400 + TimeOfDay(t.hour, t.min, t.sec))
  }

  function Encoded(r: Registers, year: nat, month: Byte, day: Byte, hour: Byte, min: Byte, sec: Byte): Registers {
    Registers(BinToBcd(sec), BinToBcd(min), BinToBcd(hour), BinToBcd(day), BinToBcd(month),
      BinToBcd(year % 100), BinToBcd(year / 100 % 256), r.statusB % 128)
  }

  /** A register with two decimal digits. */
  predicate Shows(raw: Byte, tens: nat, ones: nat) {
    tens < 10 && ones < 10 && raw == tens * 16 + ones
  }

  lemma ShowsValue(raw: Byte, tens: nat, ones: nat)
    requires Shows(raw, tens, ones)
    ensures BcdToBin(raw) == tens * 10 + ones
  {
    DecodeDigits(tens, ones);
  }

  /** The hour, with a bit beside its digits that marks the afternoon. */
  lemma HourShown(raw: Byte, pm: bool, tens: nat, ones: nat)
    requires tens < 8 && ones < 10 && raw == (if pm then 128 else 0) + tens * 16 + ones
    ensures HourOf(raw) == tens * 10 + ones + if pm then 12 else 0
  {
    DivMod(if pm then 1 else 0, tens * 16 + ones, 128);
    DecodeDigits(tens, ones);
  }

  /** Which register holds what: the four digits of the year are in two of them. */
  lemma DateShown(r: Registers, y3: nat, y2: nat, y1: nat, y0: nat, m1: nat, m0: nat, d1: nat, d0: nat)
    requires Shows(r.century, y3, y2) && Shows(r.year, y1, y0) && Shows(r.month, m1, m0) && Shows(r.day, d1, d0)
    ensures ShownBy(r).year == 1000 * y3 + 100 * y2 + 10 * y1 + y0
    ensures ShownBy(r).month == 10 * m1 + m0 && ShownBy(r).day == 10 * d1 + d0
  {
    assert ShownBy(r).month == 10 * m1 + m0 by { ShowsValue(r.month, m1, m0); }
    assert ShownBy(r).day == 10 * d1 + d0 by { ShowsValue(r.day, d1, d0); }
    assert YearOf(r) == 1000 * y3 + 100 * y2 + 10 * y1 + y0 by {
      ShowsValue(r.century, y3, y2);
      ShowsValue(r.year, y1, y0);
    }
  }

  lemma TimeShown(r: Registers, pm: bool, h1: nat, h0: nat, m1: nat, m0: nat, s1: nat, s0: nat)
    requires h1 < 8 && h0 < 10 && r.hour == (if pm then 128 else 0) + h1 * 16 + h0
    requires Shows(r.min, m1, m0) && Shows(r.sec, s1, s0)
    ensures ShownBy(r).hour == 10 * h1 + h0 + if pm then 12 else 0
    ensures ShownBy(r).min == 10 * m1 + m0 && ShownBy(r).sec == 10 * s1 + s0
  {
    assert ShownBy(r).hour == 10 * h1 + h0 + (if pm then 12 else 0) by { HourShown(r.hour, pm, h1, h0); }
    assert ShownBy(r).min == 10 * m1 + m0 by { ShowsValue(r.min, m1, m0); }
    assert ShownBy(r).sec == 10 * s1 + s0 by { ShowsValue(r.sec, s1, s0); }
  }

  lemma SmallField(b: Byte)
    requires b < 60
    ensures BcdToBin(BinToBcd(b)) == b
  {
    BcdRoundTrip(b);
  }

  lemma MorningHour(raw: Byte)
    requires raw < 128
    ensures HourOf(raw) == BcdToBin(raw)
  {
    DivMod(0, raw, 128);
  }

  lemma HourField(hour: Byte)
    requires hour < 24
    ensures HourOf(BinToBcd(hour)) == hour
  {
    BcdRoundTrip(hour);
    MorningHour(BinToBcd(hour));
  }

  lemma Century(year: nat, c: nat, y: nat, shown: nat)
    requires year == c * 100 + y && y < 100 && shown < 160 && (shown == c % 256 <==> c % 256 < 160)
    ensures shown * 100 + y < 16000 && (year < 16000 ==> shown * 100 + y == year)
  {
  }

  /** The year survives as long as its century fits; a longer one comes back smaller. */
  lemma YearField(year: nat)
    ensures var y := BcdToBin(BinToBcd(year / 100 % 256)) * 100 + BcdToBin(BinToBcd(year % 100));
      y < 16000 && (year < 16000 ==> y == year)
  {
    var c, y := Split(year, 100);
    BcdRoundTrip(c % 256);
    BcdRoundTrip(y);
    Century(year, c, y, BcdToBin(BinToBcd(c % 256)));
  }

  lemma {:induction false} YearsGrow(y: nat, z: nat)
    requires 1970 <= y < z
    ensures YearDays(y) + 365 <= YearDays(z)
    decreases z - y
  {
    YearStep(y);
    if y + 1 < z {
      YearsGrow(y + 1, z);
    }
  }

  lemma DateAfterSet(r: Registers, year: nat, month: Byte, day: Byte, hour: Byte, min: Byte, sec: Byte)
    requires ValidDate(year, month, day)
    ensures var t := ShownBy(Encoded(r, year, month, day, hour, min, sec));
      t.month == month && t.day == day && t.year < 16000 && (year < 16000 ==> t.year == year)
  {
    var t := ShownBy(Encoded(r, year, month, day, hour, min, sec));
    assert t.month == month by { SmallField(month); }
    assert t.day == day by { SmallField(day); }
    assert t.year < 16000 && (year < 16000 ==> t.year == year) by { YearField(year); }
  }

  lemma TimeAfterSet(r: Registers, year: nat, month: Byte, day: Byte, hour: Byte, min: Byte, sec: Byte)
    requires ValidTime(hour, min, sec)
    ensures var t := ShownBy(Encoded(r, year, month, day, hour, min, sec));
      t.hour == hour && t.min == min && t.sec == sec
  {
    var t := ShownBy(Encoded(r, year, month, day, hour, min, sec));
    assert t.hour == hour by { HourField(hour); }
    assert t.min == min by { SmallField(min); }
    assert t.sec == sec by { SmallField(sec); }
  }

  /** What the clock shows after it was set: all as given, except that a long year is cut. */
  lemma ShownAfterSet(r: Registers, year: nat, month: Byte, day: Byte, hour: Byte, min: Byte, sec: Byte)
    requires ValidDate(year, month, day) && ValidTime(hour, min, sec)
    ensures ShownBy(Encoded(r, year, month, day, hour, min, sec)).month == month
    ensures ShownBy(Encoded(r, year, month, day, hour, min, sec)).day == day
    ensures ShownBy(Encoded(r, year, month, day, hour, min, sec)).hour == hour
    ensures ShownBy(Encoded(r, year, month, day, hour, min, sec)).min == min
    ensures ShownBy(Encoded(r, year, month, day, hour, min, sec)).sec == sec
    ensures ShownBy(Encoded(r, year, month, day, hour, min, sec)).year < 16000
    ensures year < 16000 ==> ShownBy(Encoded(r, year, month, day, hour, min, sec)).year == year
  {
    DateAfterSet(r, year, month, day, hour, min, sec);
    TimeAfterSet(r, year, month, day, hour, min, sec);
  }

  /**
    Setting the clock and reading it back gives the seconds since 1970-01-01 of the date that was
    set, counted one by one: for every year from 1970, exactly when the year is below 16000.
   */
  lemma SetThenGet(r: Registers, year: nat, month: Byte, day: Byte, hour: Byte, min: Byte, sec: Byte)
    requires ValidDate(year, month, day) && ValidTime(hour, min, sec)
    ensures Seconds(ShownBy(Encoded(r, year, month, day, hour, min, sec)))
         == Some(SecondNumber(Shown(year, month, day, hour, min, sec)))
       <==> year < 16000
  {
    var t := ShownBy(Encoded(r, year, month, day, hour, min, sec));
    ShownAfterSet(r, year, month, day, hour, min, sec);
    ShownSeconds(t, year);
  }

  lemma ShownSeconds(t: Shown, year: nat)
    requires ValidShown(t.(year := year)) && t.year < 16000 && (year < 16000 ==> t.year == year)
    ensures Seconds(t) == Some(SecondNumber(t.(year := year))) <==> year < 16000
  {
    ClosedFormCountsDays(year, t.month, t.day);
    SecondsOfDays(t.(year := year));
    if year >= 16000 && t.year >= 1970 {
      LaterYear(t.year, year, t.month, t.day);
    }
  }

  lemma LaterYear(y: nat, z: nat, month: nat, day: nat)
    requires 1970 <= y < z && 1 <= month <= 12 && day >= 1
    ensures ClosedDays(y, month, day) < ClosedDays(z, month, day)
  {
    YearsGrow(y, z);
  }

  lemma SecondsByDays(t: Shown, days: nat)
    requires ValidDate(t.year, t.month, t.day) && days == DayNumber(t.year, t.month, t.day)
    ensures Seconds(t) == Some(days * 86400 + t.hour * 3600 + t.min * 60 + t.sec)
  {
    ClosedFormCountsDays(t.year, t.month, t.day);
  }

  lemma SecondsFromMidnight(t: Shown)
    requires ValidDate(t.year, t.month, t.day)
    ensures Seconds(t) == Some(StartOfDay(t.year, t.month, t.day) + t.hour * 3600 + t.min * 60 + t.sec)
  {
    var days := DayNumber(t.year, t.month, t.day);
    SecondsByDays(t, days);
    Midnight(t.year, t.month, t.day, days);
  }

  lemma SecondsAreCounted(t: Shown)
    requires ValidShown(t)
    ensures Seconds(t) == Some(SecondNumber(t))
  {
    SecondsByDays(t, DayNumber(t.year, t.month, t.day));
    SecondsOfDays(t);
  }

  /**
    What a reading must be: the count of seconds for a valid date and time; an hour, minute or second
    out of range counts on from midnight; and there is none for a year before 1970, a month past 13
    or day 0.
   */
  ghost predicate ReadsAs(t: Shown, r: Option<nat>) {
    && (ValidShown(t) ==> r == Some(SecondNumber(t)))
    && (ValidDate(t.year, t.month, t.day) ==>
          r == Some(StartOfDay(t.year, t.month, t.day) + t.hour * 3600 + t.min * 60 + t.sec))
    && (r == None <==> t.year < 1970 || t.month > 13 || t.day == 0)
  }

  lemma SecondsRead(t: Shown)
    ensures ReadsAs(t, Seconds(t))
  {
    if ValidDate(t.year, t.month, t.day) {
      SecondsFromMidnight(t);
      if ValidShown(t) {
        SecondsAreCounted(t);
      }
    }
  }

  // ---------- the device ----------

  class Clock {
    var regs: Registers

    method SetTime(year: nat, month: Byte, day: Byte, hour: Byte, min: Byte, sec: Byte)
      modifies this
      ensures regs == Encoded(old(regs), year, month, day, hour, min, sec)
    {
      var statusB := regs.statusB;
      regs := regs.(statusB := statusB % 128 + 128);
      regs := regs.(sec := BinToBcd(sec));
      regs := regs.(min := BinToBcd(min));
      regs := regs.(hour := BinToBcd(hour));
      regs := regs.(day := BinToBcd(day));
      regs := regs.(month := BinToBcd(month));
      regs := regs.(year := BinToBcd(year % 100));
      regs := regs.(century := BinToBcd(year / 100 % 256));
      regs := regs.(statusB := statusB % 128);
    }

    method DaysOfMonths(month: nat) returns (days: nat)
      requires month <= 13
      ensures days == DaysBefore(if month == 0 then 1 else month)
    {
      days := 0;
      var i := 1;
      while i < month
        invariant 1 <= i && (i <= month || i == 1)
        invariant days == DaysBefore(i)
      {
        days := days + MONTH_DAYS[i];
        i := i + 1;
      }
    }

    method ReadRegisters() returns (t: Shown)
      ensures t == ShownBy(regs)
    {
      var sec, min := BcdToBin(regs.sec), BcdToBin(regs.min);
      var day, month := BcdToBin(regs.day), BcdToBin(regs.month);
      var isPm := regs.hour >= 128;
      var hour: nat := BcdToBin(regs.hour % 128);
      if isPm {
        hour := hour + 12;
      }
      t := Shown(BcdToBin(regs.century) * 100 + BcdToBin(regs.year), month, day, hour, min, sec);
    }

    method ToSeconds(t: Shown) returns (r: Option<nat>)
      ensures r == Seconds(t)
    {
      if t.year < 1970 || t.month > 13 || t.day == 0 {
        return None;
      }
      var days := DaysOfMonths(t.month);
      var totalDays := YearDays(t.year) + days;
      if t.month > 2 && IsLeapYear(t.year) {
        totalDays := totalDays + 1;
      }
      totalDays := totalDays + (t.day - 1);
      r := Some(totalDays * 86400 + TimeOfDay(t.hour, t.min, t.sec));
    }

    /** The time read from registers that hold still. */
    method GetTime() returns (r: Option<nat>)
      ensures r == Seconds(ShownBy(regs)) && ReadsAs(ShownBy(regs), r)
    {
      var t := ReadRegisters();
      r := ToSeconds(t);
      SecondsRead(t);
    }
  }
}
