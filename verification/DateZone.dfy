/** Instants as broken-down times of the Gregorian calendar. */
module Calendar {

  /** Seconds, minutes, hours, day of the year from 0, and year; `localtime` and `gmtime` fill these. */
  datatype Tm = Tm(sec: nat, min: nat, hour: nat, yday: nat, year: int)

  predicate Leap(y: int) {
    y % 4 == 0 && (y % 100 != 0 || y % 400 == 0)
  }

  /** The day, counted from 1 January 1970, on which a year begins. */
  function YearStart(y: int): int {
    365 * (y - 1970) + (y - 1) / 4 - (y - 1) / 100 + (y - 1) / 400 - 477
  }

  lemma MultiplesOf4(y: int)
    ensures y / 4 - (y - 1) / 4 == if y % 4 == 0 then 1 else 0
  {
  }

  lemma MultiplesOf100(y: int)
    ensures y / 100 - (y - 1) / 100 == if y % 100 == 0 then 1 else 0
    ensures y % 100 == 0 ==> y % 4 == 0
  {
    assert y == 100 * (y / 100) + y % 100;
    assert 100 * (y / 100) == 4 * (25 * (y / 100));
  }

  lemma MultiplesOf400(y: int)
    ensures y / 400 - (y - 1) / 400 == if y % 400 == 0 then 1 else 0
    ensures y % 400 == 0 ==> y % 100 == 0
  {
    assert y == 400 * (y / 400) + y % 400;
    assert 400 * (y / 400) == 100 * (4 * (y / 400));
  }

  lemma YearLength(y: int)
    ensures YearStart(y + 1) == YearStart(y) + (if Leap(y) then 366 else 365)
  {
    MultiplesOf4(y);
    MultiplesOf100(y);
    MultiplesOf400(y);
  }

  lemma {:induction false} YearsInOrder(y: int, z: int)
    requires y <= z
    ensures YearStart(y) <= YearStart(z)
    decreases z - y
  {
    if y < z {
      YearLength(y);
      YearsInOrder(y + 1, z);
    }
  }

  /** The year of a day, looked for from a year on. */
  function YearFrom(y: int, day: int): (r: int)
    ensures YearStart(r) <= day < YearStart(r + 1)
    decreases day < YearStart(y), if day < YearStart(y) then YearStart(y) - day else day - YearStart(y)
  {
    YearLength(y);
    YearLength(y - 1);
    if day < YearStart(y) then YearFrom(y - 1, day)
    else if day >= YearStart(y + 1) then YearFrom(y + 1, day)
    else y
  }

  function YearOf(day: int): (r: int)
    ensures YearStart(r) <= day < YearStart(r + 1)
  {
    YearFrom(1970, day)
  }

  /** The time at an instant, in seconds since the epoch, in a zone so many minutes east. */
  function Broken(instant: int, zone: int): (t: Tm)
    ensures t.sec < 60 && t.min < 60 && t.hour < 24 && t.yday < 366
  {
    var local := instant + 60 * zone;
    var day, second := local / 86400, local % 86400;
    YearLength(YearOf(day));
    Tm(second % 60, second / 60 % 60, second / 3600, day - YearStart(YearOf(day)), YearOf(day))
  }

  function DayOf(instant: int, zone: int): int {
    (instant + 60 * zone) / 86400
  }

  /** Later days have a later year, or a later day in the same year. */
  lemma DaysInOrder(d: int, e: int)
    requires d < e
    ensures YearOf(d) < YearOf(e) || (YearOf(d) == YearOf(e) && d - YearStart(YearOf(d)) < e - YearStart(YearOf(e)))
  {
    if YearOf(e) < YearOf(d) {
      YearsInOrder(YearOf(e) + 1, YearOf(d));
    }
  }
}

/** The offset in the Date header. */
module DateZone {
  import opened Calendar

  const DAY_MIN := 1440
  const HOUR_MIN := 60
  const MIN_SEC := 60

  function Sign(d: int): int {
    if d < 0 then -1 else if d == 0 then 0 else 1
  }

  /** The difference of two broken-down times as the program takes it. */
  method Offset(lt: Tm, gmt: Tm) returns (gmtoff: int)
    ensures gmtoff == Difference(lt, gmt)
  {
    gmtoff := (lt.hour - gmt.hour) * HOUR_MIN + lt.min - gmt.min;
    if lt.year < gmt.year {
      gmtoff := gmtoff - DAY_MIN;
    } else if lt.year > gmt.year {
      gmtoff := gmtoff + DAY_MIN;
    } else if lt.yday < gmt.yday {
      gmtoff := gmtoff - DAY_MIN;
    } else if lt.yday > gmt.yday {
      gmtoff := gmtoff + DAY_MIN;
    }
    if lt.sec <= gmt.sec - MIN_SEC {
      gmtoff := gmtoff - 1;
    } else if lt.sec >= gmt.sec + MIN_SEC {
      gmtoff := gmtoff + 1;
    }
  }

  /** Clock difference, plus a day in the direction of the later date, plus a minute per full minute of seconds. */
  function Difference(lt: Tm, gmt: Tm): int {
    (lt.hour * HOUR_MIN + lt.min) - (gmt.hour * HOUR_MIN + gmt.min)
    + DAY_MIN * (if lt.year == gmt.year then Sign(lt.yday - gmt.yday) else Sign(lt.year - gmt.year))
    + (if gmt.sec - lt.sec >= MIN_SEC then -1 else if lt.sec - gmt.sec >= MIN_SEC then 1 else 0)
  }

  /** For every instant and every whole-minute zone: the days between the two dates beyond the first are lost. */
  lemma DifferenceIs(instant: int, zone: int)
    ensures var days := DayOf(instant, zone) - DayOf(instant, 0);
            Difference(Broken(instant, zone), Broken(instant, 0)) == zone - DAY_MIN * (days - Sign(days))
  {
    hide YearStart, Leap, YearOf;
    var d, e := DayOf(instant, 0), DayOf(instant, zone);
    if d < e {
      DaysInOrder(d, e);
    } else if e < d {
      DaysInOrder(e, d);
    }
    ClockDifference(instant, zone);
  }

  lemma ClockDifference(instant: int, zone: int)
    ensures var lt, gmt := Broken(instant, zone), Broken(instant, 0);
            && lt.sec == gmt.sec
            && (lt.hour * HOUR_MIN + lt.min) - (gmt.hour * HOUR_MIN + gmt.min)
               == zone - DAY_MIN * (DayOf(instant, zone) - DayOf(instant, 0))
  {
    hide Broken, DayOf;
    ClockOf(instant, zone);
    ClockOf(instant, 0);
    MinutesLater(instant, zone);
  }

  /** The clock of a zone, and its day. */
  lemma ClockOf(instant: int, zone: int)
    ensures var t, local := Broken(instant, zone), instant + 60 * zone;
            t.sec == local % 60 && t.hour * HOUR_MIN + t.min == local / 60 - DAY_MIN * DayOf(instant, zone)
  {
    hide YearOf, YearStart;
    MinuteOfDay(instant + 60 * zone);
  }

  lemma MinutesLater(instant: int, zone: int)
    ensures (instant + 60 * zone) / 60 == instant / 60 + zone && (instant + 60 * zone) % 60 == instant % 60
  {
  }

  lemma MinuteOfDay(t: int)
    ensures t / 60 == 1440 * (t / 86400) + (t % 86400 / 3600 * 60 + t % 86400 / 60 % 60)
    ensures t % 60 == t % 86400 % 60
  {
  }

  /** The offset is right exactly when the two dates are at most one day apart, as they are for every
      zone within one day of Greenwich, across midnight and the new year. */
  lemma OffsetIsRightExactlyWhen(instant: int, zone: int)
    ensures Difference(Broken(instant, zone), Broken(instant, 0)) == zone
            <==> -1 <= DayOf(instant, zone) - DayOf(instant, 0) <= 1
    ensures -DAY_MIN < zone < DAY_MIN ==> Difference(Broken(instant, zone), Broken(instant, 0)) == zone
  {
    hide Broken, Difference;
    DifferenceIs(instant, zone);
  }

  // ---------- the printed zone ----------

  function Digit(n: nat): char
    requires n < 10
  {
    '0' + n as char
  }

  function TwoDigits(n: nat): (s: string)
    requires n < 100
    ensures |s| == 2
  {
    [Digit(n / 10), Digit(n % 10)]
  }

  /** C division, towards zero. */
  function Quotient(n: int, d: nat): int
    requires d > 0
  {
    if n >= 0 then n / d else -(-n / d)
  }

  function Abs(n: int): nat {
    if n < 0 then -n else n
  }

  /** A number with its sign and at least two digits. */
  function Signed(n: int): (s: string)
    requires -100 < n < 100
  {
    [if n < 0 then '-' else '+'] + TwoDigits(Abs(n))
  }

  datatype Result = Zone(text: string) | Failed

  /** The zone field; the buffer must hold 64 characters and the offset one day. */
  method FormatZone(lt: Tm, gmt: Tm, bufsiz: int) returns (r: Result)
    ensures r == Failed <==> bufsiz < 64 || Abs(Difference(lt, gmt)) > DAY_MIN
    ensures r.Zone? ==> ReadZone(r.text).East? && r.text != [] && (r.text[0] == '+' <==> -60 < Difference(lt, gmt))
    ensures r.Zone? ==>
              var d := Difference(lt, gmt);
              ReadZone(r.text).minutes == if -60 < d then Abs(d) else d
    ensures r.Zone? ==>
              var hours, minutes := Abs(Difference(lt, gmt)) / 60, Abs(Difference(lt, gmt)) % 60;
              && |r.text| == 5
              && r.text[1] as int == 0x30 + hours / 10 && r.text[2] as int == 0x30 + hours % 10
              && r.text[3] as int == 0x30 + minutes / 10 && r.text[4] as int == 0x30 + minutes % 10
  {
    hide Difference;
    if bufsiz < 64 {
      return Failed;
    }
    var gmtoff := Offset(lt, gmt);
    if gmtoff < -DAY_MIN || gmtoff > DAY_MIN {
      return Failed;
    }
    PrintedReads(gmtoff);
    PrintedDigits(gmtoff);
    return Zone(Signed(Quotient(gmtoff, HOUR_MIN)) + TwoDigits(Abs(gmtoff) % HOUR_MIN));
  }

  datatype Reading = East(minutes: int) | Malformed

  function Value(c: char): nat
    requires '0' <= c <= '9'
  {
    c as int - '0' as int
  }

  /** A zone as section 3.3 of RFC 5322 defines it: a sign and four digits, hours and minutes up to 59. */
  function ReadZone(s: string): Reading {
    if |s| == 5 && s[0] in {'+', '-'} && s[3] <= '5' && forall i :: 1 <= i < 5 ==> '0' <= s[i] <= '9' then
      var minutes := (Value(s[1]) * 10 + Value(s[2])) * 60 + Value(s[3]) * 10 + Value(s[4]);
      East(if s[0] == '-' then -minutes else minutes)
    else Malformed
  }

  lemma PrintedReads(g: int)
    requires -DAY_MIN <= g <= DAY_MIN
    ensures -100 < Quotient(g, HOUR_MIN) < 100
    ensures ReadZone(Signed(Quotient(g, HOUR_MIN)) + TwoDigits(Abs(g) % HOUR_MIN))
              == East(if -60 < g then Abs(g) else g)
    ensures Signed(Quotient(g, HOUR_MIN))[0] == '+' <==> -60 < g
  {
    var h, m := Abs(Quotient(g, HOUR_MIN)), Abs(g) % HOUR_MIN;
    var s := Signed(Quotient(g, HOUR_MIN)) + TwoDigits(m);
    assert s[1] == Digit(h / 10) && s[2] == Digit(h % 10) && s[3] == Digit(m / 10) && s[4] == Digit(m % 10);
    assert Value(s[1]) == h / 10 && Value(s[2]) == h % 10 && Value(s[3]) == m / 10 && Value(s[4]) == m % 10;
    assert h * 60 + m == Abs(g);
  }

  /** The characters after the sign, by their codes. */
  lemma PrintedDigits(g: int)
    requires -DAY_MIN <= g <= DAY_MIN
    ensures -100 < Quotient(g, HOUR_MIN) < 100
    ensures var s := Signed(Quotient(g, HOUR_MIN)) + TwoDigits(Abs(g) % HOUR_MIN);
            var hours, minutes := Abs(g) / 60, Abs(g) % 60;
            && |s| == 5
            && s[1] as int == 0x30 + hours / 10 && s[2] as int == 0x30 + hours % 10
            && s[3] as int == 0x30 + minutes / 10 && s[4] as int == 0x30 + minutes % 10
  {
    var h := Abs(Quotient(g, HOUR_MIN));
    assert h == Abs(g) / 60;
    TwoDigitsAre(h);
    TwoDigitsAre(Abs(g) % HOUR_MIN);
  }

  lemma TwoDigitsAre(n: nat)
    requires n < 100
    ensures TwoDigits(n)[0] as int == 0x30 + n / 10 && TwoDigits(n)[1] as int == 0x30 + n % 10
  {
  }

  /** The header reads back as the true zone exactly when the zone is not less than one hour west. */
  lemma ZoneReadsBackExactlyWhen(instant: int, zone: int)
    requires -DAY_MIN < zone < DAY_MIN
    ensures var g := Difference(Broken(instant, zone), Broken(instant, 0));
            && -DAY_MIN <= g <= DAY_MIN && -100 < Quotient(g, HOUR_MIN) < 100
            && (ReadZone(Signed(Quotient(g, HOUR_MIN)) + TwoDigits(Abs(g) % HOUR_MIN)) == East(zone)
                <==> zone >= 0 || zone <= -60)
  {
    hide Broken, Difference, ReadZone, Signed, TwoDigits, Quotient;
    OffsetIsRightExactlyWhen(instant, zone);
    PrintedReads(zone);
  }
}
