/** The stored texts are RFC 3339 (sections 5.6 and 5.7) over the Gregorian calendar, digit by digit and day by day. */
module Calendar {
  import opened Text
  import opened TimeText

  /** The year has a 29th of February. */
  predicate LongFebruary(year: nat) {
    year % 400 == 0 || (year % 4 == 0 && year % 100 != 0)
  }

  function MonthEnd(year: nat, month: nat): nat {
    match month
    case 2 => if LongFebruary(year) then 29 else 28
    case 4 => 30
    case 6 => 30
    case 9 => 30
    case 11 => 30
    case _ => 31
  }

  /** The date after a date. */
  function NextDate(c: Civil): Civil {
    if c.day < MonthEnd(c.year, c.month) then c.(day := c.day + 1)
    else if c.month < 12 then c.(month := c.month + 1, day := 1)
    else c.(year := c.year + 1, month := 1, day := 1)
  }

  lemma SameDayNumber(c: Civil, d: Civil)
    requires ValidCivil(c) && ValidCivil(d) && DayNumber(c) == DayNumber(d)
    ensures SameDate(c, d)
  {
    if DateLess(c, d) { DateLessDayNumber(c, d); }
    if DateLess(d, c) { DateLessDayNumber(d, c); }
    hide DayNumber;
  }

  lemma NextDayNumber(c: Civil)
    requires ValidCivil(c) && NextDate(c).year < 10000
    ensures ValidCivil(NextDate(c)) && DayNumber(NextDate(c)) == DayNumber(c) + 1
  {
    MonthEndIs(c.year, c.month);
    MonthEnds(c.year, c.month);
    hide DaysBefore, DaysBeforeMonth, DaysIn, MonthEnd;
  }

  lemma MonthEndIs(year: nat, month: nat)
    ensures MonthEnd(year, month) == DaysIn(year, month) >= 28
  {
    Multiples(year);
    assert LongFebruary(year) == IsLeap(year);
    hide LongFebruary, IsLeap;
  }

  lemma MonthEnds(year: nat, month: nat)
    requires 1 <= month <= 12
    ensures month < 12 ==> DaysBeforeMonth(year, month + 1) == DaysBeforeMonth(year, month) + DaysIn(year, month)
    ensures month == 12 ==> DaysBefore(year + 1) == DaysBefore(year) + DaysBeforeMonth(year, 12) + DaysIn(year, 12)
    ensures DaysBeforeMonth(year + 1, 1) == 0
  {
    YearLength(year);
    hide DaysIn, DaysBefore;
  }

  /** Midnight of the first of January of the year 0. */
  predicate Start(c: Civil) {
    c.year == 0 && c.month == 1 && c.day == 1 && c.hour == 0 && c.minute == 0 && c.second == 0
  }

  lemma StartIsDayZero(d: Civil)
    requires Start(d)
    ensures ValidCivil(d) && DayNumber(d) == 0
  {
    MonthEndIs(d.year, d.month);
    hide DaysIn, MonthEnd;
  }

  lemma StartOfClock(c: Civil, d: Civil)
    requires ClockSeconds(c) == 0 && Start(d) && SameDate(c, d)
    ensures Start(c)
  {
  }

  /** Time starts there. */
  lemma TimeStarts(seconds: nat)
    requires seconds == 0 < SECONDS_END
    ensures Start(ToCivil(seconds))
  {
    hide *;
    var c := ToCivil(seconds);
    var d := SomeStart();
    StartIsDayZero(d);
    CivilSeconds(seconds);
    SameDayNumber(c, d);
    StartOfClock(c, d);
  }

  lemma SomeStart() returns (d: Civil)
    ensures Start(d)
  {
    d := Civil(0, 1, 1, 0, 0, 0);
  }

  /** Each day has the date after the last. */
  lemma DaysFollow(day: nat)
    requires day * 86400 + 86400 < SECONDS_END
    ensures SameDate(ToCivil(day * 86400 + 86400), NextDate(ToCivil(day * 86400)))
  {
    hide *;
    var c, d := ToCivil(day * 86400), ToCivil(day * 86400 + 86400);
    CivilSeconds(day * 86400);
    CivilSeconds(day * 86400 + 86400);
    Quotients(day);
    YearBound(c, d);
    NextDayNumber(c);
    SameDayNumber(d, NextDate(c));
  }

  lemma Quotients(day: nat)
    ensures day * 86400 / 86400 == day && (day * 86400 + 86400) / 86400 == day + 1
  {
  }

  lemma YearBound(c: Civil, d: Civil)
    requires ValidCivil(c) && ValidCivil(d) && DayNumber(d) == DayNumber(c) + 1
    ensures NextDate(c).year < 10000
  {
    if NextDate(c).year >= 10000 {
      assert MonthEnd(c.year, c.month) == DaysIn(c.year, c.month);
      assert c.year == 9999 && c.month == 12 && c.day == 31;
      YearLength(c.year);
      assert DayNumber(c) + 1 == DaysBefore(10000);
      DayBounds(d);
      assert false;
    }
  }

  /** Within a day the date stays and the clock counts seconds, minutes and hours. */
  lemma ClockCounts(seconds: nat)
    requires seconds < SECONDS_END
    ensures var c := ToCivil(seconds);
      SameDate(c, ToCivil(seconds / 86400 * 86400)) && c.hour == seconds / 3600 % 24 &&
      c.minute == seconds / 60 % 60 && c.second == seconds % 60
  {
    var day := seconds / 86400;
    var midnight := day * 86400;
    assert midnight / 86400 == day;
    CivilSeconds(seconds);
    CivilSeconds(midnight);
    SameDayNumber(ToCivil(seconds), ToCivil(midnight));
    ClockDigits(seconds, day, seconds % 86400);
    hide DayNumber, YearFrom, MonthFrom, DaysBefore, DaysBeforeMonth, SameDate;
  }

  lemma ClockDigits(n: nat, day: nat, clock: nat)
    requires n == day * 86400 + clock && clock < 86400
    ensures clock / 3600 == n / 3600 % 24 && clock / 60 % 60 == n / 60 % 60 && clock % 60 == n % 60
  {
    assert n / 3600 == day * 24 + clock / 3600;
    assert n / 60 == (day * 24) * 60 + clock / 60;
    assert n == (day * 1440) * 60 + clock;
  }

  // ---- the text ----

  /** The two or four digits at a position write the number. */
  predicate Two(s: string, i: nat, n: nat) {
    i + 2 <= |s| && s[i] as int == 48 + n / 10 && s[i + 1] as int == 48 + n % 10
  }

  predicate Four(s: string, i: nat, n: nat) {
    i + 4 <= |s| && Two(s, i, n / 100) && Two(s, i + 2, n % 100)
  }

  lemma PadDigits(n: nat)
    requires n < 10000
    ensures Four(Pad(n, 4), 0, n) && (n < 100 ==> Two(Pad(n, 2), 0, n))
  {
    assert Pad(n, 2) == Pad(n / 10, 1) + [Digit(n % 10)];
    assert Pad(n / 10, 1) == Pad(n / 10 / 10, 0) + [Digit(n / 10 % 10)];
    assert Pad(n, 4) == Pad(n / 10, 3) + [Digit(n % 10)];
    assert Pad(n / 10, 3) == Pad(n / 10 / 10, 2) + [Digit(n / 10 % 10)];
    assert Pad(n / 10 / 10, 2) == Pad(n / 10 / 10 / 10, 1) + [Digit(n / 10 / 10 % 10)];
    assert Pad(n / 10 / 10 / 10, 1) == Pad(n / 10 / 10 / 10 / 10, 0) + [Digit(n / 10 / 10 / 10 % 10)];
    hide Pad;
    assert n / 10 / 10 == n / 100 && n / 10 / 10 / 10 == n / 1000;
  }

  /** YYYY-MM-DDTHH:MM:SSZ, with a point and a fraction before the Z unless the second is whole. */
  predicate LaidOut(s: string, c: Civil, whole: bool) {
    |s| >= 20 && Four(s, 0, c.year) && Two(s, 5, c.month) && Two(s, 8, c.day) && Two(s, 11, c.hour) &&
    Two(s, 14, c.minute) && Two(s, 17, c.second) && s[4] == s[7] == '-' && s[10] == 'T' && s[13] == s[16] == ':' &&
    s[|s| - 1] == 'Z' && (if whole then |s| == 20 else 22 <= |s| <= 30 && s[19] == '.' && s[|s| - 2] != '0')
  }

  /** The stored text of an instant shows its date, clock and fraction in the places of the format. */
  lemma Layout(t: Instant, seconds: nat)
    requires seconds == t / 1_000_000_000 && seconds < SECONDS_END
    ensures LaidOut(Format(t), ToCivil(seconds), t == seconds * 1_000_000_000)
  {
    var c, d := ToCivil(seconds), FractionDigits(t);
    FractionRoundTrip(t);
    StampIsLaidOut(c, d);
    assert Format(t) == Stamp(c, Tail(d));
    hide *;
  }

  lemma StampIsLaidOut(c: Civil, d: string)
    requires ValidCivil(c) && |d| <= 9 && (d != "" ==> d[|d| - 1] != '0')
    ensures LaidOut(Stamp(c, Tail(d)), c, d == "")
  {
    StampParts(DateText(c), ClockText(c), Tail(d));
    DatePositions(c);
    ClockPositions(c);
    hide DateText, ClockText;
    var s := Stamp(c, Tail(d));
    assert forall i | 0 <= i < 10 :: s[i] == s[..10][i];
    assert forall i | 0 <= i < 8 :: s[11 + i] == s[11..19][i];
    assert forall i | 19 <= i < |s| :: s[i] == s[19..][i - 19];
  }

  lemma DatePositions(c: Civil)
    requires ValidCivil(c)
    ensures var s := DateText(c);
      Four(s, 0, c.year) && Two(s, 5, c.month) && Two(s, 8, c.day) && s[4] == s[7] == '-'
  {
    PadDigits(c.year);
    PadDigits(c.month);
    PadDigits(c.day);
    hide Pad;
  }

  lemma ClockPositions(c: Civil)
    requires ValidCivil(c)
    ensures var s := ClockText(c);
      Two(s, 0, c.hour) && Two(s, 3, c.minute) && Two(s, 6, c.second) && s[2] == s[5] == ':'
  {
    PadDigits(c.hour);
    PadDigits(c.minute);
    PadDigits(c.second);
    hide Pad;
  }
}
