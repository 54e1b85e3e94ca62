/** UTC instants and the RFC 3339 text (sections 5.1 and 5.6) the store keeps them in. */
module TimeText {
  import opened Text

  const SECOND: nat := 1_000_000_000
  const HOUR: nat := 3600 * SECOND
  const DAY: nat := 24 * HOUR

  /** Nanoseconds since 0000-01-01T00:00:00Z; the text form covers the years 0 to 9999. */
  const END: nat := DaysBefore(10000) * DAY
  type Instant = t: nat | t < END witness 0

  /** Go's zero time, 0001-01-01T00:00:00Z. */
  const ZERO_TIME: Instant := 366 * DAY

  // ---- the proleptic Gregorian calendar ----

  predicate IsLeap(y: nat) {
    y % 4 == 0 && (y % 100 != 0 || y % 400 == 0)
  }

  function DaysIn(y: nat, m: nat): nat {
    if m == 2 then (if IsLeap(y) then 29 else 28) else if m in {4, 6, 9, 11} then 30 else 31
  }

  /** Days of the years before y. */
  function DaysBefore(y: nat): nat {
    365 * y + (y + 3) / 4 - (y + 99) / 100 + (y + 399) / 400
  }

  /** Days of year y before month m. */
  function DaysBeforeMonth(y: nat, m: nat): nat
    requires 1 <= m <= 13
  {
    if m == 1 then 0 else DaysBeforeMonth(y, m - 1) + DaysIn(y, m - 1)
  }

  lemma Quotient4(y: nat)
    ensures (y + 4) / 4 - (y + 3) / 4 == (if y % 4 == 0 then 1 else 0)
  {
  }

  lemma Quotient100(y: nat)
    ensures (y + 100) / 100 - (y + 99) / 100 == (if y % 100 == 0 then 1 else 0)
  {
  }

  lemma Quotient400(y: nat)
    ensures (y + 400) / 400 - (y + 399) / 400 == (if y % 400 == 0 then 1 else 0)
  {
  }

  lemma Multiples(y: nat)
    ensures (y % 400 == 0 ==> y % 100 == 0) && (y % 100 == 0 ==> y % 4 == 0)
  {
    var q, r := y / 400, y / 100;
    if y % 400 == 0 { assert y == 100 * (4 * q); }
    if y % 100 == 0 { assert y == 4 * (25 * r); }
  }

  lemma MonthLengths(y: nat)
    ensures DaysBeforeMonth(y, 13) == (if IsLeap(y) then 366 else 365)
  {
    assert DaysBeforeMonth(y, 3) == DaysBeforeMonth(y, 1) + DaysIn(y, 1) + DaysIn(y, 2);
    assert DaysBeforeMonth(y, 5) == DaysBeforeMonth(y, 3) + DaysIn(y, 3) + DaysIn(y, 4);
    assert DaysBeforeMonth(y, 7) == DaysBeforeMonth(y, 5) + DaysIn(y, 5) + DaysIn(y, 6);
    assert DaysBeforeMonth(y, 9) == DaysBeforeMonth(y, 7) + DaysIn(y, 7) + DaysIn(y, 8);
    assert DaysBeforeMonth(y, 11) == DaysBeforeMonth(y, 9) + DaysIn(y, 9) + DaysIn(y, 10);
    assert DaysBeforeMonth(y, 13) == DaysBeforeMonth(y, 11) + DaysIn(y, 11) + DaysIn(y, 12);
  }

  lemma YearLength(y: nat)
    ensures DaysBefore(y + 1) - DaysBefore(y) == (if IsLeap(y) then 366 else 365) == DaysBeforeMonth(y, 13)
  {
    Quotient4(y);
    Quotient100(y);
    Quotient400(y);
    Multiples(y);
    MonthLengths(y);
  }

  lemma {:induction false} DaysBeforeMonotone(y: nat, z: nat)
    requires y <= z
    ensures DaysBefore(y) <= DaysBefore(z)
    decreases z - y
  {
    if y < z {
      YearLength(y);
      DaysBeforeMonotone(y + 1, z);
    }
  }

  lemma {:induction false} DaysBeforeMonthMonotone(y: nat, m: nat, n: nat)
    requires 1 <= m <= n <= 13
    ensures DaysBeforeMonth(y, m) <= DaysBeforeMonth(y, n)
  {
    if m < n { DaysBeforeMonthMonotone(y, m, n - 1); }
  }

  /** The year of day number d, searched upwards from y. */
  function YearFrom(d: nat, y: nat): (r: nat)
    requires DaysBefore(y) <= d
    ensures DaysBefore(r) <= d < DaysBefore(r + 1)
    decreases d - DaysBefore(y)
  {
    YearLength(y);
    if d < DaysBefore(y + 1) then y else YearFrom(d, y + 1)
  }

  function MonthFrom(y: nat, d: nat, m: nat): (r: nat)
    requires 1 <= m <= 12 && DaysBeforeMonth(y, m) <= d < DaysBeforeMonth(y, 13)
    ensures 1 <= r <= 12 && DaysBeforeMonth(y, r) <= d < DaysBeforeMonth(y, r + 1)
    decreases 12 - m
  {
    if d < DaysBeforeMonth(y, m + 1) then m else MonthFrom(y, d, m + 1)
  }

  datatype Civil = Civil(year: nat, month: nat, day: nat, hour: nat, minute: nat, second: nat)

  predicate ValidCivil(c: Civil) {
    c.year < 10000 && 1 <= c.month <= 12 && 1 <= c.day <= DaysIn(c.year, c.month) &&
    c.hour < 24 && c.minute < 60 && c.second < 60
  }

  const SECONDS_END: nat := DaysBefore(10000) * 86400

  /** The calendar reading of a count of whole seconds. */
  function ToCivil(seconds: nat): (c: Civil)
    requires seconds < SECONDS_END
    ensures ValidCivil(c)
  {
    var days := seconds / 86400;
    var clock := seconds % 86400;
    var y := YearFrom(days, 0);
    YearLength(y);
    var d := days - DaysBefore(y);
    var m := MonthFrom(y, d, 1);
    assert y < 10000 by { if y >= 10000 { DaysBeforeMonotone(10000, y); assert false; } }
    Civil(y, m, d - DaysBeforeMonth(y, m) + 1, clock / 3600, clock / 60 % 60, clock % 60)
  }

  function DayNumber(c: Civil): nat
    requires ValidCivil(c)
  {
    DaysBefore(c.year) + DaysBeforeMonth(c.year, c.month) + c.day - 1
  }

  function ClockSeconds(c: Civil): nat {
    c.hour * 3600 + c.minute * 60 + c.second
  }

  lemma DayBounds(c: Civil)
    requires ValidCivil(c)
    ensures DaysBeforeMonth(c.year, c.month) +
      c.day <= DaysBeforeMonth(c.year, c.month + 1) <= DaysBeforeMonth(c.year, 13)
    ensures DayNumber(c) < DaysBefore(c.year + 1) <= DaysBefore(10000)
  {
    YearLength(c.year);
    DaysBeforeMonotone(c.year + 1, 10000);
    DaysBeforeMonthMonotone(c.year, c.month + 1, 13);
  }

  function FromCivil(c: Civil): (seconds: nat)
    requires ValidCivil(c)
    ensures seconds < SECONDS_END
  {
    DayBounds(c);
    DayNumber(c) * 86400 + ClockSeconds(c)
  }

  lemma CivilSeconds(seconds: nat)
    requires seconds < SECONDS_END
    ensures DayNumber(ToCivil(seconds)) == seconds / 86400 && ClockSeconds(ToCivil(seconds)) == seconds % 86400
  {
    var clock := seconds % 86400;
    assert clock == clock / 3600 * 3600 + clock / 60 % 60 * 60 + clock % 60;
  }

  /** The calendar reading determines the second. */
  lemma CivilRoundTrip(seconds: nat)
    requires seconds < SECONDS_END
    ensures FromCivil(ToCivil(seconds)) == seconds
  {
    CivilSeconds(seconds);
  }

  // ---- text ----

  function DateText(c: Civil): (s: string)
    ensures |s| == 10
  {
    Pad(c.year, 4) + ("-" + (Pad(c.month, 2) + ("-" + Pad(c.day, 2))))
  }

  function ClockText(c: Civil): (s: string)
    ensures |s| == 8
  {
    Pad(c.hour, 2) + (":" + (Pad(c.minute, 2) + (":" + Pad(c.second, 2))))
  }

  /** "YYYY-MM-DDTHH:MM:SS" followed by a tail. */
  function Stamp(c: Civil, tail: string): string {
    DateText(c) + ("T" + (ClockText(c) + tail))
  }

  function StripZeros(s: string): (r: string)
    ensures r <= s && (r != [] ==> r[|r| - 1] != '0')
  {
    if s != [] && s[|s| - 1] == '0' then StripZeros(s[..|s| - 1]) else s
  }

  /** The digits after the decimal point; none when the instant is a whole second. */
  function FractionDigits(t: nat): string {
    StripZeros(Pad(t % SECOND, 9))
  }

  function Tail(digits: string): string {
    (if digits == [] then [] else "." + digits) + "Z"
  }

  /** Layout "2006-01-02T15:04:05.999999999Z07:00" (time.RFC3339Nano) in UTC. */
  function Format(t: Instant): string {
    Stamp(ToCivil(t / SECOND), Tail(FractionDigits(t)))
  }

  /** formatTime: the zero time is replaced by the clock. */
  function FormatTime(t: Instant, clock: Instant): string {
    Format(if t == ZERO_TIME then clock else t)
  }

  predicate AllDigits(s: string) {
    forall i | 0 <= i < |s| :: IsDigit(s[i])
  }

  predicate DateShape(s: string) {
    |s| == 10 && AllDigits(s[..4]) && s[4] == '-' && AllDigits(s[5..7]) && s[7] == '-' && AllDigits(s[8..])
  }

  predicate ClockShape(s: string) {
    |s| == 8 && AllDigits(s[..2]) && s[2] == ':' && AllDigits(s[3..5]) && s[5] == ':' && AllDigits(s[6..])
  }

  function ReadCivil(date: string, clock: string): Civil
    requires DateShape(date) && ClockShape(clock)
  {
    Civil(Value(date[..4]), Value(date[5..7]), Value(date[8..]), Value(clock[..2]), Value(clock[3..5]),
      Value(clock[6..]))
  }

  /** Nothing, or a point or comma and at least one digit. */
  predicate WellFormedFraction(f: string) {
    f == [] || (|f| >= 2 && f[0] in {'.', ','} && AllDigits(f[1..]))
  }

  /** The first nine digits of a fraction, in nanoseconds. */
  function FractionValue(digits: string): (n: nat)
    requires AllDigits(digits)
    ensures n < SECOND
  {
    var s := (digits + "000000000")[..9];
    ValuePad(s);
    NineDigits();
    Value(s)
  }

  function FractionOf(f: string): (n: nat)
    requires WellFormedFraction(f)
    ensures n < SECOND
  {
    if f == [] then 0 else FractionValue(f[1..])
  }

  /** parseTime on the UTC form; anything unreadable is the zero time. */
  function ParseTime(v: string): Instant {
    var s := Trim(v);
    if |s| >= 20 && DateShape(s[..10]) && s[10] == 'T' && ClockShape(s[11..19]) && s[|s| - 1] == 'Z' &&
       WellFormedFraction(s[19..|s| - 1]) && ValidCivil(ReadCivil(s[..10], s[11..19])) then
      FromCivil(ReadCivil(s[..10], s[11..19])) * SECOND + FractionOf(s[19..|s| - 1])
    else ZERO_TIME
  }

  // ---- reading back what was written ----

  function Zeros(n: nat): (s: string)
    ensures |s| == n && AllDigits(s)
  {
    seq(n, _ => '0')
  }

  lemma {:induction false} PadZero(w: nat)
    ensures Pad(0, w) == Zeros(w)
  {
    if w != 0 { PadZero(w - 1); }
  }

  lemma {:induction false} StripAllZeros(n: nat)
    ensures StripZeros(Zeros(n)) == []
  {
    if n != 0 {
      StripAllZeros(n - 1);
      assert Zeros(n)[..n - 1] == Zeros(n - 1);
    }
  }

  lemma ZerosAppend(n: nat)
    ensures Zeros(n + 1) == Zeros(n) + ['0']
  {
  }

  lemma {:induction false} StripZerosPads(s: string)
    ensures StripZeros(s) + Zeros(|s| - |StripZeros(s)|) == s
  {
    if s != [] && s[|s| - 1] == '0' {
      var r := s[..|s| - 1];
      var n := |r| - |StripZeros(r)|;
      StripZerosPads(r);
      ZerosAppend(n);
      assert StripZeros(r) + (Zeros(n) + ['0']) == (StripZeros(r) + Zeros(n)) + ['0'];
      assert r + ['0'] == s;
    } else {
      assert Zeros(0) == [] && s + [] == s;
    }
  }

  lemma NineDigits()
    ensures Pow10(9) == SECOND
  {
    assert Pow10(5) == 100000;
    assert Pow10(9) == 10000 * Pow10(5);
  }

  lemma FractionRoundTrip(t: nat)
    ensures AllDigits(FractionDigits(t)) && |FractionDigits(t)| <= 9
    ensures FractionValue(FractionDigits(t)) == t % SECOND
    ensures FractionDigits(t) == [] <==> t % SECOND == 0
  {
    var n := t % SECOND;
    var p, d := Pad(n, 9), FractionDigits(t);
    StripZerosPads(p);
    assert "000000000" == Zeros(9);
    assert (d + "000000000")[..9] == p;
    NineDigits();
    PadValue(n, 9);
    if n == 0 {
      PadZero(9);
      StripAllZeros(9);
    }
    if d == [] {
      PadZero(9);
      PadValue(0, 9);
      assert d + Zeros(9) == Zeros(9);
    }
  }

  lemma DateReadsBack(c: Civil)
    requires ValidCivil(c)
    ensures var s := DateText(c);
      DateShape(s) && Value(s[..4]) == c.year && Value(s[5..7]) == c.month && Value(s[8..]) == c.day
  {
    var s := DateText(c);
    assert Pow10(2) == 100;
    assert Pow10(4) == 10000;
    PadValue(c.year, 4);
    PadValue(c.month, 2);
    PadValue(c.day, 2);
    assert s[..4] == Pad(c.year, 4) && s[5..7] == Pad(c.month, 2) && s[8..] == Pad(c.day, 2);
  }

  lemma ClockReadsBack(c: Civil)
    requires ValidCivil(c)
    ensures var s := ClockText(c);
      ClockShape(s) && Value(s[..2]) == c.hour && Value(s[3..5]) == c.minute && Value(s[6..]) == c.second
  {
    var s := ClockText(c);
    assert Pow10(2) == 100;
    PadValue(c.hour, 2);
    PadValue(c.minute, 2);
    PadValue(c.second, 2);
    assert s[..2] == Pad(c.hour, 2) && s[3..5] == Pad(c.minute, 2) && s[6..] == Pad(c.second, 2);
  }

  lemma StampParts(date: string, clock: string, tail: string)
    requires |date| == 10 && |clock| == 8
    ensures var s := date + ("T" + (clock + tail));
      |s| == 19 + |tail| && s[..10] == date && s[10] == 'T' && s[11..19] == clock && s[19..] == tail
  {
  }

  lemma StampIsTrimmed(c: Civil, tail: string)
    requires tail != [] && tail[|tail| - 1] == 'Z'
    ensures Trim(Stamp(c, tail)) == Stamp(c, tail)
  {
    var s := Stamp(c, tail);
    assert s[0] == Pad(c.year, 4)[0];
    assert s[|s| - 1] == 'Z';
    TrimIsTrimmed(s);
  }

  lemma ParseParts(date: string, clock: string, f: string)
    requires DateShape(date) && ClockShape(clock) && WellFormedFraction(f) && ValidCivil(ReadCivil(date, clock))
    ensures var s := date + ("T" + (clock + (f + "Z")));
      Trim(s) == s ==> ParseTime(s) == FromCivil(ReadCivil(date, clock)) * SECOND + FractionOf(f)
  {
    var s := date + ("T" + (clock + (f + "Z")));
    StampParts(date, clock, f + "Z");
    assert s[|s| - 1] == (f + "Z")[|f|] == 'Z';
    assert s[19..|s| - 1] == (f + "Z")[..|f|] == f;
  }

  lemma FormatReadsBack(t: Instant)
    ensures ParseTime(Format(t)) == t
  {
    var c, d := ToCivil(t / SECOND), FractionDigits(t);
    var f := if d == [] then [] else "." + d;
    FractionRoundTrip(t);
    assert d != [] ==> f[1..] == d;
    assert Tail(d) == f + "Z";
    StampIsTrimmed(c, Tail(d));
    DateReadsBack(c);
    ClockReadsBack(c);
    ParseParts(DateText(c), ClockText(c), f);
    CivilRoundTrip(t / SECOND);
  }

  /** parseTime(formatTime(t)) is t, to the nanosecond, exactly when formatTime did not substitute the clock. */
  lemma TimeRoundTrip(t: Instant, clock: Instant)
    ensures ParseTime(FormatTime(t, clock)) == t <==> t != ZERO_TIME || clock == ZERO_TIME
  {
    FormatReadsBack(t);
    FormatReadsBack(clock);
  }

  // ---- text order against time order ----

  lemma FieldLess(n: nat, m: nat, w: nat, sep: string, x: string, y: string)
    requires n < Pow10(w) && m < Pow10(w)
    requires n < m || (n == m && Less(x, y))
    ensures Less(Pad(n, w) + (sep + x), Pad(m, w) + (sep + y))
  {
    if n < m {
      PadLess(n, m, w);
      LessBlock(Pad(n, w), Pad(m, w), sep + x, sep + y);
    } else {
      LessCommonPrefix(sep, x, y);
      LessCommonPrefix(Pad(n, w), sep + x, sep + y);
    }
  }

  predicate DateLess(c: Civil, d: Civil) {
    c.year < d.year || (c.year == d.year && (c.month < d.month || (c.month == d.month && c.day < d.day)))
  }

  predicate ClockLess(c: Civil, d: Civil) {
    c.hour < d.hour || (c.hour == d.hour && (c.minute < d.minute || (c.minute == d.minute && c.second < d.second)))
  }

  predicate SameDate(c: Civil, d: Civil) {
    c.year == d.year && c.month == d.month && c.day == d.day
  }

  lemma DateLessDayNumber(c: Civil, d: Civil)
    requires ValidCivil(c) && ValidCivil(d) && DateLess(c, d)
    ensures DayNumber(c) < DayNumber(d)
  {
    DayBounds(c);
    if c.year < d.year {
      DaysBeforeMonotone(c.year + 1, d.year);
    } else if c.month < d.month {
      DaysBeforeMonthMonotone(c.year, c.month + 1, d.month);
    }
  }

  /** A later second has a later calendar reading. */
  lemma LaterSecondCivil(a: nat, b: nat)
    requires a < b < SECONDS_END
    ensures var c, d := ToCivil(a), ToCivil(b); DateLess(c, d) || (SameDate(c, d) && ClockLess(c, d))
  {
    var c, d := ToCivil(a), ToCivil(b);
    CivilSeconds(a);
    CivilSeconds(b);
    if DateLess(d, c) { DateLessDayNumber(d, c); }
  }

  lemma DateTextLess(c: Civil, d: Civil)
    requires ValidCivil(c) && ValidCivil(d)
    requires DateLess(c, d)
    ensures Less(DateText(c), DateText(d))
  {
    assert Pow10(2) == 100;
    assert Pow10(4) == 10000;
    var x, y := Pad(c.day, 2), Pad(d.day, 2);
    if c.year == d.year {
      if c.month == d.month { PadLess(c.day, d.day, 2); }
      FieldLess(c.month, d.month, 2, "-", x, y);
    }
    FieldLess(c.year, d.year, 4, "-", Pad(c.month, 2) + ("-" + x), Pad(d.month, 2) + ("-" + y));
  }

  lemma ClockTextLess(c: Civil, d: Civil)
    requires ValidCivil(c) && ValidCivil(d)
    requires ClockLess(c, d)
    ensures Less(ClockText(c), ClockText(d))
  {
    assert Pow10(2) == 100;
    var x, y := Pad(c.second, 2), Pad(d.second, 2);
    if c.hour == d.hour {
      if c.minute == d.minute { PadLess(c.second, d.second, 2); }
      FieldLess(c.minute, d.minute, 2, ":", x, y);
    }
    FieldLess(c.hour, d.hour, 2, ":", Pad(c.minute, 2) + (":" + x), Pad(d.minute, 2) + (":" + y));
  }

  lemma StampLess(c: Civil, d: Civil, x: string, y: string)
    requires ValidCivil(c) && ValidCivil(d) && (DateLess(c, d) || (SameDate(c, d) && ClockLess(c, d)))
    ensures Less(Stamp(c, x), Stamp(d, y))
  {
    var p, q := ClockText(c) + x, ClockText(d) + y;
    if SameDate(c, d) {
      ClockTextLess(c, d);
      LessBlock(ClockText(c), ClockText(d), x, y);
      LessCommonPrefix("T", p, q);
      LessCommonPrefix(DateText(c), "T" + p, "T" + q);
    } else {
      DateTextLess(c, d);
      LessBlock(DateText(c), DateText(d), "T" + p, "T" + q);
    }
  }

  /** In different seconds the text order is the time order. */
  lemma LaterSecondReadsLater(a: Instant, b: Instant)
    requires a / SECOND < b / SECOND
    ensures Less(Format(a), Format(b))
  {
    LaterSecondCivil(a / SECOND, b / SECOND);
    StampLess(ToCivil(a / SECOND), ToCivil(b / SECOND), Tail(FractionDigits(a)), Tail(FractionDigits(b)));
  }

  lemma StampCommon(c: Civil, x: string, y: string)
    ensures Less(Stamp(c, x), Stamp(c, y)) == Less(x, y)
  {
    LessCommonPrefix(ClockText(c), x, y);
    LessCommonPrefix("T", ClockText(c) + x, ClockText(c) + y);
    LessCommonPrefix(DateText(c), "T" + (ClockText(c) + x), "T" + (ClockText(c) + y));
  }

  lemma {:induction false} ZerosAreLeast(s: string, n: nat)
    requires AllDigits(s) && |s| == n
    ensures !Less(s, Zeros(n))
  {
    if s != [] {
      ZerosAreLeast(s[1..], n - 1);
      assert Zeros(n)[1..] == Zeros(n - 1);
    }
  }

  /** A trimmed fraction followed by "Z" is misplaced before each of its extensions. */
  lemma {:induction false} TrimmedFractionOrder(d: string, e: string, i: nat, j: nat)
    requires AllDigits(d) && AllDigits(e) && |d| + i == |e| + j
    requires Less(d + Zeros(i), e + Zeros(j))
    ensures Less(d + "Z", e + "Z") <==> !(d <= e)
  {
    var p, q := d + Zeros(i), e + Zeros(j);
    assert e == [] ==> q == Zeros(j);
    ZerosAreLeast(p, |p|);
    if e != [] && d != [] {
      assert p[1..] == d[1..] + Zeros(i) && q[1..] == e[1..] + Zeros(j);
      assert (d + "Z")[1..] == d[1..] + "Z" && (e + "Z")[1..] == e[1..] + "Z";
      if d[0] == e[0] {
        TrimmedFractionOrder(d[1..], e[1..], i, j);
        assert d <= e <==> d[1..] <= e[1..];
      }
    }
  }

  lemma StrippedNonEmpty(p: string, q: string)
    requires AllDigits(p) && |p| == |q| && Less(p, q)
    ensures StripZeros(q) != []
  {
    StripZerosPads(q);
    ZerosAreLeast(p, |p|);
    assert [] + Zeros(|q|) == Zeros(|q|);
  }

  lemma StrippedOrder(p: string, q: string)
    requires AllDigits(p) && AllDigits(q) && |p| == |q| && Less(p, q)
    ensures Less(Tail(StripZeros(p)), Tail(StripZeros(q))) <==> !(StripZeros(p) <= StripZeros(q))
  {
    var d, e := StripZeros(p), StripZeros(q);
    StripZerosPads(p);
    StripZerosPads(q);
    StrippedNonEmpty(p, q);
    var i, j := |p| - |d|, |q| - |e|;
    assert d + Zeros(i) == p && e + Zeros(j) == q;
    assert AllDigits(d) && AllDigits(e);
    assert Less(d + "Z", e + "Z") <==> !(d <= e) by { TrimmedFractionOrder(d, e, i, j); }
    TailsCompare(d, e);
  }

  lemma TailsCompare(d: string, e: string)
    requires e != [] && AllDigits(e)
    ensures Less(Tail(d), Tail(e)) == (d != [] && Less(d + "Z", e + "Z"))
  {
    if d != [] {
      assert Tail(d) == "." + (d + "Z") && Tail(e) == "." + (e + "Z");
      LessCommonPrefix(".", d + "Z", e + "Z");
    }
  }

  lemma SameSecondOrder(a: Instant, b: Instant)
    requires a / SECOND == b / SECOND && a % SECOND < b % SECOND
    ensures Less(Format(a), Format(b)) <==> !(FractionDigits(a) <= FractionDigits(b))
  {
    var x, y := Tail(FractionDigits(a)), Tail(FractionDigits(b));
    StampCommon(ToCivil(a / SECOND), x, y);
    NineDigits();
    PadLess(a % SECOND, b % SECOND, 9);
    StrippedOrder(Pad(a % SECOND, 9), Pad(b % SECOND, 9));
  }

  /** The pairs of instants the text order gets wrong: one second, one trimmed fraction extending the other. */
  predicate Misordered(a: Instant, b: Instant) {
    a != b && a / SECOND == b / SECOND &&
    if a < b then FractionDigits(a) <= FractionDigits(b) else FractionDigits(b) <= FractionDigits(a)
  }

  /** SQL's text comparison decides time order for exactly the pairs that are not misordered. */
  lemma TextOrderExact(a: Instant, b: Instant)
    ensures Leq(Format(a), Format(b)) == (a <= b) <==> !Misordered(a, b)
  {
    FormatReadsBack(a);
    FormatReadsBack(b);
    LessTotal(Format(a), Format(b));
    if a / SECOND < b / SECOND {
      LaterSecondReadsLater(a, b);
    } else if b / SECOND < a / SECOND {
      LaterSecondReadsLater(b, a);
      LessAsymmetric(Format(b), Format(a));
    } else if a < b {
      SameSecondOrder(a, b);
    } else if b < a {
      SameSecondOrder(b, a);
      if Less(Format(b), Format(a)) { LessAsymmetric(Format(b), Format(a)); }
    }
  }

  /** The comparison a <= b as SQL makes it on the stored text. */
  predicate TextLeq(a: Instant, b: Instant) {
    a <= b <==> !Misordered(a, b)
  }

  lemma TextLeqIsTextOrder(a: Instant, b: Instant)
    ensures TextLeq(a, b) <==> Leq(Format(a), Format(b))
  {
    TextOrderExact(a, b);
  }

  lemma TextLeqTransitive(a: Instant, b: Instant, c: Instant)
    requires TextLeq(a, b) && TextLeq(b, c)
    ensures TextLeq(a, c)
  {
    hide TextLeq, Format;
    TextLeqIsTextOrder(a, b);
    TextLeqIsTextOrder(b, c);
    TextLeqIsTextOrder(a, c);
    if Less(Format(a), Format(b)) && Less(Format(b), Format(c)) { LessTransitive(Format(a), Format(b), Format(c)); }
  }

  /** A whole second misplaces every later instant of that second. */
  lemma WholeSecondMisorders(a: Instant, b: Instant)
    requires a % SECOND == 0 && a < b && a / SECOND == b / SECOND
    ensures Misordered(a, b) && Misordered(b, a)
  {
    FractionRoundTrip(a);
  }
}
