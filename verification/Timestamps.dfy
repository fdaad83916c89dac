/**
 UTC timestamps as text, in the profile of RFC 3339, and how the byte order of the text
 relates to time.  Instants are nanoseconds from the start of year 0 of the Gregorian
 calendar, within the four-digit years that section 5.1 of RFC 3339 assumes.
 */
module Timestamps {

  const NANOS: int := 1_000_000_000
  const DAY_SECONDS: int := 86_400

  // ---- Byte order ----

  /** `a` comes before `b` in byte order. */
  predicate LexLess(a: string, b: string)
    decreases |a|
  {
    b != "" && (a == "" || a[0] < b[0] || (a[0] == b[0] && LexLess(a[1..], b[1..])))
  }

  lemma {:induction false} LexTotal(a: string, b: string)
    ensures LexLess(a, b) || a == b || LexLess(b, a)
    ensures !(LexLess(a, b) && LexLess(b, a)) && !LexLess(a, a)
    decreases |a|
  {
    if a != "" {
      LexTotal(a[1..], a[1..]);
      if b != "" {
        LexTotal(a[1..], b[1..]);
        assert a == [a[0]] + a[1..] && b == [b[0]] + b[1..];
      }
    }
  }

  /** Blocks of equal length are compared one after the other. */
  lemma {:induction false} LexBlocks(a: string, x: string, b: string, y: string)
    requires |a| == |b|
    ensures LexLess(a + x, b + y) <==> LexLess(a, b) || (a == b && LexLess(x, y))
    decreases |a|
  {
    if a == "" {
      assert a + x == x && b + y == y;
    } else {
      assert (a + x)[1..] == a[1..] + x && (b + y)[1..] == b[1..] + y;
      assert a == [a[0]] + a[1..] && b == [b[0]] + b[1..];
      LexBlocks(a[1..], x, b[1..], y);
    }
  }

  // ---- Digits ----

  function Digit(d: nat): char
    requires d < 10
  {
    '0' + d as char
  }

  function Pow10(w: nat): nat {
    if w == 0 then 1 else 10 * Pow10(w - 1)
  }

  /** `n` in decimal, padded with zeros to `w` digits. */
  function Pad(n: nat, w: nat): (s: string)
    ensures |s| == w
  {
    if w == 0 then "" else Pad(n / 10, w - 1) + [Digit(n % 10)]
  }

  lemma {:induction false} PadOrder(a: nat, b: nat, w: nat)
    requires a < Pow10(w) && b < Pow10(w)
    ensures LexLess(Pad(a, w), Pad(b, w)) <==> a < b
    ensures Pad(a, w) == Pad(b, w) <==> a == b
    decreases w
  {
    if w > 0 {
      PadOrder(a / 10, b / 10, w - 1);
      var c, d := [Digit(a % 10)], [Digit(b % 10)];
      LexBlocks(Pad(a / 10, w - 1), c, Pad(b / 10, w - 1), d);
      assert c[1..] == "" == d[1..];
      assert Pad(a, w) == Pad(b, w) ==>
        Pad(a, w)[..w - 1] == Pad(b, w)[..w - 1] && Pad(a, w)[w - 1] == Pad(b, w)[w - 1];
    }
  }

  // ---- The calendar ----

  predicate Leap(y: nat) {
    y % 4 == 0 && (y % 100 != 0 || y % 400 == 0)
  }

  function YearDays(y: nat): nat {
    if Leap(y) then 366 else 365
  }

  function DaysBeforeYear(y: nat): nat {
    if y == 0 then 0 else DaysBeforeYear(y - 1) + YearDays(y - 1)
  }

  function MonthDays(y: nat, m: nat): nat
    requires 1 <= m <= 12
  {
    if m == 2 then (if Leap(y) then 29 else 28)
    else if m == 4 || m == 6 || m == 9 || m == 11 then 30
    else 31
  }

  function DaysBeforeMonth(y: nat, m: nat): nat
    requires 1 <= m <= 13
  {
    if m == 1 then 0 else DaysBeforeMonth(y, m - 1) + MonthDays(y, m - 1)
  }

  /** The year that day `d` falls in, searched from `y` on. */
  function YearOf(d: nat, y: nat): (r: nat)
    requires DaysBeforeYear(y) <= d
    ensures DaysBeforeYear(r) <= d < DaysBeforeYear(r + 1)
    decreases d - DaysBeforeYear(y)
  {
    if d < DaysBeforeYear(y + 1) then y else YearOf(d, y + 1)
  }

  /** The month that day `d` of year `y` falls in, searched from `m` on. */
  function MonthOf(y: nat, d: nat, m: nat): (r: nat)
    requires 1 <= m <= 12 && DaysBeforeMonth(y, m) <= d < DaysBeforeMonth(y, 13)
    ensures 1 <= r <= 12 && DaysBeforeMonth(y, r) <= d < DaysBeforeMonth(y, r + 1)
    decreases 12 - m
  {
    if d < DaysBeforeMonth(y, m + 1) then m else MonthOf(y, d, m + 1)
  }

  lemma YearHasTwelveMonths(y: nat)
    ensures DaysBeforeMonth(y, 13) == YearDays(y)
  {
    assert DaysBeforeMonth(y, 2) == 31;
    assert DaysBeforeMonth(y, 3) == 31 + MonthDays(y, 2);
    assert DaysBeforeMonth(y, 5) == DaysBeforeMonth(y, 3) + 61;
    assert DaysBeforeMonth(y, 7) == DaysBeforeMonth(y, 5) + 61;
    assert DaysBeforeMonth(y, 9) == DaysBeforeMonth(y, 7) + 62;
    assert DaysBeforeMonth(y, 11) == DaysBeforeMonth(y, 9) + 61;
    assert DaysBeforeMonth(y, 13) == DaysBeforeMonth(y, 11) + 61;
  }

  lemma {:induction false} YearsGrow(y: nat, z: nat)
    requires y <= z
    ensures DaysBeforeYear(y) <= DaysBeforeYear(z)
    decreases z
  {
    if y < z {
      YearsGrow(y, z - 1);
    }
  }

  lemma {:induction false} MonthsGrow(y: nat, m: nat, n: nat)
    requires 1 <= m <= n <= 13
    ensures DaysBeforeMonth(y, m) <= DaysBeforeMonth(y, n)
    decreases n
  {
    if m < n {
      MonthsGrow(y, m, n - 1);
    }
  }

  /** A calendar date; months and days count from one. */
  datatype Date = Date(year: nat, month: nat, day: nat)

  predicate ValidDate(c: Date) {
    && c.year < 10_000
    && 1 <= c.month <= 12
    && 1 <= c.day <= MonthDays(c.year, c.month)
  }

  /** Days from the start of year 0 to a date. */
  function DayNumber(c: Date): nat
    requires ValidDate(c)
  {
    DaysBeforeYear(c.year) + DaysBeforeMonth(c.year, c.month) + c.day - 1
  }

  /** Days in the first ten thousand years. */
  const END_DAY: nat := 3_652_425

  type Day = d: nat | d < END_DAY witness 0

  lemma FourthYears(y: nat)
    requires y > 0
    ensures (y + 3) / 4 == (y + 2) / 4 + if (y - 1) % 4 == 0 then 1 else 0
  {
  }

  lemma Centuries(y: nat)
    requires y > 0
    ensures (y + 99) / 100 == (y + 98) / 100 + if (y - 1) % 100 == 0 then 1 else 0
  {
  }

  lemma FourthCenturies(y: nat)
    requires y > 0
    ensures (y + 399) / 400 == (y + 398) / 400 + if (y - 1) % 400 == 0 then 1 else 0
  {
  }

  lemma CenturiesDivide(y: nat)
    ensures y % 100 == 0 ==> y % 4 == 0
    ensures y % 400 == 0 ==> y % 100 == 0
  {
    var q, r := y / 100, y / 400;
    assert y % 100 == 0 ==> y == 4 * (25 * q);
    assert y % 400 == 0 ==> y == 100 * (4 * r);
  }

  lemma {:induction false} DaysBeforeYearClosed(y: nat)
    ensures DaysBeforeYear(y) == 365 * y + (y + 3) / 4 - (y + 99) / 100 + (y + 399) / 400
  {
    if y > 0 {
      DaysBeforeYearClosed(y - 1);
      FourthYears(y);
      Centuries(y);
      FourthCenturies(y);
      CenturiesDivide(y - 1);
      assert DaysBeforeYear(y) == DaysBeforeYear(y - 1) + YearDays(y - 1);
    }
  }

  lemma YearInRange(d: Day, y: nat)
    requires DaysBeforeYear(y) <= d
    ensures y < 10_000
  {
    DaysBeforeYearClosed(10_000);
    if y >= 10_000 {
      YearsGrow(10_000, y);
    }
  }

  /** The date of a day number. */
  function DateOf(d: Day): (c: Date)
    ensures ValidDate(c) && DayNumber(c) == d
  {
    var y := YearOf(d, 0);
    YearHasTwelveMonths(y);
    YearInRange(d, y);
    var r := d - DaysBeforeYear(y);
    var m := MonthOf(y, r, 1);
    Date(y, m, r - DaysBeforeMonth(y, m) + 1)
  }

  /** "YYYY-MM-DD". */
  function DateText(c: Date): (s: string)
    ensures |s| == 10
  {
    Pad(c.year, 4) + ("-" + (Pad(c.month, 2) + ("-" + Pad(c.day, 2))))
  }

  lemma SameFront(p: string, x: string, y: string)
    ensures LexLess(p + x, p + y) <==> LexLess(x, y)
  {
    LexBlocks(p, x, p, y);
    LexTotal(p, p);
  }

  /** A padded number, a separator and the rest are compared in that order. */
  lemma FieldOrder(a: nat, b: nat, w: nat, sep: string, x: string, y: string)
    requires a < Pow10(w) && b < Pow10(w)
    ensures LexLess(Pad(a, w) + (sep + x), Pad(b, w) + (sep + y)) <==> a < b || (a == b && LexLess(x, y))
  {
    PadOrder(a, b, w);
    LexBlocks(Pad(a, w), sep + x, Pad(b, w), sep + y);
    SameFront(sep, x, y);
  }

  lemma DayInsideYear(c: Date)
    requires ValidDate(c)
    ensures DayNumber(c) < DaysBeforeYear(c.year + 1)
  {
    YearHasTwelveMonths(c.year);
    MonthsGrow(c.year, c.month + 1, 13);
  }

  lemma LaterYear(c: Date, d: Date)
    requires ValidDate(c) && ValidDate(d) && c.year > d.year
    ensures DayNumber(c) > DayNumber(d)
  {
    DayInsideYear(d);
    YearsGrow(d.year + 1, c.year);
  }

  lemma LaterMonth(c: Date, d: Date)
    requires ValidDate(c) && ValidDate(d) && c.year == d.year && c.month > d.month
    ensures DayNumber(c) > DayNumber(d)
  {
    assert DaysBeforeMonth(d.year, d.month + 1) == DaysBeforeMonth(d.year, d.month) + MonthDays(d.year, d.month);
    MonthsGrow(c.year, d.month + 1, c.month);
  }

  /** A later day has a later date: by year, then month, then day. */
  lemma EarlierDate(a: Day, b: Day)
    requires a < b
    ensures var c, d := DateOf(a), DateOf(b);
      || c.year < d.year
      || (c.year == d.year && (c.month < d.month || (c.month == d.month && c.day < d.day)))
  {
    hide DaysBeforeYear, DaysBeforeMonth, DateOf;
    var c, d := DateOf(a), DateOf(b);
    if c.year > d.year {
      LaterYear(c, d);
    } else if c.year == d.year && c.month > d.month {
      LaterMonth(c, d);
    }
  }

  lemma DateTextOrder(c: Date, d: Date)
    requires ValidDate(c) && ValidDate(d)
    ensures LexLess(DateText(c), DateText(d)) <==>
      || c.year < d.year
      || (c.year == d.year && (c.month < d.month || (c.month == d.month && c.day < d.day)))
  {
    assert Pow10(2) == 100 && Pow10(4) == 10_000;
    var x, y := Pad(c.month, 2) + ("-" + Pad(c.day, 2)), Pad(d.month, 2) + ("-" + Pad(d.day, 2));
    FieldOrder(c.year, d.year, 4, "-", x, y);
    FieldOrder(c.month, d.month, 2, "-", Pad(c.day, 2), Pad(d.day, 2));
    PadOrder(c.day, d.day, 2);
  }

  type ClockSecond = s: nat | s < 86_400 witness 0

  /** "hh:mm:ss". */
  function ClockText(s: ClockSecond): (r: string)
    ensures |r| == 8
  {
    Pad(s / 3600, 2) + (":" + (Pad(s % 3600 / 60, 2) + (":" + Pad(s % 60, 2))))
  }

  lemma EarlierClockText(a: ClockSecond, b: ClockSecond)
    requires a < b
    ensures LexLess(ClockText(a), ClockText(b))
  {
    hide LexLess, Pad;
    assert Pow10(2) == 100;
    var h, k := a / 3600, b / 3600;
    var m, n := a % 3600 / 60, b % 3600 / 60;
    assert a % 60 == a - 3600 * h - 60 * m && b % 60 == b - 3600 * k - 60 * n;
    FieldOrder(h, k, 2, ":", Pad(m, 2) + (":" + Pad(a % 60, 2)), Pad(n, 2) + (":" + Pad(b % 60, 2)));
    FieldOrder(m, n, 2, ":", Pad(a % 60, 2), Pad(b % 60, 2));
    PadOrder(a % 60, b % 60, 2);
  }

  // ---- Instants ----

  const END_SECOND: nat := END_DAY * DAY_SECONDS

  const END: nat := END_SECOND * NANOS

  type Second = s: nat | s < END_SECOND witness 0

  type Instant = t: nat | t < END witness 0

  function SecondOf(t: Instant): Second {
    t / NANOS
  }

  /** "YYYY-MM-DDThh:mm:ss", common to both layouts. */
  function Head(s: Second): (r: string)
    ensures |r| == 19
  {
    DateText(DateOf(s / DAY_SECONDS)) + ("T" + ClockText(s % DAY_SECONDS))
  }

  /** The layout without fractions of a second. */
  function Rfc3339(t: Instant): string {
    Head(SecondOf(t)) + "Z"
  }

  /** Days and dates are each other's inverse. */
  lemma DateOfDayNumber(c: Date)
    requires ValidDate(c)
    ensures DayNumber(c) < END_DAY && DateOf(DayNumber(c)) == c
  {
    hide DaysBeforeYear, DaysBeforeMonth, DateOf;
    DaysBeforeYearClosed(10_000);
    DayInsideYear(c);
    YearsGrow(c.year + 1, 10_000);
    var d := DateOf(DayNumber(c));
    if c.year != d.year {
      if c.year > d.year {
        LaterYear(c, d);
      } else {
        LaterYear(d, c);
      }
    } else if c.month > d.month {
      LaterMonth(c, d);
    } else if d.month > c.month {
      LaterMonth(d, c);
    }
  }

  /** `text` has the `w` digits of `n` from `at` on. */
  predicate Shows(text: string, at: nat, n: nat, w: nat) {
    at + w <= |text| && text[at..at + w] == Pad(n, w)
  }

  lemma DateTextShows(c: Date)
    ensures var s := DateText(c);
      Shows(s, 0, c.year, 4) && s[4] == '-' && Shows(s, 5, c.month, 2) && s[7] == '-' && Shows(s, 8, c.day, 2)
  {
    hide Pad;
  }

  lemma ClockTextShows(m: ClockSecond)
    ensures var s := ClockText(m);
      Shows(s, 0, m / 3600, 2) && s[2] == ':' && Shows(s, 3, m % 3600 / 60, 2) && s[5] == ':' && Shows(s, 6, m % 60, 2)
  {
    hide Pad;
  }

  lemma ShowsWithin(text: string, part: string, off: nat, at: nat, n: nat, w: nat)
    requires off + |part| <= |text| && text[off..off + |part|] == part && Shows(part, at, n, w)
    ensures Shows(text, off + at, n, w)
  {
    hide Pad;
    var a, b := text[off + at..off + at + w], part[at..at + w];
    assert forall i :: 0 <= i < |part| ==> part[i] == text[off + i];
    assert forall i :: 0 <= i < w ==> b[i] == part[at + i] && a[i] == b[i];
  }

  lemma ClockParts(day: nat, hour: nat, minute: nat, second: nat)
    requires hour < 24 && minute < 60 && second < 60
    ensures var s := day * DAY_SECONDS + hour * 3600 + minute * 60 + second;
      && s / DAY_SECONDS == day && s % DAY_SECONDS == hour * 3600 + minute * 60 + second
    ensures var m := hour * 3600 + minute * 60 + second;
      && m < DAY_SECONDS && m / 3600 == hour && m % 3600 / 60 == minute && m % 60 == second
  {
  }

  /** The text of an instant shows its date, hour, minute and second in UTC, in the places that RFC 3339 gives them. */
  lemma Rfc3339Shows(c: Date, hour: nat, minute: nat, second: nat, nanos: nat)
    requires ValidDate(c) && hour < 24 && minute < 60 && second < 60 && nanos < NANOS
    ensures
      var t := (DayNumber(c) * DAY_SECONDS + hour * 3600 + minute * 60 + second) * NANOS + nanos;
      && t < END
      && var text := Rfc3339(t);
         && |text| == 20
         && Shows(text, 0, c.year, 4) && Shows(text, 5, c.month, 2) && Shows(text, 8, c.day, 2)
         && Shows(text, 11, hour, 2) && Shows(text, 14, minute, 2) && Shows(text, 17, second, 2)
         && text[4] == '-' && text[7] == '-' && text[10] == 'T' && text[13] == ':' && text[16] == ':' && text[19] == 'Z'
  {
    hide DayNumber, ValidDate, DateOf, Pad, DateText, ClockText, Shows;
    DateOfDayNumber(c);
    ClockParts(DayNumber(c), hour, minute, second);
    var m := hour * 3600 + minute * 60 + second;
    var s := DayNumber(c) * DAY_SECONDS + m;
    var t := s * NANOS + nanos;
    assert t / NANOS == s;
    var d, k := DateText(c), ClockText(m);
    var text := Rfc3339(t);
    assert text == (d + ("T" + k)) + "Z";
    TextParts(d, k, text);
    DateTextShows(c);
    ClockTextShows(m);
    ShowsWithin(text, d, 0, 0, c.year, 4);
    ShowsWithin(text, d, 0, 5, c.month, 2);
    ShowsWithin(text, d, 0, 8, c.day, 2);
    ShowsWithin(text, k, 11, 0, hour, 2);
    ShowsWithin(text, k, 11, 3, minute, 2);
    ShowsWithin(text, k, 11, 6, second, 2);
  }

  lemma TextParts(d: string, k: string, text: string)
    requires |d| == 10 && |k| == 8 && text == (d + ("T" + k)) + "Z"
    ensures |text| == 20 && text[0..10] == d && text[10] == 'T' && text[11..19] == k && text[19] == 'Z'
    ensures text[4] == d[4] && text[7] == d[7] && text[13] == k[2] && text[16] == k[5]
  {
  }

  lemma EarlierDateText(a: Day, b: Day)
    requires a < b
    ensures LexLess(DateText(DateOf(a)), DateText(DateOf(b)))
  {
    EarlierDate(a, b);
    DateTextOrder(DateOf(a), DateOf(b));
  }

  lemma HeadBlocks(c: string, x: string, d: string, y: string)
    requires |c| == |d|
    ensures LexLess(c + ("T" + x), d + ("T" + y)) <==> LexLess(c, d) || (c == d && LexLess(x, y))
  {
    LexBlocks(c, "T" + x, d, "T" + y);
    SameFront("T", x, y);
  }

  lemma EarlierDayAndClock(d: Day, m: ClockSecond, e: Day, n: ClockSecond)
    requires d < e || (d == e && m < n)
    ensures LexLess(DateText(DateOf(d)) + ("T" + ClockText(m)), DateText(DateOf(e)) + ("T" + ClockText(n)))
  {
    HeadBlocks(DateText(DateOf(d)), ClockText(m), DateText(DateOf(e)), ClockText(n));
    if d < e {
      EarlierDateText(d, e);
    } else {
      EarlierClockText(m, n);
    }
  }

  lemma EarlierHead(a: Second, b: Second)
    requires a < b
    ensures LexLess(Head(a), Head(b))
  {
    EarlierDayAndClock(a / DAY_SECONDS, a % DAY_SECONDS, b / DAY_SECONDS, b % DAY_SECONDS);
  }

  /** Heads are ordered, and told apart, exactly like whole seconds. */
  lemma HeadOrder(a: Second, b: Second)
    ensures LexLess(Head(a), Head(b)) <==> a < b
    ensures Head(a) == Head(b) <==> a == b
  {
    LexTotal(Head(a), Head(b));
    if a < b {
      EarlierHead(a, b);
    } else if b < a {
      EarlierHead(b, a);
    }
  }

  /** Byte order of the second-precision text is the order of whole seconds. */
  lemma Rfc3339Order(a: Instant, b: Instant)
    ensures LexLess(Rfc3339(a), Rfc3339(b)) <==> SecondOf(a) < SecondOf(b)
    ensures Rfc3339(a) == Rfc3339(b) <==> SecondOf(a) == SecondOf(b)
  {
    HeadOrder(SecondOf(a), SecondOf(b));
    LexBlocks(Head(SecondOf(a)), "Z", Head(SecondOf(b)), "Z");
    LexTotal("Z", "Z");
    assert Rfc3339(a)[..19] == Head(SecondOf(a)) && Rfc3339(b)[..19] == Head(SecondOf(b));
  }

  // ---- Fractions of a second ----

  /** Digits without their trailing zeros. */
  function TrimZeros(s: string): string {
    if s == "" then ""
    else
      var r := TrimZeros(s[1..]);
      if r == "" && s[0] == '0' then "" else [s[0]] + r
  }

  function Fraction(t: Instant): string {
    TrimZeros(Pad(t % NANOS, 9))
  }

  /** The layout with as many digits of a fraction as are needed. */
  function Rfc3339Nano(t: Instant): string {
    var f := Fraction(t);
    Head(SecondOf(t)) + ((if f == "" then "" else "." + f) + "Z")
  }

  /** What is cut off are zeros, and all of them. */
  lemma {:induction false} TrimmedZeros(s: string)
    ensures var r := TrimZeros(s);
      && |r| <= |s| && s[..|r|] == r && (forall i :: |r| <= i < |s| ==> s[i] == '0')
      && (r != "" ==> r[|r| - 1] != '0')
  {
    if s != "" {
      TrimmedZeros(s[1..]);
      assert s == [s[0]] + s[1..];
    }
  }

  /** The nanosecond text is the other one with a dot and a fraction before its `Z`, if there is a fraction. */
  lemma NanoText(t: Instant)
    ensures
      var text, short, f := Rfc3339Nano(t), Rfc3339(t), Fraction(t);
      && |short| == 20
      && (t % NANOS == 0 ==> text == short)
      && (t % NANOS != 0 ==> f != "" && text == short[..19] + "." + f + "Z")
      && f <= Pad(t % NANOS, 9) && (forall i :: |f| <= i < 9 ==> Pad(t % NANOS, 9)[i] == '0')
      && (f != "" ==> f[|f| - 1] != '0')
  {
    hide Pad, Head, TrimZeros;
    var f := Fraction(t);
    TrimmedZeros(Pad(t % NANOS, 9));
    assert Rfc3339(t)[..19] == Head(SecondOf(t));
    FractionIsNothingIff(t);
    assert Head(SecondOf(t)) + ("." + f + "Z") == Head(SecondOf(t)) + "." + f + "Z";
  }

  lemma FractionIsNothingIff(t: Instant)
    ensures Fraction(t) == "" <==> t % NANOS == 0
  {
    var n := t % NANOS;
    assert Pow10(3) == 1_000;
    assert Pow10(6) == 1_000 * Pow10(3);
    assert Pow10(9) == NANOS;
    PadOrder(0, n, 9);
    TrimmedZeros(Pad(n, 9));
    TrimmedZeros(Pad(0, 9));
    ZeroPad(9);
    assert Fraction(t) == "" ==> Pad(n, 9) == Pad(0, 9);
  }

  lemma {:induction false} ZeroPad(w: nat)
    ensures forall i :: 0 <= i < w ==> Pad(0, w)[i] == '0'
  {
    if w > 0 {
      ZeroPad(w - 1);
    }
  }

  /** Nanosecond text is ordered like time when the whole seconds differ. */
  lemma NanoOrderAcrossSeconds(a: Instant, b: Instant)
    requires SecondOf(a) != SecondOf(b)
    ensures LexLess(Rfc3339Nano(a), Rfc3339Nano(b)) <==> a < b
  {
    var f, g := Fraction(a), Fraction(b);
    var x, y := (if f == "" then "" else "." + f) + "Z", (if g == "" then "" else "." + g) + "Z";
    HeadOrder(SecondOf(a), SecondOf(b));
    LexBlocks(Head(SecondOf(a)), x, Head(SecondOf(b)), y);
  }

  ghost predicate Digits(s: string) {
    forall i :: 0 <= i < |s| ==> '0' <= s[i] <= '9'
  }

  lemma {:induction false} PadIsDigits(n: nat, w: nat)
    ensures Digits(Pad(n, w))
  {
    if w > 0 {
      PadIsDigits(n / 10, w - 1);
    }
  }

  lemma {:induction false} GreaterIsNotAllZeros(x: string, y: string)
    requires |x| == |y| && Digits(x) && Digits(y) && LexLess(x, y)
    ensures TrimZeros(y) != ""
    decreases |x|
  {
    if x != "" && x[0] == y[0] {
      GreaterIsNotAllZeros(x[1..], y[1..]);
    }
  }

  /** Trimming and closing with "Z" keeps the order of digits unless one trimmed text starts the other. */
  lemma {:induction false} TrimmedOrder(x: string, y: string)
    requires |x| == |y| && Digits(x) && Digits(y) && LexLess(x, y)
    ensures LexLess(TrimZeros(x) + "Z", TrimZeros(y) + "Z") <==> !(TrimZeros(x) < TrimZeros(y))
    ensures TrimZeros(x) != TrimZeros(y)
    decreases |x|
  {
    GreaterIsNotAllZeros(x, y);
    var tx, ty := TrimZeros(x), TrimZeros(y);
    if tx != "" {
      assert (tx + "Z")[1..] == tx[1..] + "Z" && (ty + "Z")[1..] == ty[1..] + "Z";
      if x[0] == y[0] {
        TrimmedOrder(x[1..], y[1..]);
        GreaterIsNotAllZeros(x[1..], y[1..]);
        assert tx[1..] == TrimZeros(x[1..]) && ty[1..] == TrimZeros(y[1..]);
        assert tx == [x[0]] + tx[1..] && ty == [y[0]] + ty[1..];
      }
    }
  }

  /**
   Within one second the text puts the earlier instant first unless its fraction is a
   proper prefix of the later one's; then it puts it last.
   */
  lemma NanoOrderWithinSecond(a: Instant, b: Instant)
    requires SecondOf(a) == SecondOf(b) && a < b
    ensures LexLess(Rfc3339Nano(a), Rfc3339Nano(b)) <==> !(Fraction(a) < Fraction(b))
    ensures LexLess(Rfc3339Nano(b), Rfc3339Nano(a)) <==> Fraction(a) < Fraction(b)
  {
    var f, g := Fraction(a), Fraction(b);
    var x, y := (if f == "" then "" else "." + f) + "Z", (if g == "" then "" else "." + g) + "Z";
    assert Pow10(9) == NANOS;
    PadOrder(a % NANOS, b % NANOS, 9);
    PadIsDigits(a % NANOS, 9);
    PadIsDigits(b % NANOS, 9);
    TrimmedOrder(Pad(a % NANOS, 9), Pad(b % NANOS, 9));
    GreaterIsNotAllZeros(Pad(a % NANOS, 9), Pad(b % NANOS, 9));
    SameFront(Head(SecondOf(a)), x, y);
    SameFront(Head(SecondOf(a)), y, x);
    if f != "" {
      assert x == "." + (f + "Z") && y == "." + (g + "Z");
      SameFront(".", f + "Z", g + "Z");
    }
    LexTotal(x, y);
  }
}
