/** Dates as `Date.prototype.toISOString` prints them, and the order of the printed texts. */
module IsoDates {
  import opened Bits
  import opened Decimal
  import opened TextOrder

  /** The times a date can hold. */
  predicate IsDate(t: int) { -MAX_TIME <= t <= MAX_TIME }

  // ---------------------------------------------------------------- the calendar

  function YearOf(t: int): (y: int)
    ensures YearStart(y) <= t < YearStart(y + 1)
  {
    YearFrom(t, if t < 0 then 1969 else 1970 + t / (365 * DAY))
  }

  /** Milliseconds since the year began. */
  function InYear(t: int): (r: nat)
    ensures r < 366 * DAY
  {
    YearLength(YearOf(t));
    t - YearStart(YearOf(t))
  }

  predicate LeapYear(y: int) { y % 4 == 0 && (y % 100 != 0 || y % 400 == 0) }

  /** Days of the year before month `m`, counted from 0. */
  function MonthStart(leap: bool, m: nat): nat
    requires m <= 12
  {
    [0, 31, 59, 90, 120, 151, 181, 212, 243, 273, 304, 334, 365][m] + (if leap && m >= 2 then 1 else 0)
  }

  function MonthFrom(leap: bool, day: nat, m: nat): (r: nat)
    requires m < 12 && day < MonthStart(leap, m + 1)
    ensures r < 12 && MonthStart(leap, r) <= day < MonthStart(leap, r + 1)
  {
    if MonthStart(leap, m) <= day then m else MonthFrom(leap, day, m - 1)
  }

  lemma FourYears(y: int)
    ensures (y - 1968) / 4 - (y - 1969) / 4 == if y % 4 == 0 then 1 else 0
  {}

  lemma Centuries(y: int)
    ensures (y - 1900) / 100 - (y - 1901) / 100 == if y % 100 == 0 then 1 else 0
  {}

  lemma FourCenturies(y: int)
    ensures (y - 1600) / 400 - (y - 1601) / 400 == if y % 400 == 0 then 1 else 0
  {}

  lemma MultiplesOfCenturies(y: int)
    ensures (y % 400 == 0 ==> y % 100 == 0) && (y % 100 == 0 ==> y % 4 == 0)
  {}

  lemma YearLength(y: int)
    ensures YearStart(y + 1) - YearStart(y) == DAY * (if LeapYear(y) then 366 else 365)
  {
    FourYears(y);
    Centuries(y);
    FourCenturies(y);
    MultiplesOfCenturies(y);
  }

  function DayOfYear(t: int): (d: nat)
    ensures d < if LeapYear(YearOf(t)) then 366 else 365
  {
    YearLength(YearOf(t));
    InYear(t) / DAY
  }

  function Month(t: int): (m: nat)
    ensures m < 12
  {
    MonthFrom(LeapYear(YearOf(t)), DayOfYear(t), 11)
  }

  function DayOfMonth(t: int): (d: nat)
    ensures d < 31
  {
    DayOfYear(t) - MonthStart(LeapYear(YearOf(t)), Month(t))
  }

  // ---------------------------------------------------------------- printing

  function Pow10(w: nat): (p: nat)
    ensures p > 0
  {
    if w == 0 then 1 else 10 * Pow10(w - 1)
  }

  /** `n` in `w` digits. */
  function Pad(n: nat, w: nat): (r: string)
    requires n < Pow10(w)
    ensures |r| == w
  {
    if w == 0 then ""
    else
      PadFits(n, Pow10(w - 1));
      [Digit(n / Pow10(w - 1))] + Pad(n % Pow10(w - 1), w - 1)
  }

  lemma PadFits(n: nat, p: nat)
    requires p > 0 && n < 10 * p
    ensures n / p < 10 && n % p < p
  {
    assert n == p * (n / p) + n % p;
    AtLeastTen(p, n / p);
  }

  lemma AtLeastTen(p: nat, q: nat)
    ensures q >= 10 ==> p * q >= 10 * p
  {}

  function YearText(y: int): string
    requires -1000000 < y < 1000000
  {
    if 0 <= y < 10000 then FourDigits(y) else if y > 0 then "+" + SixDigits(y) else "-" + SixDigits(-y)
  }

  function FourDigits(n: nat): (r: string)
    requires n < 10000
    ensures |r| == 4
  {
    assert Pow10(4) == 10000;
    Pad(n, 4)
  }

  function SixDigits(n: nat): (r: string)
    requires n < 1000000
    ensures |r| == 6
  {
    assert Pow10(3) == 1000 && Pow10(6) == 1000 * Pow10(3);
    Pad(n, 6)
  }

  function TwoDigits(n: nat): (r: string)
    requires n < 100
    ensures |r| == 2
  {
    assert Pow10(2) == 100;
    Pad(n, 2)
  }

  function ThreeDigits(n: nat): (r: string)
    requires n < 1000
    ensures |r| == 3
  {
    assert Pow10(3) == 1000;
    Pad(n, 3)
  }

  function SecondsText(u: nat): (r: string)
    ensures |r| == 8
  {
     ":" + TwoDigits(u / 1000 % 60) + ("." + ThreeDigits(u % 1000) + "Z")
  }

  /** Hours, minutes, seconds and milliseconds of a day. */
  function ClockText(u: nat): (r: string)
    requires u < DAY
    ensures |r| == 14
  {
    "T" + TwoDigits(u / 3600000) + (":" + TwoDigits(u / 60000 % 60) + SecondsText(u))
  }

  function DayText(t: int): (r: string)
    ensures |r| == 17
  {
    "-" + TwoDigits(DayOfMonth(t) + 1) + ClockText(InYear(t) % DAY)
  }

  function MonthText(t: int): (r: string)
    ensures |r| == 20
  {
    "-" + TwoDigits(Month(t) + 1) + DayText(t)
  }

  function IsoText(t: int): string
    requires IsDate(t)
  {
    YearIsPrintable(t);
    YearText(YearOf(t)) + MonthText(t)
  }

  lemma YearIsPrintable(t: int)
    requires IsDate(t)
    ensures -1000000 < YearOf(t) < 1000000
    ensures YearOf(t) < 0 <==> t < YEAR_0
    ensures YearOf(t) >= 10000 <==> t >= YEAR_10000
  {
    YearConstants();
    YearBelow(t, 0);
    YearBelow(t, 10000);
    YearBelow(t, 1000000);
    YearBelow(t, -999999);
  }

  lemma YearConstants()
    ensures YearStart(0) == YEAR_0 && YearStart(10000) == YEAR_10000
    ensures YearStart(-999999) < -MAX_TIME && MAX_TIME < YearStart(1000000)
  {}

  /** A date is in an earlier year than `z` just when it comes before the start of `z`. */
  lemma YearBelow(t: int, z: int)
    ensures YearOf(t) < z <==> t < YearStart(z)
  {
    if YearOf(t) < z { YearsGrow(YearOf(t) + 1, z); } else { YearsGrow(z, YearOf(t)); }
  }

  lemma {:induction false} YearsGrow(y: int, z: int)
    requires y <= z
    ensures YearStart(y) <= YearStart(z)
    decreases z - y
  {
    if y < z {
      YearLength(z - 1);
      YearsGrow(y, z - 1);
    }
  }

  // ---------------------------------------------------------------- the order of the texts

  /** Texts that start with parts of equal length compare by these parts first. */
  lemma {:induction false} ConcatOrder(a: string, s: string, b: string, t: string)
    requires |a| == |b|
    ensures TextLess(a + s, b + t) <==> TextLess(a, b) || (a == b && TextLess(s, t))
    ensures a + s == b + t <==> a == b && s == t
  {
    if a == "" {
      assert a + s == s && b + t == t;
    } else {
      assert (a + s)[1..] == a[1..] + s && (b + t)[1..] == b[1..] + t;
      assert a == [a[0]] + a[1..] && b == [b[0]] + b[1..];
      ConcatOrder(a[1..], s, b[1..], t);
      assert a + s == [a[0]] + (a + s)[1..] && b + t == [b[0]] + (b + t)[1..];
      TextOrderIsTotal(a, b);
    }
  }

  lemma DigitOrder(d: nat, e: nat)
    requires d < 10 && e < 10
    ensures TextLess([Digit(d)], [Digit(e)]) <==> d < e
    ensures [Digit(d)] == [Digit(e)] <==> d == e
  {
    assert [Digit(d)][0] == Digit(d) && [Digit(e)][0] == Digit(e);
  }

  lemma FirstDigit(n: nat, w: nat)
    requires 0 < w && n < Pow10(w)
    ensures var p := Pow10(w - 1);
      n / p < 10 && n % p < p && Pad(n, w) == [Digit(n / p)] + Pad(n % p, w - 1)
  {
    PadFits(n, Pow10(w - 1));
  }

  /** Numbers of the same width compare as their digits do. */
  lemma {:induction false} PadOrder(m: nat, n: nat, w: nat)
    requires m < Pow10(w) && n < Pow10(w)
    ensures TextLess(Pad(m, w), Pad(n, w)) <==> m < n
    ensures Pad(m, w) == Pad(n, w) <==> m == n
    decreases w
  {
    if w > 0 {
      var p := Pow10(w - 1);
      FirstDigit(m, w);
      FirstDigit(n, w);
      PadOrder(m % p, n % p, w - 1);
      LeadingDigit(m, n, p);
      DigitOrder(m / p, n / p);
      ConcatOrder([Digit(m / p)], Pad(m % p, w - 1), [Digit(n / p)], Pad(n % p, w - 1));
    }
  }

  lemma Divided(n: nat, p: nat) returns (q: nat, r: nat)
    requires p > 0
    ensures q == n / p && r == n % p && n == p * q + r && r < p
  {
    q, r := n / p, n % p;
  }

  lemma LeadingDigit(m: nat, n: nat, p: nat)
    requires p > 0
    ensures m < n <==> m / p < n / p || (m / p == n / p && m % p < n % p)
    ensures m == n <==> m / p == n / p && m % p == n % p
  {
    var q, r := Divided(m, p);
    var s, t := Divided(n, p);
    ProductOrder(p, m, q, r, n, s, t);
  }

  lemma ProductOrder(p: nat, m: nat, q: nat, r: nat, n: nat, s: nat, t: nat)
    requires m == p * q + r && n == p * s + t && r < p && t < p
    ensures m < n <==> q < s || (q == s && r < t)
    ensures m == n <==> q == s && r == t
  {
    NextMultiple(p, q, s);
    NextMultiple(p, s, q);
  }

  lemma {:induction false} NextMultiple(p: nat, q: nat, r: nat)
    ensures q < r ==> p * q + p <= p * r
    decreases r
  {
    if q + 1 < r { NextMultiple(p, q, r - 1); }
  }

  lemma TwoDigitOrder(m: nat, n: nat)
    requires m < 100 && n < 100
    ensures TextLess(TwoDigits(m), TwoDigits(n)) <==> m < n
    ensures TwoDigits(m) == TwoDigits(n) <==> m == n
  {
    assert Pow10(2) == 100;
    PadOrder(m, n, 2);
  }

  lemma ThreeDigitOrder(m: nat, n: nat)
    requires m < 1000 && n < 1000
    ensures TextLess(ThreeDigits(m), ThreeDigits(n)) <==> m < n
    ensures ThreeDigits(m) == ThreeDigits(n) <==> m == n
  {
    assert Pow10(3) == 1000;
    PadOrder(m, n, 3);
  }

  /** A separator, a field of equal width and the rest. */
  lemma FieldOrder(sep: string, a: string, s: string, b: string, t: string)
    requires |sep| == 1 && |a| == |b|
    ensures TextLess(sep + a + s, sep + b + t) <==> TextLess(a, b) || (a == b && TextLess(s, t))
    ensures sep + a + s == sep + b + t <==> a == b && s == t
  {
    ConcatOrder(sep, a, sep, b);
    ConcatOrder(sep + a, s, sep + b, t);
  }

  /** The fields of a time make up the time. */
  lemma SecondsSplit(u: nat)
    ensures u % 60000 == 1000 * (u / 1000 % 60) + u % 1000
  {
    var k := u / 1000;
    var q, x := k / 60, 1000 * (k % 60) + u % 1000;
    assert u == 1000 * k + u % 1000 && k == 60 * q + k % 60;
    Remainder(u, 60000, q, x);
  }

  lemma ClockSplit(u: nat)
    ensures u == 3600000 * (u / 3600000) + 60000 * (u / 60000 % 60) + u % 60000
  {
    var k := u / 60000;
    var q, x := k / 60, 60000 * (k % 60) + u % 60000;
    assert u == 60000 * k + u % 60000 && k == 60 * q + k % 60;
    Remainder(u, 3600000, q, x);
  }

  lemma SecondsOrder(u: nat, v: nat)
    ensures TextLess(SecondsText(u), SecondsText(v)) <==> u % 60000 < v % 60000
    ensures SecondsText(u) == SecondsText(v) <==> u % 60000 == v % 60000
  {
    var s, s' := u / 1000 % 60, v / 1000 % 60;
    var m, m' := u % 1000, v % 1000;
    SecondsSplit(u);
    SecondsSplit(v);
    TwoDigitOrder(s, s');
    ThreeDigitOrder(m, m');
    LastField(ThreeDigits(m), ThreeDigits(m'));
    FieldOrder(":", TwoDigits(s), "." + ThreeDigits(m) + "Z", TwoDigits(s'), "." + ThreeDigits(m') + "Z");
  }

  lemma LastField(a: string, b: string)
    requires |a| == |b|
    ensures TextLess("." + a + "Z", "." + b + "Z") <==> TextLess(a, b)
    ensures "." + a + "Z" == "." + b + "Z" <==> a == b
  {
    FieldOrder(".", a, "Z", b, "Z");
    TextOrderIsTotal("Z", "Z");
  }

  lemma MinutesOrder(u: nat, v: nat)
    ensures var s, t := ":" + TwoDigits(u / 60000 % 60) + SecondsText(u), ":" + TwoDigits(v / 60000 % 60) + SecondsText(v);
      var m, n := u / 60000 % 60, v / 60000 % 60;
      && (TextLess(s, t) <==> m < n || (m == n && u % 60000 < v % 60000))
      && (s == t <==> m == n && u % 60000 == v % 60000)
  {
    var m, n := u / 60000 % 60, v / 60000 % 60;
    SecondsOrder(u, v);
    TwoDigitOrder(m, n);
    FieldOrder(":", TwoDigits(m), SecondsText(u), TwoDigits(n), SecondsText(v));
  }

  lemma ClockOrder(u: nat, v: nat)
    requires u < DAY && v < DAY
    ensures TextLess(ClockText(u), ClockText(v)) <==> u < v
    ensures ClockText(u) == ClockText(v) <==> u == v
  {
    var h, h' := u / 3600000, v / 3600000;
    MinutesOrder(u, v);
    TwoDigitOrder(h, h');
    FieldOrder("T", TwoDigits(h), ":" + TwoDigits(u / 60000 % 60) + SecondsText(u),
               TwoDigits(h'), ":" + TwoDigits(v / 60000 % 60) + SecondsText(v));
    ClockLess(u, v);
  }

  lemma ClockLess(u: nat, v: nat)
    ensures var h, h', m, m' := u / 3600000, v / 3600000, u / 60000 % 60, v / 60000 % 60;
      && (u < v <==> h < h' || (h == h' && (m < m' || (m == m' && u % 60000 < v % 60000))))
      && (u == v <==> h == h' && m == m' && u % 60000 == v % 60000)
  {
    ClockSplit(u);
    ClockSplit(v);
  }

  lemma MonthsGrow(leap: bool, m: nat, n: nat)
    requires m <= n <= 12
    ensures MonthStart(leap, m) <= MonthStart(leap, n)
  {}

  /** Within a year, month and day of the month compare as the day of the year does. */
  lemma DayOrder(a: int, b: int)
    requires YearOf(a) == YearOf(b)
    ensures DayOfYear(a) < DayOfYear(b) <==> Month(a) < Month(b) || (Month(a) == Month(b) && DayOfMonth(a) < DayOfMonth(b))
    ensures DayOfYear(a) == DayOfYear(b) <==> Month(a) == Month(b) && DayOfMonth(a) == DayOfMonth(b)
  {
    var leap := LeapYear(YearOf(a));
    if Month(a) < Month(b) {
      MonthsGrow(leap, Month(a) + 1, Month(b));
    } else if Month(b) < Month(a) {
      MonthsGrow(leap, Month(b) + 1, Month(a));
    }
  }

  lemma DayTextOrder(a: int, b: int)
    ensures var d, e, u, v := DayOfMonth(a), DayOfMonth(b), InYear(a) % DAY, InYear(b) % DAY;
      && (TextLess(DayText(a), DayText(b)) <==> d < e || (d == e && u < v))
      && (DayText(a) == DayText(b) <==> d == e && u == v)
  {
    TwoDigitOrder(DayOfMonth(a) + 1, DayOfMonth(b) + 1);
    ClockOrder(InYear(a) % DAY, InYear(b) % DAY);
    FieldOrder("-", TwoDigits(DayOfMonth(a) + 1), ClockText(InYear(a) % DAY),
               TwoDigits(DayOfMonth(b) + 1), ClockText(InYear(b) % DAY));
  }

  lemma DaysSplit(u: nat, v: nat)
    ensures u < v <==> u / DAY < v / DAY || (u / DAY == v / DAY && u % DAY < v % DAY)
    ensures u == v <==> u / DAY == v / DAY && u % DAY == v % DAY
  {
    assert u == DAY * (u / DAY) + u % DAY && v == DAY * (v / DAY) + v % DAY;
  }

  /** Within a year, the texts after the year compare as the times do. */
  lemma MonthTextOrder(a: int, b: int)
    requires YearOf(a) == YearOf(b)
    ensures TextLess(MonthText(a), MonthText(b)) <==> a < b
    ensures MonthText(a) == MonthText(b) <==> a == b
  {
    TwoDigitOrder(Month(a) + 1, Month(b) + 1);
    DayTextOrder(a, b);
    FieldOrder("-", TwoDigits(Month(a) + 1), DayText(a), TwoDigits(Month(b) + 1), DayText(b));
    DayOrder(a, b);
    DaysSplit(InYear(a), InYear(b));
    assert DayOfYear(a) == InYear(a) / DAY && DayOfYear(b) == InYear(b) / DAY;
    assert a - b == InYear(a) - InYear(b);
  }

  // ---------------------------------------------------------------- years

  lemma YearOrder(a: int, b: int)
    ensures a < b <==> YearOf(a) < YearOf(b) || (YearOf(a) == YearOf(b) && a < b)
    ensures a == b ==> YearOf(a) == YearOf(b)
  {
    if YearOf(a) < YearOf(b) { YearsGrow(YearOf(a) + 1, YearOf(b)); }
    if YearOf(b) < YearOf(a) { YearsGrow(YearOf(b) + 1, YearOf(a)); }
  }

  lemma YearIsUnique(t: int, y: int)
    requires YearStart(y) <= t < YearStart(y + 1)
    ensures y == YearOf(t)
  {
    if y < YearOf(t) { YearsGrow(y + 1, YearOf(t)); }
    if YearOf(t) < y { YearsGrow(YearOf(t) + 1, y); }
  }

  lemma NegatedYearIs(t: int)
    requires IsDate(t)
    ensures NegatedYear(t) == if YearOf(t) < 0 then -YearOf(t) else 0
  {
    YearIsPrintable(t);
    YearConstants();
    if t < YEAR_0 { YearIsUnique(t, YearFrom(t, -1)); }
  }

  /** Years of one sign have texts of one length, which compare by the digits. */
  lemma YearTextOrder(y: int, z: int)
    requires -1000000 < y < 1000000 && -1000000 < z < 1000000
    requires (y < 0 <==> z < 0) && (y >= 10000 <==> z >= 10000)
    ensures |YearText(y)| == |YearText(z)|
    ensures TextLess(YearText(y), YearText(z)) <==> if y < 0 then z < y else y < z
    ensures YearText(y) == YearText(z) <==> y == z
  {
    if 0 <= y < 10000 {
      assert Pow10(4) == 10000;
      PadOrder(y, z, 4);
    } else {
      assert Pow10(3) == 1000 && Pow10(6) == 1000 * Pow10(3);
      var m, n := if y < 0 then -y else y, if y < 0 then -z else z;
      PadOrder(m, n, 6);
      var sign := if y < 0 then "-" else "+";
      ConcatOrder(sign, SixDigits(m), sign, SixDigits(n));
      TextOrderIsTotal(sign, sign);
    }
  }

  /** The first character is the sign or a digit. */
  lemma YearStartsWith(y: int)
    requires -1000000 < y < 1000000
    ensures YearText(y) != ""
    ensures y < 0 ==> YearText(y)[0] == '-'
    ensures y >= 10000 ==> YearText(y)[0] == '+'
    ensures 0 <= y < 10000 ==> YearText(y)[0] >= '0'
  {
    if 0 <= y < 10000 { assert IsDigit(FourDigits(y)[0]); }
  }

  /** The texts of two dates compare exactly as `DateLess` says, and differ for different dates. */
  lemma IsoOrder(a: int, b: int)
    requires IsDate(a) && IsDate(b)
    ensures TextLess(IsoText(a), IsoText(b)) <==> DateLess(a, b)
    ensures IsoText(a) == IsoText(b) <==> a == b
  {
    YearIsPrintable(a);
    YearIsPrintable(b);
    if Sign(a) == Sign(b) {
      SameSignOrder(a, b);
    } else {
      YearStartsWith(YearOf(a));
      YearStartsWith(YearOf(b));
      assert IsoText(a)[0] == YearText(YearOf(a))[0] && IsoText(b)[0] == YearText(YearOf(b))[0];
    }
  }

  lemma SameSignOrder(a: int, b: int)
    requires IsDate(a) && IsDate(b) && Sign(a) == Sign(b)
    ensures TextLess(IsoText(a), IsoText(b)) <==> DateLess(a, b)
    ensures IsoText(a) == IsoText(b) <==> a == b
  {
    YearIsPrintable(a);
    YearIsPrintable(b);
    NegatedYearIs(a);
    NegatedYearIs(b);
    YearOrder(a, b);
    YearOrder(b, a);
    YearTextOrder(YearOf(a), YearOf(b));
    ConcatOrder(YearText(YearOf(a)), MonthText(a), YearText(YearOf(b)), MonthText(b));
    if YearOf(a) == YearOf(b) { MonthTextOrder(a, b); }
  }
}
