/**
 Timestamps as the server writes them: UTC, four-digit years, milliseconds, in the profile of
 section 5.6 of RFC 3339. Comparing two as text is comparing the instants they name.
 */
module Timestamps {
  import Text
  import Units
  import R = Reads
  import MS = MemoryStore

  datatype Civil = Civil(year: nat, month: nat, day: nat, hour: nat, minute: nat, second: nat, milli: nat)

  predicate IsLeap(y: nat) {
    y % 4 == 0 && (y % 100 != 0 || y % 400 == 0)
  }

  function MonthLength(y: nat, m: nat): nat {
    if m == 2 then (if IsLeap(y) then 29 else 28)
    else if m in {4, 6, 9, 11} then 30
    else 31
  }

  predicate Valid(c: Civil) {
    && c.year <= 9999 && 1 <= c.month <= 12 && 1 <= c.day <= MonthLength(c.year, c.month)
    && c.hour < 24 && c.minute < 60 && c.second < 60 && c.milli < 1000
  }

  /** Days from the start of year zero to the first of month `m`. */
  function DaysToMonth(y: nat, m: nat): nat
    requires 1 <= m <= 13
    decreases y, m
  {
    if m > 1 then DaysToMonth(y, m - 1) + MonthLength(y, m - 1)
    else if y > 0 then DaysToMonth(y - 1, 13)
    else 0
  }

  function SecondOfDay(c: Civil): nat {
    c.hour * 3600 + c.minute * 60 + c.second
  }

  /** Whole seconds from the start of year zero. */
  function Seconds(c: Civil): nat
    requires Valid(c)
  {
    (DaysToMonth(c.year, c.month) + c.day - 1) * 86400 + SecondOfDay(c)
  }

  /** Milliseconds from the start of year zero. */
  function Instant(c: Civil): nat
    requires Valid(c)
  {
    Seconds(c) * 1000 + c.milli
  }

  // ---- The calendar is the Gregorian one -----------------------------------------

  function Quotient(a: nat, b: nat): nat
    requires b > 0
  {
    a / b
  }

  /** Days before a year: 365 for each before it, and one for each leap year, every fourth but centuries not by 400. */
  lemma {:induction false} YearStart(y: nat)
    ensures DaysToMonth(y, 1) == 365 * y + Quotient(y + 3, 4) - Quotient(y + 99, 100) + Quotient(y + 399, 400)
  {
    if y > 0 {
      YearStart(y - 1);
      YearLength(y - 1);
      OneMore(y - 1, 4);
      OneMore(y - 1, 100);
      OneMore(y - 1, 400);
      FourHundred(y - 1);
    }
  }

  lemma OneMore(y: nat, b: nat)
    requires b > 0
    ensures Quotient(y + 1 + b - 1, b) == Quotient(y + b - 1, b) + (if y % b == 0 then 1 else 0)
  {
    var q, r := y / b, y % b;
    assert y == q * b + r;
    if r == 0 {
      DivUnique(y + b - 1, b, q, b - 1);
      DivUnique(y + b, b, q + 1, 0);
    } else {
      DivUnique(y + b - 1, b, q + 1, r - 1);
      DivUnique(y + b, b, q + 1, r);
    }
  }

  lemma DivUnique(a: nat, b: nat, q: nat, r: nat)
    requires b > 0 && a == q * b + r && r < b
    ensures a / b == q && a % b == r
  {
    var p, s := a / b, a % b;
    assert a == p * b + s;
    if p < q {
      Scaled(p + 1, q, b);
    } else if q < p {
      Scaled(q + 1, p, b);
    }
  }

  lemma Scaled(a: nat, b: nat, n: nat)
    requires a <= b
    ensures a * n <= b * n
  {
  }

  lemma FourHundred(y: nat)
    ensures y % 400 == 0 ==> y % 100 == 0
    ensures y % 100 == 0 ==> y % 4 == 0
  {
    if y % 400 == 0 {
      DivUnique(y, 100, 4 * (y / 400), 0);
    }
    if y % 100 == 0 {
      DivUnique(y, 4, 25 * (y / 100), 0);
    }
  }

  /** The months of a year, as days before each. */
  lemma MonthStarts(y: nat)
    ensures var start, leap := DaysToMonth(y, 1), if y % 4 == 0 && (y % 100 != 0 || y % 400 == 0) then 1 else 0;
            && DaysToMonth(y, 2) == start + 31 && DaysToMonth(y, 3) == start + 59 + leap
            && DaysToMonth(y, 4) == start + 90 + leap && DaysToMonth(y, 5) == start + 120 + leap
            && DaysToMonth(y, 6) == start + 151 + leap && DaysToMonth(y, 7) == start + 181 + leap
            && DaysToMonth(y, 8) == start + 212 + leap && DaysToMonth(y, 9) == start + 243 + leap
            && DaysToMonth(y, 10) == start + 273 + leap && DaysToMonth(y, 11) == start + 304 + leap
            && DaysToMonth(y, 12) == start + 334 + leap && DaysToMonth(y, 13) == start + 365 + leap
  {
  }

  lemma YearLength(y: nat)
    ensures DaysToMonth(y + 1, 1) == DaysToMonth(y, 1) + 365
                                     + if y % 4 == 0 && (y % 100 != 0 || y % 400 == 0) then 1 else 0
  {
    MonthStarts(y);
  }

  /** The instants count milliseconds: the epoch of 1970 is 719,528 days in, and a day is 86,400 seconds. */
  lemma Epoch(hour: nat, minute: nat, second: nat, milli: nat)
    requires hour < 24 && minute < 60 && second < 60 && milli < 1000
    ensures Instant(Civil(1970, 1, 1, hour, minute, second, milli))
         == 719_528 * 24 * 60 * 60 * 1000 + hour * 60 * 60 * 1000 + minute * 60 * 1000 + second * 1000 + milli
  {
    YearStart(1970);
    assert Quotient(1973, 4) == 493 && Quotient(2069, 100) == 20 && Quotient(2369, 400) == 5;
  }

  // ---- Text ---------------------------------------------------------------

  function Digit(d: nat): char
    requires d < 10
  {
    '0' + d as char
  }

  function Pow10(w: nat): nat {
    if w == 0 then 1 else 10 * Pow10(w - 1)
  }

  function Pad(n: nat, w: nat): (s: string)
    ensures |s| == w
  {
    if w == 0 then "" else Pad(n / 10, w - 1) + [Digit(n % 10)]
  }

  datatype Field = Field(value: nat, width: nat, after: string)

  /** The fields from position `i` on, each followed by its separator. */
  function Render(fields: seq<Field>, i: nat): string
    requires i <= |fields|
    decreases |fields| - i
  {
    if i == |fields| then ""
    else Pad(fields[i].value, fields[i].width) + fields[i].after + Render(fields, i + 1)
  }

  function Fields(c: Civil): seq<Field> {
    [Field(c.year, 4, "-"), Field(c.month, 2, "-"), Field(c.day, 2, "T"), Field(c.hour, 2, ":"),
     Field(c.minute, 2, ":"), Field(c.second, 2, "."), Field(c.milli, 3, "Z")]
  }

  /** `YYYY-MM-DDTHH:MM:SS.mmmZ` */
  function Stamp(c: Civil): string {
    Render(Fields(c), 0)
  }

  lemma {:induction false} PadOrder(a: nat, b: nat, w: nat)
    requires a < Pow10(w) && b < Pow10(w)
    ensures Text.Before(Pad(a, w), Pad(b, w)) <==> a < b
    ensures Pad(a, w) == Pad(b, w) <==> a == b
  {
    if w > 0 {
      PadOrder(a / 10, b / 10, w - 1);
      var x, y := [Digit(a % 10)], [Digit(b % 10)];
      var p, q := Pad(a / 10, w - 1), Pad(b / 10, w - 1);
      assert (p + x)[..w - 1] == p && (q + y)[..w - 1] == q;
      assert (p + x)[w - 1] == x[0] && (q + y)[w - 1] == y[0];
      if p == q {
        Text.BeforeSkipsPrefix(p, x, y);
        assert Text.Before(x, y) <==> x[0] < y[0];
      } else {
        Text.BeforeByHead(p, q, x, y);
      }
    }
  }

  ghost predicate SameShape(f: seq<Field>, g: seq<Field>) {
    |f| == |g| && forall i :: 0 <= i < |f| ==>
      && f[i].width == g[i].width && f[i].after == g[i].after
      && f[i].value < Pow10(f[i].width) && g[i].value < Pow10(g[i].width)
  }

  predicate Earlier(f: seq<Field>, g: seq<Field>, i: nat)
    requires i <= |f| == |g|
    decreases |f| - i
  {
    i < |f| && (f[i].value < g[i].value || (f[i].value == g[i].value && Earlier(f, g, i + 1)))
  }

  /** Fixed-width fields, most significant first, sort as text by their values. */
  lemma {:induction false} RenderOrder(f: seq<Field>, g: seq<Field>, i: nat)
    requires SameShape(f, g) && i <= |f|
    ensures Text.Before(Render(f, i), Render(g, i)) <==> Earlier(f, g, i)
    decreases |f| - i
  {
    if i < |f| {
      var p, q := Pad(f[i].value, f[i].width), Pad(g[i].value, g[i].width);
      var x, y := f[i].after + Render(f, i + 1), g[i].after + Render(g, i + 1);
      PadOrder(f[i].value, g[i].value, f[i].width);
      assert Render(f, i) == p + x && Render(g, i) == q + y;
      if p == q {
        RenderOrder(f, g, i + 1);
        Text.BeforeSkipsPrefix(p, x, y);
        Text.BeforeSkipsPrefix(f[i].after, Render(f, i + 1), Render(g, i + 1));
      } else {
        Text.BeforeByHead(p, q, x, y);
      }
    }
  }

  // ---- Calendar -----------------------------------------------------------

  lemma {:induction false} DaysGrowMonths(y: nat, m: nat, n: nat)
    requires 1 <= m <= n <= 13
    ensures DaysToMonth(y, m) <= DaysToMonth(y, n)
    ensures m < n ==> DaysToMonth(y, m) + MonthLength(y, m) <= DaysToMonth(y, n)
    decreases n
  {
    if m < n {
      DaysGrowMonths(y, m, n - 1);
    }
  }

  lemma {:induction false} DaysGrowYears(y: nat, z: nat)
    requires y < z
    ensures DaysToMonth(y, 13) <= DaysToMonth(z, 1)
    decreases z
  {
    if y + 1 < z {
      DaysGrowYears(y, z - 1);
      DaysGrowMonths(z - 1, 1, 13);
    }
  }

  ghost predicate EarlierCivil(a: Civil, b: Civil) {
    Earlier(Fields(a), Fields(b), 0)
  }

  predicate EarlierDay(a: Civil, b: Civil) {
    a.year < b.year || (a.year == b.year && (a.month < b.month || (a.month == b.month && a.day < b.day)))
  }

  predicate SameDay(a: Civil, b: Civil) {
    a.year == b.year && a.month == b.month && a.day == b.day
  }

  lemma EarlierSplits(a: Civil, b: Civil)
    ensures EarlierCivil(a, b) <==>
            EarlierDay(a, b) ||
            (SameDay(a, b) && (a.hour < b.hour || (a.hour == b.hour && (a.minute < b.minute ||
             (a.minute == b.minute && (a.second < b.second || (a.second == b.second && a.milli < b.milli)))))))
  {
    var f, g := Fields(a), Fields(b);
    assert Earlier(f, g, 6) <==> a.milli < b.milli;
    assert Earlier(f, g, 5) <==> a.second < b.second || (a.second == b.second && Earlier(f, g, 6));
    assert Earlier(f, g, 4) <==> a.minute < b.minute || (a.minute == b.minute && Earlier(f, g, 5));
    assert Earlier(f, g, 3) <==> a.hour < b.hour || (a.hour == b.hour && Earlier(f, g, 4));
    assert Earlier(f, g, 2) <==> a.day < b.day || (a.day == b.day && Earlier(f, g, 3));
    assert Earlier(f, g, 1) <==> a.month < b.month || (a.month == b.month && Earlier(f, g, 2));
  }

  lemma EarlierDayEarlierInstant(a: Civil, b: Civil)
    requires Valid(a) && Valid(b) && EarlierDay(a, b)
    ensures DaysToMonth(a.year, a.month) + a.day - 1 < DaysToMonth(b.year, b.month) + b.day - 1
  {
    if a.year < b.year {
      DaysGrowMonths(a.year, a.month, 13);
      DaysGrowYears(a.year, b.year);
      DaysGrowMonths(b.year, 1, b.month);
    } else {
      DaysGrowMonths(a.year, a.month, b.month);
    }
  }

  lemma EarlierInstant(a: Civil, b: Civil)
    requires Valid(a) && Valid(b) && EarlierCivil(a, b)
    ensures Instant(a) < Instant(b)
  {
    EarlierSplits(a, b);
    if EarlierDay(a, b) {
      EarlierDayEarlierInstant(a, b);
    }
  }

  lemma EarlierTotal(a: Civil, b: Civil)
    ensures EarlierCivil(a, b) || EarlierCivil(b, a) || a == b
  {
    EarlierSplits(a, b);
    EarlierSplits(b, a);
  }

  /** The property the store rests on: text order is time order. */
  lemma StampOrder(a: Civil, b: Civil)
    requires Valid(a) && Valid(b)
    ensures Text.Before(Stamp(a), Stamp(b)) <==> Instant(a) < Instant(b)
    ensures Stamp(a) == Stamp(b) <==> Instant(a) == Instant(b)
  {
    assert Pow10(2) == 100 && Pow10(3) == 1000 && Pow10(4) == 10000;
    RenderOrder(Fields(a), Fields(b), 0);
    RenderOrder(Fields(b), Fields(a), 0);
    Text.BeforeTotal(Stamp(a), Stamp(b));
    EarlierTotal(a, b);
    if EarlierCivil(a, b) {
      EarlierInstant(a, b);
    } else if EarlierCivil(b, a) {
      EarlierInstant(b, a);
    }
  }

  // ---- Sweeps and queries -------------------------------------------------

  /** A sweep drops a read exactly if its instant precedes the cutoff's. */
  lemma SweepByInstant(r: R.Read, at: Civil, cutoff: Civil)
    requires Valid(at) && Valid(cutoff) && r.at == Stamp(at)
    ensures R.StampedBefore(Stamp(cutoff))(r) <==> Instant(at) < Instant(cutoff)
  {
    StampOrder(at, cutoff);
  }

  /** A query over stamped bounds answers with the closed interval of instants. */
  lemma SpanByInstant(r: R.Read, at: Civil, start: Civil, end: Civil)
    requires Valid(at) && Valid(start) && Valid(end) && r.at == Stamp(at)
    ensures MS.Within(MS.TimeSpan(Stamp(start), Stamp(end)))(r) <==> Instant(start) <= Instant(at) <= Instant(end)
  {
    StampOrder(at, start);
    StampOrder(end, at);
  }

  // ---- Bounds written without a fraction -----------------------------------

  function Whole(c: Civil): seq<Field> {
    [Field(c.year, 4, "-"), Field(c.month, 2, "-"), Field(c.day, 2, "T"), Field(c.hour, 2, ":"),
     Field(c.minute, 2, ":"), Field(c.second, 2, "")]
  }

  function Head(c: Civil): string {
    Render(Whole(c), 0)
  }

  /** `YYYY-MM-DDTHH:MM:SSZ`, the form a caller is invited to write a bound in. */
  function Plain(c: Civil): string {
    Head(c) + "Z"
  }

  predicate SameSecond(a: Civil, b: Civil) {
    a.(milli := 0) == b.(milli := 0)
  }

  lemma HeadLength(c: Civil)
    ensures |Head(c)| == 19
  {
    var w := Whole(c);
    assert |Render(w, 5)| == 2;
    assert |Render(w, 4)| == 5;
    assert |Render(w, 3)| == 8;
    assert |Render(w, 2)| == 11;
    assert |Render(w, 1)| == 14;
  }

  lemma StampHead(c: Civil)
    ensures Stamp(c) == Head(c) + ("." + Pad(c.milli, 3) + "Z")
  {
    var f, w, tail := Fields(c), Whole(c), "." + Pad(c.milli, 3) + "Z";
    assert Render(f, 6) == Pad(c.milli, 3) + "Z";
    assert Render(f, 5) == Render(w, 5) + tail;
    assert Render(f, 4) == Render(w, 4) + tail;
    assert Render(f, 3) == Render(w, 3) + tail;
    assert Render(f, 2) == Render(w, 2) + tail;
    assert Render(f, 1) == Render(w, 1) + tail;
  }

  lemma HeadOrder(a: Civil, b: Civil)
    requires Valid(a) && Valid(b)
    ensures Text.Before(Head(a), Head(b)) <==> Instant(a.(milli := 0)) < Instant(b.(milli := 0))
    ensures Head(a) == Head(b) <==> SameSecond(a, b)
  {
    var a', b' := a.(milli := 0), b.(milli := 0);
    var zero := "." + Pad(0, 3) + "Z";
    StampHead(a');
    StampHead(b');
    StampOrder(a', b');
    HeadLength(a);
    HeadLength(b);
    assert Head(a') == Head(a) && Head(b') == Head(b);
    if Head(a) == Head(b) {
      Text.BeforeTotal(Head(a), Head(b));
      EarlierTotal(a', b');
      if a' != b' {
        if EarlierCivil(a', b') {
          EarlierInstant(a', b');
        } else {
          EarlierInstant(b', a');
        }
      }
    } else {
      Text.BeforeByHead(Head(a), Head(b), zero, zero);
    }
  }

  /** A bound without a fraction sorts after every stamp of its own second. */
  lemma PlainOrder(a: Civil, b: Civil)
    requires Valid(a) && Valid(b)
    ensures Text.Before(Plain(a), Stamp(b)) <==> Instant(a.(milli := 0)) < Instant(b.(milli := 0))
    ensures Text.Before(Stamp(b), Plain(a)) <==> Instant(b.(milli := 0)) <= Instant(a.(milli := 0))
  {
    var tail := "." + Pad(b.milli, 3) + "Z";
    StampHead(b);
    HeadOrder(a, b);
    HeadOrder(b, a);
    HeadLength(a);
    HeadLength(b);
    if Head(a) == Head(b) {
      Text.BeforeSkipsPrefix(Head(a), "Z", tail);
      Text.BeforeSkipsPrefix(Head(a), tail, "Z");
      assert tail[0] == '.';
    } else {
      Text.BeforeByHead(Head(a), Head(b), "Z", tail);
      Text.BeforeByHead(Head(b), Head(a), tail, "Z");
      Text.BeforeTotal(Head(a), Head(b));
    }
  }

  lemma SecondsApart(a: Civil, b: Civil)
    requires Valid(a) && Valid(b)
    ensures SameSecond(a, b) <==> Seconds(a) == Seconds(b)
  {
    var a', b' := a.(milli := 0), b.(milli := 0);
    assert Seconds(a') == Seconds(a) && Seconds(b') == Seconds(b);
    EarlierTotal(a', b');
    if EarlierCivil(a', b') {
      EarlierInstant(a', b');
    } else if EarlierCivil(b', a') {
      EarlierInstant(b', a');
    }
  }

  lemma ThousandsDecide(x: nat, y: nat, m: nat)
    requires m < 1000
    ensures x * 1000 < y * 1000 + m <==> x < y || (x == y && m > 0)
    ensures y * 1000 + m < x * 1000 <==> y < x
  {
  }

  /** Milliseconds decide nothing between different seconds. */
  lemma SecondTells(a: Civil, b: Civil)
    requires Valid(a) && Valid(b) && a.milli == 0
    ensures SameSecond(a, b) <==> Instant(a) == Instant(b.(milli := 0))
    ensures Instant(a) < Instant(b.(milli := 0)) <==> Instant(a) < Instant(b) && !SameSecond(a, b)
    ensures Instant(b.(milli := 0)) < Instant(a) <==> Instant(b) < Instant(a)
  {
    SecondsApart(a, b);
    assert Seconds(b.(milli := 0)) == Seconds(b);
    ThousandsDecide(Seconds(a), Seconds(b), b.milli);
  }

  /**
   Text order against a bound without a fraction is time order exactly if the two fall in
   different seconds.
   */
  lemma PlainAgreesExactly(a: Civil, b: Civil)
    requires Valid(a) && Valid(b) && a.milli == 0
    ensures ((Text.Before(Plain(a), Stamp(b)) <==> Instant(a) < Instant(b))
             && (Text.Before(Stamp(b), Plain(a)) <==> Instant(b) < Instant(a)))
            <==> !SameSecond(a, b)
  {
    PlainOrder(a, b);
    SecondTells(a, b);
  }

  // ---- Bounds written with any fraction -------------------------------------

  function Zeros(n: nat): (s: string)
    ensures |s| == n && forall i :: 0 <= i < n ==> s[i] == '0'
  {
    seq(n, _ => '0')
  }

  lemma TenTimes(u: nat, p: nat)
    ensures 10 * (u * p) == u * (10 * p)
  {
  }

  /** Zeros after a number's digits scale it. */
  lemma {:induction false} ZerosScale(f: string, n: nat)
    requires Units.AllDigits(f)
    ensures Units.Value(f + Zeros(n)) == Units.Value(f) * Pow10(n)
  {
    if n == 0 {
      assert f + Zeros(0) == f;
    } else {
      ZerosScale(f, n - 1);
      ValueOfZero(f + Zeros(n - 1), f + Zeros(n));
      TenTimes(Units.Value(f), Pow10(n - 1));
    }
  }

  lemma ValueOfZero(s: string, t: string)
    requires Units.AllDigits(s) && t == s + "0"
    ensures Units.Value(t) == 10 * Units.Value(s)
  {
    assert t[..|t| - 1] == s;
  }

  lemma {:induction false} ZerosLeast(s: string)
    requires Units.AllDigits(s)
    ensures !Text.Before(s, Zeros(|s|))
  {
    if s != "" {
      assert Zeros(|s|)[1..] == Zeros(|s| - 1);
      ZerosLeast(s[1..]);
    }
  }

  lemma {:induction false} DigitsOrder(u: string, v: string)
    requires |u| == |v| && Units.AllDigits(u) && Units.AllDigits(v)
    ensures Text.Before(u, v) <==> Units.Value(u) < Units.Value(v)
    ensures u == v <==> Units.Value(u) == Units.Value(v)
  {
    if u != "" {
      var p, q, x, y := u[..|u| - 1], v[..|v| - 1], [u[|u| - 1]], [v[|v| - 1]];
      assert u == p + x && v == q + y;
      DigitsOrder(p, q);
      if p == q {
        Text.BeforeSkipsPrefix(p, x, y);
        assert Text.Before(x, y) <==> x[0] < y[0];
      } else {
        Text.BeforeByHead(p, q, x, y);
      }
    }
  }

  lemma {:induction false} PadDigits(n: nat, w: nat)
    requires n < Pow10(w)
    ensures Units.AllDigits(Pad(n, w)) && Units.Value(Pad(n, w)) == n
  {
    if w > 0 {
      PadDigits(n / 10, w - 1);
      assert Pad(n, w)[..w - 1] == Pad(n / 10, w - 1);
    }
  }

  /** One decimal fraction is less than another: brought to one length, as text. */
  predicate FractionFirst(f: string, g: string) {
    Text.Before(f + Zeros(|g|), g + Zeros(|f|))
  }

  lemma FractionValue(f: string, g: string)
    requires Units.AllDigits(f) && Units.AllDigits(g)
    ensures FractionFirst(f, g) <==> Units.Value(f) * Pow10(|g|) < Units.Value(g) * Pow10(|f|)
  {
    DigitsOrder(f + Zeros(|g|), g + Zeros(|f|));
    ZerosScale(f, |g|);
    ZerosScale(g, |f|);
  }

  /** Fractions whose first digits differ are ordered by them. */
  lemma HeadsDecide(u: string, x: string, v: string, y: string)
    requires |u| == |v| && u != v
    ensures FractionFirst(u + x, v + y) <==> Text.Before(u, v)
  {
    var a, b := x + Zeros(|v + y|), y + Zeros(|u + x|);
    assert u + x + Zeros(|v + y|) == u + a && v + y + Zeros(|u + x|) == v + b;
    Text.BeforeByHead(u, v, a, b);
  }

  /** More digits never make a fraction smaller. */
  lemma LongerNotFirst(u: string, y: string)
    requires Units.AllDigits(y)
    ensures !FractionFirst(u + y, u)
  {
    var a, b := y + Zeros(|u|), Zeros(|u + y|);
    assert u + y + Zeros(|u|) == u + a;
    Text.BeforeSkipsPrefix(u, a, b);
    ZerosLeast(a);
  }

  /** A bound whose fraction has the digits `f`; with none, no fraction is written. */
  function Bound(c: Civil, f: string): string {
    Head(c) + (if f == "" then "Z" else "." + f + "Z")
  }

  /** The bound's moment comes before the stamp's. */
  predicate BoundFirst(a: Civil, f: string, b: Civil)
    requires Valid(a) && Valid(b) && Units.AllDigits(f)
  {
    Seconds(a) < Seconds(b) || (Seconds(a) == Seconds(b) && Units.Value(f) * 1000 < b.milli * Pow10(|f|))
  }

  predicate StampFirst(a: Civil, f: string, b: Civil)
    requires Valid(a) && Valid(b) && Units.AllDigits(f)
  {
    Seconds(b) < Seconds(a) || (Seconds(b) == Seconds(a) && b.milli * Pow10(|f|) < Units.Value(f) * 1000)
  }

  /** Text order between the bound and the stamp is time order. */
  predicate OrdersAgree(a: Civil, f: string, b: Civil)
    requires Valid(a) && Valid(b) && Units.AllDigits(f)
  {
    && (Text.Before(Bound(a, f), Stamp(b)) <==> BoundFirst(a, f, b))
    && (Text.Before(Stamp(b), Bound(a, f)) <==> StampFirst(a, f, b))
  }

  function FirstDigits(s: string): string {
    if |s| <= 3 then s else s[..3]
  }

  lemma OtherSecond(a: Civil, f: string, b: Civil)
    requires Valid(a) && Valid(b) && Units.AllDigits(f) && !SameSecond(a, b)
    ensures OrdersAgree(a, f, b)
  {
    var x, y := if f == "" then "Z" else "." + f + "Z", "." + Pad(b.milli, 3) + "Z";
    StampHead(b);
    HeadLength(a);
    HeadLength(b);
    HeadOrder(a, b);
    HeadOrder(b, a);
    SecondsApart(a, b);
    assert Seconds(a.(milli := 0)) == Seconds(a) && Seconds(b.(milli := 0)) == Seconds(b);
    Text.BeforeByHead(Head(a), Head(b), x, y);
    Text.BeforeByHead(Head(b), Head(a), y, x);
  }

  /** Within one second, what follows the common head decides. */
  lemma OneSecond(a: Civil, f: string, b: Civil)
    requires Valid(a) && Valid(b) && Units.AllDigits(f) && SameSecond(a, b)
    ensures var m := Pad(b.milli, 3);
            && (Text.Before(Bound(a, f), Stamp(b)) <==> f != "" && Text.Before(f + "Z", m + "Z"))
            && (Text.Before(Stamp(b), Bound(a, f)) <==> f == "" || Text.Before(m + "Z", f + "Z"))
  {
    var m := Pad(b.milli, 3);
    StampHead(b);
    HeadOrder(a, b);
    var x, y := if f == "" then "Z" else "." + f + "Z", "." + m + "Z";
    Text.BeforeSkipsPrefix(Head(a), x, y);
    Text.BeforeSkipsPrefix(Head(a), y, x);
    if f != "" {
      assert x == "." + (f + "Z") && y == "." + (m + "Z");
      Text.BeforeSkipsPrefix(".", f + "Z", m + "Z");
      Text.BeforeSkipsPrefix(".", m + "Z", f + "Z");
    } else {
      assert x[0] == 'Z' && y[0] == '.';
    }
  }

  lemma SameMoment(a: Civil, f: string, b: Civil)
    requires Valid(a) && Valid(b) && Units.AllDigits(f) && SameSecond(a, b)
    ensures var m := Pad(b.milli, 3);
            && Units.AllDigits(m)
            && (BoundFirst(a, f, b) <==> FractionFirst(f, m)) && (StampFirst(a, f, b) <==> FractionFirst(m, f))
  {
    assert Pow10(3) == 1000;
    PadDigits(b.milli, 3);
    SecondsApart(a, b);
    FractionValue(f, Pad(b.milli, 3));
    FractionValue(Pad(b.milli, 3), f);
  }

  lemma DigitsBeforeZ(s: string, rest: string)
    requires rest != "" && Units.AllDigits(rest)
    ensures Text.Before(s + rest + "Z", s + "Z") && !Text.Before(s + "Z", s + rest + "Z")
  {
    assert s + rest + "Z" == s + (rest + "Z") && (rest + "Z")[0] == rest[0];
    Text.BeforeSkipsPrefix(s, rest + "Z", "Z");
    Text.BeforeSkipsPrefix(s, "Z", rest + "Z");
  }

  /** Fractions that part within the first digits: both orders follow the digit. */
  lemma PartedAgree(a: Civil, f: string, b: Civil, n: nat)
    requires Valid(a) && Valid(b) && Units.AllDigits(f) && SameSecond(a, b)
    requires n <= |f| && n <= 3 && f[..n] != Pad(b.milli, 3)[..n]
    ensures OrdersAgree(a, f, b)
  {
    var m := Pad(b.milli, 3);
    SameMoment(a, f, b);
    OneSecond(a, f, b);
    var u, x, v, y := f[..n], f[n..], m[..n], m[n..];
    assert f == u + x && m == v + y;
    HeadsDecide(u, x, v, y);
    HeadsDecide(v, y, u, x);
    assert f + "Z" == u + (x + "Z") && m + "Z" == v + (y + "Z");
    Text.BeforeByHead(u, v, x + "Z", y + "Z");
    Text.BeforeByHead(v, u, y + "Z", x + "Z");
  }

  lemma ShortDisagrees(a: Civil, f: string, b: Civil, rest: string)
    requires Valid(a) && Valid(b) && Units.AllDigits(f) && SameSecond(a, b)
    requires Pad(b.milli, 3) == f + rest && rest != "" && Units.AllDigits(rest)
    ensures !OrdersAgree(a, f, b)
  {
    SameMoment(a, f, b);
    OneSecond(a, f, b);
    LongerNotFirst(f, rest);
    if f != "" {
      DigitsBeforeZ(f, rest);
    }
  }

  lemma LongDisagrees(a: Civil, f: string, b: Civil, rest: string)
    requires Valid(a) && Valid(b) && Units.AllDigits(f) && SameSecond(a, b)
    requires f == Pad(b.milli, 3) + rest && rest != "" && Units.AllDigits(rest)
    ensures !OrdersAgree(a, f, b)
  {
    SameMoment(a, f, b);
    OneSecond(a, f, b);
    LongerNotFirst(Pad(b.milli, 3), rest);
    DigitsBeforeZ(Pad(b.milli, 3), rest);
  }

  /** Fractions one of which continues the other: the longer is not earlier, and its text comes first. */
  lemma ContinuedDisagree(a: Civil, f: string, b: Civil)
    requires Valid(a) && Valid(b) && Units.AllDigits(f) && SameSecond(a, b) && |f| != 3
    requires FirstDigits(f) == Pad(b.milli, 3)[..|FirstDigits(f)|]
    ensures !OrdersAgree(a, f, b)
  {
    var m := Pad(b.milli, 3);
    assert Pow10(3) == 1000;
    PadDigits(b.milli, 3);
    if |f| < 3 {
      assert m == f + m[|f|..];
      ShortDisagrees(a, f, b, m[|f|..]);
    } else {
      assert f == m + f[3..];
      LongDisagrees(a, f, b, f[3..]);
    }
  }

  lemma ThreeDigitsAgree(a: Civil, f: string, b: Civil)
    requires Valid(a) && Valid(b) && Units.AllDigits(f) && SameSecond(a, b) && |f| == 3
    ensures OrdersAgree(a, f, b)
  {
    var m := Pad(b.milli, 3);
    if f != m {
      assert f[..3] == f && m[..3] == m;
      PartedAgree(a, f, b, 3);
    } else {
      SameMoment(a, f, b);
      OneSecond(a, f, b);
      Text.BeforeTotal(f + "Z", f + "Z");
    }
  }

  /**
   Text order between any bound and a stamp is time order if and only if they fall in different
   seconds, or the bound is written to the millisecond, or the two fractions part within the digits
   they share.
   */
  lemma BoundAgreesExactly(a: Civil, f: string, b: Civil)
    requires Valid(a) && Valid(b) && Units.AllDigits(f)
    ensures OrdersAgree(a, f, b) <==>
            !SameSecond(a, b) || |f| == 3 || FirstDigits(f) != Pad(b.milli, 3)[..|FirstDigits(f)|]
  {
    var n := |FirstDigits(f)|;
    if !SameSecond(a, b) {
      OtherSecond(a, f, b);
    } else if |f| == 3 {
      ThreeDigitsAgree(a, f, b);
    } else if FirstDigits(f) != Pad(b.milli, 3)[..n] {
      assert FirstDigits(f) == f[..n];
      PartedAgree(a, f, b, n);
    } else {
      ContinuedDisagree(a, f, b);
    }
  }

  /** From the seconds back: what stands after each field. */
  lemma RenderTail(f: seq<Field>, i: nat)
    requires i < |f|
    ensures Render(f, i) == Pad(f[i].value, f[i].width) + f[i].after + Render(f, i + 1)
    ensures Render(f, |f|) == ""
  {
  }

  /** The shape of both forms: digits at their places, and the separators between them. */
  lemma HeadShape(c: Civil)
    ensures Head(c) == Pad(c.year, 4) + "-" + (Pad(c.month, 2) + "-" + (Pad(c.day, 2) + "T" + (Pad(c.hour, 2) + ":"
                       + (Pad(c.minute, 2) + ":" + Pad(c.second, 2)))))
    ensures Plain(c) == Head(c) + "Z" && Stamp(c) == Head(c) + ("." + Pad(c.milli, 3) + "Z")
  {
    var f := Whole(c);
    assert Render(f, 5) == Pad(c.second, 2);
    RenderTail(f, 4);
    RenderTail(f, 3);
    RenderTail(f, 2);
    RenderTail(f, 1);
    RenderTail(f, 0);
    StampHead(c);
  }

  /** So a query from `14:00:00Z` leaves out a read stamped `14:00:00.000Z`. */
  lemma PlainStartLosesItsSecond(c: Civil, end: Civil, r: R.Read)
    requires Valid(c) && Valid(end) && c.milli == 0 && r.at == Stamp(c)
    ensures !MS.Within(MS.TimeSpan(Plain(c), Stamp(end)))(r)
  {
    PlainOrder(c, c);
  }

  const FIRST: Civil := Civil(0, 1, 1, 0, 0, 0, 0)
  const LAST: Civil := Civil(9999, 12, 31, 23, 59, 59, 0)

  lemma LowestBound(bound: Civil, c: Civil)
    requires Valid(bound) && Valid(c) && bound.milli == 0 && !EarlierCivil(c.(milli := 0), bound)
    ensures Text.Before(Stamp(c), Plain(bound)) <==> SameSecond(c, bound)
  {
    PlainOrder(bound, c);
    EarlierTotal(c.(milli := 0), bound);
    if EarlierCivil(bound, c.(milli := 0)) {
      EarlierInstant(bound, c.(milli := 0));
    }
  }

  lemma FirstSecond(c: Civil)
    requires Valid(c)
    ensures Text.Before(Stamp(c), Plain(FIRST)) <==> SameSecond(c, FIRST)
  {
    EarlierSplits(c.(milli := 0), FIRST);
    LowestBound(FIRST, c);
  }

  lemma LastSecond(c: Civil)
    requires Valid(c)
    ensures !Text.Before(Plain(LAST), Stamp(c))
  {
    var c' := c.(milli := 0);
    PlainOrder(LAST, c);
    EarlierSplits(LAST, c');
    EarlierTotal(c', LAST);
    if EarlierCivil(c', LAST) {
      EarlierInstant(c', LAST);
    }
  }

  /**
   The span standing for "no bounds given" holds every stamp except those of the first second of
   year zero.
   */
  lemma UnboundedSpan(c: Civil, r: R.Read)
    requires Valid(c) && r.at == Stamp(c)
    ensures MS.Within(MS.TimeSpan(Plain(FIRST), Plain(LAST)))(r) <==> !SameSecond(c, FIRST)
  {
    FirstSecond(c);
    LastSecond(c);
  }
}
