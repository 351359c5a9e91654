/** Byte sizes as an operator writes them: `512MiB`, `2GB`, `1024`. */
module Units {
  import opened Base

  /** Why a size is refused; a number with a decimal point is handed to the floating-point path. */
  datatype Size = Ok(bytes: nat) | UnknownUnit | NotANumber | TooLarge | Fraction(number: string, scale: nat)

  // ---- Text ---------------------------------------------------------------

  predicate IsDigit(c: char) {
    '0' <= c <= '9'
  }

  /** The characters Unicode gives the property White_Space. */
  predicate IsWhite(c: char) {
    var u := c as int;
    || 0x09 <= u <= 0x0D || u == 0x20 || u == 0x85 || u == 0xA0 || u == 0x1680 || 0x2000 <= u <= 0x200A
    || u == 0x2028 || u == 0x2029 || u == 0x202F || u == 0x205F || u == 0x3000
  }

  function TrimStart(s: string): string {
    if s != [] && IsWhite(s[0]) then TrimStart(s[1..]) else s
  }

  function TrimEnd(s: string): string {
    if s != [] && IsWhite(s[|s| - 1]) then TrimEnd(s[..|s| - 1]) else s
  }

  function Trim(s: string): string {
    TrimEnd(TrimStart(s))
  }

  function LowerChar(c: char): char {
    if 'A' <= c <= 'Z' then c - 'A' + 'a' else c
  }

  function Lower(s: string): (l: string)
    ensures |l| == |s| && forall i :: 0 <= i < |s| ==> l[i] == LowerChar(s[i])
  {
    seq(|s|, i requires 0 <= i < |s| => LowerChar(s[i]))
  }

  function DigitValue(c: char): nat
    requires IsDigit(c)
  {
    (c - '0') as nat
  }

  predicate AllDigits(s: string) {
    forall i :: 0 <= i < |s| ==> IsDigit(s[i])
  }

  function Value(s: string): nat
    requires AllDigits(s)
  {
    if s == [] then 0 else 10 * Value(s[..|s| - 1]) + DigitValue(s[|s| - 1])
  }

  function ParseU64(s: string): Option<nat> {
    if s != [] && AllDigits(s) && Value(s) <= U64_MAX then Some(Value(s)) else None
  }

  function Decimal(n: nat): string {
    (if n < 10 then "" else Decimal(n / 10)) + ['0' + (n % 10) as char]
  }

  // ---- Sizes ----------------------------------------------------------------

  const KIB: nat := 0x400
  const MIB: nat := 0x10_0000
  const GIB: nat := 0x4000_0000
  const TIB: nat := 0x100_0000_0000

  function Scale(unit: string): Option<nat> {
    if unit == "" || unit == "b" then Some(1)
    else if unit == "k" || unit == "kib" then Some(KIB)
    else if unit == "m" || unit == "mib" then Some(MIB)
    else if unit == "g" || unit == "gib" then Some(GIB)
    else if unit == "t" || unit == "tib" then Some(TIB)
    else if unit == "kb" then Some(1_000)
    else if unit == "mb" then Some(1_000_000)
    else if unit == "gb" then Some(1_000_000_000)
    else if unit == "tb" then Some(1_000_000_000_000)
    else None
  }

  /** How much of the text could be a number. */
  function NumberLength(s: string): (n: nat)
    ensures n <= |s|
  {
    if s != [] && (IsDigit(s[0]) || s[0] == '.') then 1 + NumberLength(s[1..]) else 0
  }

  /** The number before the unit, and the unit without the white space around it. */
  function Split(text: string): (string, string) {
    var t := Trim(text);
    var n := NumberLength(t);
    (t[..n], Trim(t[n..]))
  }

  function Sized(number: string, scale: Option<nat>): Size {
    match scale
    case None => UnknownUnit
    case Some(scale) =>
      if '.' in number then Fraction(number, scale)
      else match ParseU64(number)
        case None => NotANumber
        case Some(value) => if value * scale > U64_MAX then TooLarge else Ok(value * scale)
  }

  function Bytes(text: string): Size {
    var (number, unit) := Split(text);
    Sized(number, Scale(Lower(unit)))
  }

  /** The largest binary unit `n` is a whole number of, or 1. */
  function ChosenUnit(n: nat): (unit: nat)
    ensures unit in {1, KIB, MIB, GIB, TIB} && n % unit == 0
    ensures forall u :: u in {KIB, MIB, GIB, TIB} && n >= u && n % u == 0 ==> u <= unit
    ensures unit > 1 ==> n >= unit
  {
    if n >= TIB && n % TIB == 0 then TIB
    else if n >= GIB && n % GIB == 0 then GIB
    else if n >= MIB && n % MIB == 0 then MIB
    else if n >= KIB && n % KIB == 0 then KIB
    else 1
  }

  function Suffix(unit: nat): string {
    if unit == TIB then "TiB" else if unit == GIB then "GiB" else if unit == MIB then "MiB"
    else if unit == KIB then "KiB" else ""
  }

  function FormatBytes(n: nat): string {
    Decimal(n / ChosenUnit(n)) + Suffix(ChosenUnit(n))
  }

  // ---- Laws -----------------------------------------------------------------

  predicate AllWhite(s: string) {
    forall i :: 0 <= i < |s| ==> IsWhite(s[i])
  }

  predicate Trimmed(s: string) {
    s == [] || (!IsWhite(s[0]) && !IsWhite(s[|s| - 1]))
  }

  lemma {:induction false} TrimStartPadded(pad: string, s: string)
    requires AllWhite(pad) && (s == [] || !IsWhite(s[0]))
    ensures TrimStart(pad + s) == s
  {
    if pad == [] {
      assert pad + s == s;
    } else {
      assert (pad + s)[1..] == pad[1..] + s;
      TrimStartPadded(pad[1..], s);
    }
  }

  lemma {:induction false} TrimEndPadded(s: string, pad: string)
    requires AllWhite(pad) && (s == [] || !IsWhite(s[|s| - 1]))
    ensures TrimEnd(s + pad) == s
  {
    if pad == [] {
      assert s + pad == s;
    } else {
      var init := pad[..|pad| - 1];
      assert (s + pad)[..|s + pad| - 1] == s + init;
      TrimEndPadded(s, init);
    }
  }

  lemma TrimPadded(before: string, s: string, after: string)
    requires AllWhite(before) && AllWhite(after) && Trimmed(s)
    ensures Trim(before + s + after) == s
  {
    assert before + s + after == before + (s + after);
    if s == [] {
      assert before + s + after == (before + after) + [];
      TrimStartPadded(before + after, []);
    } else {
      TrimStartPadded(before, s + after);
      TrimEndPadded(s, after);
    }
  }

  lemma {:induction false} DecimalValue(n: nat)
    ensures Decimal(n) != [] && AllDigits(Decimal(n)) && Value(Decimal(n)) == n
  {
    var d := Decimal(n);
    if n >= 10 {
      DecimalValue(n / 10);
      assert d[..|d| - 1] == Decimal(n / 10);
    }
  }

  /** Digits, and points wherever they stand. */
  predicate NumberLike(s: string) {
    forall i :: 0 <= i < |s| ==> IsDigit(s[i]) || s[i] == '.'
  }

  lemma {:induction false} NumberEnds(digits: string, rest: string)
    requires NumberLike(digits) && (rest == [] || (!IsDigit(rest[0]) && rest[0] != '.'))
    ensures NumberLength(digits + rest) == |digits|
  {
    if digits == [] {
      assert digits + rest == rest;
    } else {
      assert (digits + rest)[1..] == digits[1..] + rest;
      NumberEnds(digits[1..], rest);
    }
  }

  predicate IsLetter(c: char) {
    'a' <= LowerChar(c) <= 'z'
  }

  lemma UnitsAreLetters(unit: string)
    requires Scale(Lower(unit)).Some?
    ensures forall i :: 0 <= i < |unit| ==> IsLetter(unit[i])
  {
    var l := Lower(unit);
    assert l in ["", "b", "k", "kib", "m", "mib", "g", "gib", "t", "tib", "kb", "mb", "gb", "tb"];
    assert forall i :: 0 <= i < |l| ==> 'a' <= l[i] <= 'z';
    forall i | 0 <= i < |unit|
      ensures IsLetter(unit[i])
    {
      assert l[i] == LowerChar(unit[i]);
    }
  }

  lemma Regroup(before: string, digits: string, gap: string, unit: string, after: string)
    ensures before + digits + gap + unit + after == before + (digits + (gap + unit)) + after
    ensures unit == [] ==> before + digits + gap + unit + after == before + digits + (gap + after)
  {
  }

  lemma SplitTrimmed(text: string, digits: string, gap: string, unit: string)
    requires AllWhite(gap) && digits != [] && NumberLike(digits) && forall i :: 0 <= i < |unit| ==> IsLetter(unit[i])
    requires Trim(text) == digits + (gap + unit) && (unit == [] ==> gap == [])
    ensures Split(text) == (digits, unit)
  {
    var rest := gap + unit;
    NumberEnds(digits, rest);
    assert (digits + rest)[..|digits|] == digits && (digits + rest)[|digits|..] == rest;
    TrimPadded(gap, unit, []);
    assert gap + unit + [] == rest;
  }

  lemma SizeTrimmed(before: string, digits: string, gap: string, unit: string, after: string)
    requires AllWhite(before) && AllWhite(gap) && AllWhite(after)
    requires digits != [] && NumberLike(digits) && forall i :: 0 <= i < |unit| ==> IsLetter(unit[i])
    ensures Trim(before + digits + gap + unit + after) == digits + (if unit == [] then [] else gap + unit)
  {
    Regroup(before, digits, gap, unit, after);
    if unit == [] {
      TrimPadded(before, digits, gap + after);
      assert digits == digits + [];
    } else {
      TrimPadded(before, digits + (gap + unit), after);
    }
  }

  lemma SplitPadded(before: string, digits: string, gap: string, unit: string, after: string)
    requires AllWhite(before) && AllWhite(gap) && AllWhite(after)
    requires digits != [] && NumberLike(digits) && forall i :: 0 <= i < |unit| ==> IsLetter(unit[i])
    ensures Split(before + digits + gap + unit + after) == (digits, unit)
  {
    var text := before + digits + gap + unit + after;
    SizeTrimmed(before, digits, gap, unit, after);
    if unit == [] {
      assert digits + [] == digits + ([] + unit);
      SplitTrimmed(text, digits, [], unit);
    } else {
      SplitTrimmed(text, digits, gap, unit);
    }
  }

  /**
   A whole number in any known unit, in any case and with any white space around it, is read as
   the exact product. It is refused exactly if the number or the product does not fit in 64 bits.
   */
  lemma WholeNumberExact(before: string, digits: string, gap: string, unit: string, after: string)
    requires AllWhite(before) && AllWhite(gap) && AllWhite(after)
    requires digits != [] && AllDigits(digits) && Scale(Lower(unit)).Some?
    ensures Bytes(before + digits + gap + unit + after)
         == if Value(digits) > U64_MAX then NotANumber
            else if Value(digits) * Scale(Lower(unit)).value > U64_MAX then TooLarge
            else Ok(Value(digits) * Scale(Lower(unit)).value)
  {
    UnitsAreLetters(unit);
    SplitPadded(before, digits, gap, unit, after);
    assert '.' !in digits;
  }

  /** A number with a decimal point in a known unit goes to the floating-point path, number and scale. */
  lemma FractionHandedOn(before: string, number: string, gap: string, unit: string, after: string)
    requires AllWhite(before) && AllWhite(gap) && AllWhite(after)
    requires NumberLike(number) && '.' in number && Scale(Lower(unit)).Some?
    ensures Bytes(before + number + gap + unit + after) == Fraction(number, Scale(Lower(unit)).value)
  {
    UnitsAreLetters(unit);
    SplitPadded(before, number, gap, unit, after);
  }

  /** A word that is no unit is refused as such, whatever the number. */
  lemma UnknownUnitRefused(before: string, number: string, gap: string, unit: string, after: string)
    requires AllWhite(before) && AllWhite(gap) && AllWhite(after) && number != [] && NumberLike(number)
    requires Scale(Lower(unit)).None? && forall i :: 0 <= i < |unit| ==> IsLetter(unit[i])
    ensures Bytes(before + number + gap + unit + after) == UnknownUnit
  {
    SplitPadded(before, number, gap, unit, after);
  }

  function Power(base: nat, n: nat): nat {
    if n == 0 then 1 else base * Power(base, n - 1)
  }

  const PREFIXES: string := "kmgt"

  /** The bare and `i` units are powers of 1024, the others powers of 1000, and nothing else is a unit. */
  lemma UnitPowers(i: nat)
    requires i < 4
    ensures Scale([PREFIXES[i]]) == Some(Power(1024, i + 1))
    ensures Scale([PREFIXES[i]] + "ib") == Some(Power(1024, i + 1))
    ensures Scale([PREFIXES[i]] + "b") == Some(Power(1000, i + 1))
    ensures Scale("") == Scale("b") == Some(1)
  {
    assert Power(1024, 1) == 1024 && Power(1024, 2) == 1024 * Power(1024, 1) && Power(1024, 3) == 1024 * Power(1024, 2);
    assert Power(1000, 1) == 1000 && Power(1000, 2) == 1000 * Power(1000, 1) && Power(1000, 3) == 1000 * Power(1000, 2);
    PrefixSpelled(i);
  }

  lemma PrefixSpelled(i: nat)
    requires i < 4
    ensures var p := [PREFIXES[i]];
            && p == ["k", "m", "g", "t"][i]
            && p + "ib" == ["kib", "mib", "gib", "tib"][i] && p + "b" == ["kb", "mb", "gb", "tb"][i]
  {
    assert "k" + "ib" == "kib" && "m" + "ib" == "mib" && "g" + "ib" == "gib" && "t" + "ib" == "tib";
    assert "k" + "b" == "kb" && "m" + "b" == "mb" && "g" + "b" == "gb" && "t" + "b" == "tb";
    assert [PREFIXES[i]] == ["k", "m", "g", "t"][i];
  }

  lemma OnlyUnits(unit: string)
    requires Scale(unit).Some?
    ensures unit == "" || unit == "b"
            || exists i :: 0 <= i < 4 && IsPrefixed(unit, i)
  {
    PrefixSpelled(0);
    PrefixSpelled(1);
    PrefixSpelled(2);
    PrefixSpelled(3);
    assert IsPrefixed(unit, 0) || IsPrefixed(unit, 1) || IsPrefixed(unit, 2) || IsPrefixed(unit, 3)
           || unit == "" || unit == "b";
  }

  predicate IsPrefixed(unit: string, i: nat)
    requires i < 4
  {
    unit == [PREFIXES[i]] || unit == [PREFIXES[i]] + "ib" || unit == [PREFIXES[i]] + "b"
  }

  /** The twenty-five characters of Unicode that are white space, by code point. */
  const WHITE: seq<nat> := [
    9, 10, 11, 12, 13, 32, 133, 160, 5760,
    8192, 8193, 8194, 8195, 8196, 8197, 8198, 8199, 8200, 8201, 8202,
    8232, 8233, 8239, 8287, 12288]

  lemma WhiteListed(c: char)
    ensures IsWhite(c) <==> c as nat in WHITE
    ensures |WHITE| == 25
  {
  }

  /** Case is nothing but the case of the Latin letters. */
  lemma LowerOnlyLetters(c: char)
    ensures LowerChar(LowerChar(c)) == LowerChar(c)
    ensures LowerChar(c) != c <==> 'A' <= c <= 'Z'
    ensures 'A' <= c <= 'Z' ==> LowerChar(c) as int - 'a' as int == c as int - 'A' as int
  {
  }

  lemma {:induction false} TrimStartDrops(s: string) returns (pad: string)
    ensures AllWhite(pad) && s == pad + TrimStart(s)
  {
    pad := [];
    if s != [] && IsWhite(s[0]) {
      pad := TrimStartDrops(s[1..]);
      assert s == [s[0]] + s[1..];
      pad := [s[0]] + pad;
    }
  }

  lemma {:induction false} TrimEndDrops(s: string) returns (pad: string)
    ensures AllWhite(pad) && s == TrimEnd(s) + pad
  {
    pad := [];
    if s != [] && IsWhite(s[|s| - 1]) {
      pad := TrimEndDrops(s[..|s| - 1]);
      assert s == s[..|s| - 1] + [s[|s| - 1]];
      pad := pad + [s[|s| - 1]];
    }
  }

  lemma TrimDrops(s: string) returns (before: string, after: string)
    ensures AllWhite(before) && AllWhite(after) && s == before + Trim(s) + after
  {
    before := TrimStartDrops(s);
    after := TrimEndDrops(TrimStart(s));
  }

  /** Nothing else is read as a size: what `bytes` accepts without a decimal point has that form. */
  lemma OnlyWholeNumbers(text: string)
    returns (before: string, digits: string, gap: string, unit: string, after: string)
    requires Bytes(text).Ok?
    ensures AllWhite(before) && AllWhite(gap) && AllWhite(after)
    ensures digits != [] && AllDigits(digits) && Scale(Lower(unit)).Some?
    ensures text == before + digits + gap + unit + after
  {
    var t, tail := Trim(text), "";
    before, tail := TrimDrops(text);
    digits, unit := Split(text).0, Split(text).1;
    var rest := t[|digits|..];
    gap, after := TrimDrops(rest);
    assert t == digits + rest;
    Reassemble(text, before, digits, gap, unit, after, tail);
    after := after + tail;
  }

  lemma Reassemble(text: string, before: string, digits: string, gap: string, unit: string, after: string, tail: string)
    requires text == before + (digits + (gap + unit + after)) + tail
    ensures text == before + digits + gap + unit + (after + tail)
  {
  }

  lemma SuffixScale(n: nat)
    ensures Scale(Lower(Suffix(ChosenUnit(n)))) == Some(ChosenUnit(n))
  {
    assert Lower("TiB") == "tib" && Lower("GiB") == "gib" && Lower("MiB") == "mib" && Lower("KiB") == "kib";
    assert Lower("") == "";
  }

  lemma NoPadding(a: string, b: string)
    ensures [] + a + [] + b + [] == a + b
  {
  }

  lemma ReadsBack(q: nat, u: nat, suffix: string)
    requires Scale(Lower(suffix)) == Some(u) && q <= U64_MAX && q * u <= U64_MAX
    ensures Bytes(Decimal(q) + suffix) == Ok(q * u)
  {
    DecimalValue(q);
    WholeNumberExact([], Decimal(q), [], suffix, []);
    NoPadding(Decimal(q), suffix);
  }

  lemma ExactQuotient(n: nat, u: nat)
    requires u > 0 && n % u == 0
    ensures n / u * u == n && n / u <= n
  {
    var q := n / u;
    assert n == q * u + n % u;
    AtLeast(q, u);
  }

  lemma AtLeast(q: nat, u: nat)
    requires u > 0
    ensures q <= q * u
  {
    assert q * u == q * (u - 1) + q;
  }

  /** What is rendered is read back as the same number. */
  lemma FormatRoundTrip(n: nat)
    requires n <= U64_MAX
    ensures Bytes(FormatBytes(n)) == Ok(n)
  {
    SuffixScale(n);
    ExactQuotient(n, ChosenUnit(n));
    ReadsBack(n / ChosenUnit(n), ChosenUnit(n), Suffix(ChosenUnit(n)));
  }

  /** A rendered size never reads as the word that removes the cap. */
  lemma FormatStartsWithDigit(n: nat)
    ensures FormatBytes(n) != [] && IsDigit(FormatBytes(n)[0])
  {
    DecimalValue(n / ChosenUnit(n));
  }
}
