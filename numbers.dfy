/**
 * Python number conversions the core depends on: `int(float(text))` for
 * decimal text, `round()` (ties to even) on an exact ratio, and floor
 * division.
 */
module Numbers {

  import opened Wrappers
  import opened Strings

  function Pow10(n: nat): (r: nat)
    ensures r >= 1
  {
    if n == 0 then 1 else 10 * Pow10(n - 1)
  }

  /** The exact value `(-1 if negative else 1) * mantissa * 10 ** exponent`. */
  datatype Decimal = Decimal(negative: bool, mantissa: nat, exponent: int)

  /** Length of the leading run of ASCII digits. */
  function DigitRun(s: string): (n: nat)
    ensures n <= |s| && AllDigits(s[..n])
    ensures n < |s| ==> !IsDigit(s[n])
  {
    if s == [] || !IsDigit(s[0]) then 0
    else
      var k := DigitRun(s[1..]);
      assert s[..1 + k] == [s[0]] + s[1..][..k];
      1 + k
  }

  lemma DigitRunAll(s: string)
    requires AllDigits(s)
    ensures DigitRun(s) == |s|
  {
  }

  /** The exponent after a mantissa: nothing, or `e`/`E`, an optional sign and digits. */
  function ExponentOf(s: string): Option<int> {
    if s == [] then Some(0)
    else if s[0] == 'e' || s[0] == 'E' then
      var t := s[1..];
      if |t| > 0 && t[0] == '-' && IsDigits(t[1..]) then Some(-(ParseDigits(t[1..]) as int))
      else if |t| > 0 && t[0] == '+' && IsDigits(t[1..]) then Some(ParseDigits(t[1..]))
      else if IsDigits(t) then Some(ParseDigits(t))
      else None
    else None
  }

  lemma AllDigitsAppend(a: string, b: string)
    requires AllDigits(a) && AllDigits(b)
    ensures AllDigits(a + b)
  {
    forall i | 0 <= i < |a + b| ensures IsDigit((a + b)[i]) {
      if i >= |a| { assert (a + b)[i] == b[i - |a|]; }
    }
  }

  /**
   * The mantissa of decimal text: its integer digits, its fraction digits
   * and whatever follows them.
   */
  function SplitMantissa(body: string): (r: (string, string, string))
    ensures AllDigits(r.0) && AllDigits(r.1)
    ensures AllDigits(body) ==> r == (body, "", "")
  {
    var i := DigitRun(body);
    var rest := body[i..];
    if rest != [] && rest[0] == '.' then
      var j := DigitRun(rest[1..]);
      (body[..i], rest[1..][..j], rest[1..][j..])
    else
      assert AllDigits(body) ==> body[..i] == body && rest == "" by {
        if AllDigits(body) { DigitRunAll(body); }
      }
      (body[..i], "", rest)
  }

  /**
   * `float(s)` on decimal text: surrounding whitespace, an optional sign,
   * digits with an optional fraction (at least one digit in all), and an
   * optional exponent. Text `float` rejects, or reads as infinity or NaN,
   * gives none.
   */
  function ParseDecimal(s: string): Option<Decimal> {
    ParseSigned(Trim(s))
  }

  /** An optional sign, then the mantissa. */
  function ParseSigned(t: string): Option<Decimal> {
    if |t| > 0 && (t[0] == '+' || t[0] == '-') then ParseMantissa(t[0] == '-', t[1..])
    else ParseMantissa(false, t)
  }

  /** Digits with an optional fraction, at least one digit in all, then the exponent. */
  function ParseMantissa(negative: bool, body: string): (r: Option<Decimal>)
    ensures IsDigits(body) ==> r == Some(Decimal(negative, ParseDigits(body), 0))
  {
    var m := SplitMantissa(body);
    if |m.0| + |m.1| == 0 then None
    else
      AllDigitsAppend(m.0, m.1);
      assert IsDigits(body) ==> m.0 + m.1 == body;
      match ExponentOf(m.2)
      case None => None
      case Some(e) => Some(Decimal(negative, ParseDigits(m.0 + m.1), e - |m.1|))
  }

  /** A run of digits followed by a non-digit (or nothing) is exactly the leading digit run. */
  lemma {:induction false} DigitRunPrefix(a: string, rest: string)
    requires AllDigits(a)
    requires rest == [] || !IsDigit(rest[0])
    ensures DigitRun(a + rest) == |a|
    decreases |a|
  {
    if a != [] {
      assert (a + rest)[1..] == a[1..] + rest;
      DigitRunPrefix(a[1..], rest);
    } else {
      assert a + rest == rest;
    }
  }

  /** Reading digits after digits: `int(a + b) == int(a) * 10 ** len(b) + int(b)`. */
  lemma {:induction false} ParseDigitsAppend(a: string, b: string)
    requires AllDigits(a) && AllDigits(b)
    ensures AllDigits(a + b)
    ensures ParseDigits(a + b) == ParseDigits(a) * Pow10(|b|) + ParseDigits(b)
    decreases |b|
  {
    AllDigitsAppend(a, b);
    if b == [] {
      assert a + b == a;
    } else {
      var b' := b[..|b| - 1];
      var c := b[|b| - 1];
      assert (a + b)[..|a + b| - 1] == a + b';
      assert (a + b)[|a + b| - 1] == c;
      ParseDigitsAppend(a, b');
      var x, y, z, w := ParseDigits(a), Pow10(|b'|), ParseDigits(b'), DigitValue(c);
      assert ParseDigits(a + b) == (x * y + z) * 10 + w;
      assert ParseDigits(b) == z * 10 + w;
      assert Pow10(|b|) == 10 * y;
      ShiftDigit(x, y, z, w);
    }
  }

  lemma ShiftDigit(x: int, y: int, z: int, w: int)
    ensures (x * y + z) * 10 + w == x * (10 * y) + (z * 10 + w)
  {
  }

  /**
   * Seconds printed as digits, a dot and fraction digits (`183.456000`) are
   * read exactly: the mantissa is every digit and the exponent counts the
   * fraction digits.
   */
  lemma SecondsFractionText(a: string, f: string)
    requires IsDigits(a) && AllDigits(f)
    ensures AllDigits(a + f)
    ensures ParseDecimal(a + "." + f) == Some(Decimal(false, ParseDigits(a + f), -|f|))
    ensures ParseDigits(a + f) == ParseDigits(a) * Pow10(|f|) + ParseDigits(f)
  {
    ParseDigitsAppend(a, f);
    var t := a + "." + f;
    assert t[0] == a[0];
    assert t[|t| - 1] == (if f == [] then '.' else f[|f| - 1]);
    UnsignedText(t);
    MantissaWithFraction(a, f);
  }

  /** Text that starts with a digit and ends in no whitespace carries no sign to strip. */
  lemma UnsignedText(t: string)
    requires t != [] && IsDigit(t[0]) && !IsSpace(t[|t| - 1])
    ensures ParseDecimal(t) == ParseMantissa(false, t)
  {
    TrimUnchanged(t);
  }

  /** Digits, a dot and fraction digits form a mantissa with no exponent. */
  lemma MantissaWithFraction(a: string, f: string)
    requires AllDigits(a) && AllDigits(f) && a != []
    ensures AllDigits(a + f)
    ensures ParseMantissa(false, a + "." + f) == Some(Decimal(false, ParseDigits(a + f), -|f|))
  {
    AllDigitsAppend(a, f);
    SplitFraction(a, f);
  }

  lemma SplitFraction(a: string, f: string)
    requires AllDigits(a) && AllDigits(f)
    ensures SplitMantissa(a + "." + f) == (a, f, "")
  {
    var t := a + "." + f;
    assert t == a + ("." + f);
    DigitRunPrefix(a, "." + f);
    assert t[|a|..] == "." + f;
    assert t[..|a|] == a;
    assert ("." + f)[1..] == f;
    DigitRunAll(f);
    assert f[..|f|] == f && f[|f|..] == "";
  }

  /** `int(x)` of an exact value: truncation toward zero. */
  function Trunc(d: Decimal): (r: int)
    ensures d.exponent == 0 ==> r == (if d.negative then -(d.mantissa as int) else d.mantissa)
  {
    var m := if d.exponent >= 0 then d.mantissa * Pow10(d.exponent) else d.mantissa / Pow10(-d.exponent);
    if d.negative then -m else m
  }

  /** `int(float(s))`, none when either conversion raises. */
  function TruncOfFloatText(s: string): Option<int> {
    match ParseDecimal(s)
    case None => None
    case Some(d) => Some(Trunc(d))
  }

  /** `int(s)` on text: surrounding whitespace, an optional sign, then ASCII digits. */
  function ParseInt(s: string): Option<int> {
    var t := Trim(s);
    if |t| > 0 && (t[0] == '+' || t[0] == '-') then
      if IsDigits(t[1..]) then Some(if t[0] == '-' then -(ParseDigits(t[1..]) as int) else ParseDigits(t[1..]) as int) else None
    else if IsDigits(t) then Some(ParseDigits(t))
    else None
  }

  /** Digits read as that whole number. */
  lemma ParseNatText(digits: string)
    requires IsDigits(digits)
    ensures ParseDecimal(digits) == Some(Decimal(false, ParseDigits(digits), 0))
  {
    TrimUnchanged(digits);
    assert IsDigit(digits[0]);
  }

  /** A minus sign and digits read as the negated number. */
  lemma ParseNegText(digits: string)
    requires IsDigits(digits)
    ensures ParseDecimal("-" + digits) == Some(Decimal(true, ParseDigits(digits), 0))
  {
    var s := "-" + digits;
    assert s[|s| - 1] == digits[|digits| - 1];
    TrimUnchanged(s);
    assert s[1..] == digits;
  }

  /** 2^53: every integer of at most this magnitude is exactly a binary double. */
  const MaxExactDouble: int := 9007199254740992

  /**
   * Integer text converts back to its own value: `int(float(str(n))) == n`,
   * for the integers a double holds exactly.
   */
  lemma TruncOfIntText(n: int)
    requires -MaxExactDouble <= n <= MaxExactDouble
    ensures TruncOfFloatText(IntToString(n)) == Some(n)
  {
    var m: nat := if n < 0 then -n else n;
    var digits := NatToString(m);
    ParseNatToString(m);
    if n < 0 {
      ParseNegText(digits);
    } else {
      ParseNatText(digits);
    }
  }

  /** `round(n / d)` for `d > 0`: the nearest integer, ties to the even one. */
  function RoundHalfEven(n: int, d: int): (r: int)
    requires d > 0
    ensures -d <= 2 * (n - r * d) <= d
    ensures 2 * (n - r * d) == d || 2 * (n - r * d) == -d ==> r % 2 == 0
  {
    var q := n / d;
    var rem := n % d;
    DivModFacts(n, d, q, rem);
    if 2 * rem < d then q
    else if 2 * rem > d then q + 1
    else if q % 2 == 0 then q
    else q + 1
  }

  lemma DivModFacts(n: int, d: int, q: int, rem: int)
    requires d > 0 && q == n / d && rem == n % d
    ensures n - q * d == rem && 0 <= rem < d
    ensures n - (q + 1) * d == rem - d
  {
    assert (q + 1) * d == q * d + d;
  }

  /** Python `a // b`: the floor of the exact quotient, for either sign of `b`. */
  function FloorDiv(a: int, b: int): (q: int)
    requires b != 0
    ensures b > 0 ==> q * b <= a < q * b + b
    ensures b < 0 ==> q * b >= a > q * b + b
  {
    if b > 0 then a / b else (-a) / (-b)
  }

  /** `int(str(n)) == n` for every integer. */
  lemma ParseIntOfText(n: int)
    ensures ParseInt(IntToString(n)) == Some(n)
  {
    var m: nat := if n < 0 then -n else n;
    var digits := NatToString(m);
    ParseNatToString(m);
    if n < 0 {
      var s := "-" + digits;
      assert s[|s| - 1] == digits[|digits| - 1];
      TrimUnchanged(s);
      assert s[1..] == digits;
    } else {
      TrimUnchanged(digits);
      assert IsDigit(digits[0]);
    }
  }

  /** `str(n)` has no surrounding whitespace. */
  lemma TrimIntText(n: int)
    ensures Trim(IntToString(n)) == IntToString(n)
  {
    var m: nat := if n < 0 then -n else n;
    var digits := NatToString(m);
    assert IsDigit(digits[0]) && IsDigit(digits[|digits| - 1]);
    if n < 0 {
      var s := "-" + digits;
      assert s[|s| - 1] == digits[|digits| - 1];
      TrimUnchanged(s);
    } else {
      TrimUnchanged(digits);
    }
  }
}
