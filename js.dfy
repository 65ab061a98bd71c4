/**
 * The fragment of JavaScript's value semantics that the listing handlers rely on:
 * Express hands query values over as strings, and `-`, `*` coerce them to numbers
 * while `+` concatenates as soon as one operand is a string.
 *
 * Numbers are modelled as integers or NaN; fractions, exponents, whitespace
 * trimming, Infinity and the 2^53 precision bound are not modelled. Decimal
 * digits and the `0x` hexadecimal form are.
 */
module Js {

  datatype Number = NaN | Int(value: int)

  datatype Value = Num(n: Number) | Str(s: string)

  predicate IsDigit(c: char) { '0' <= c <= '9' }

  predicate AllDigits(s: string) { forall i :: 0 <= i < |s| ==> IsDigit(s[i]) }

  function DigitValue(c: char): (d: nat)
    requires IsDigit(c)
    ensures d < 10
  {
    (c as int) - ('0' as int)
  }

  function DigitChar(d: nat): (c: char)
    requires d < 10
    ensures IsDigit(c) && DigitValue(c) == d
  {
    (d + '0' as int) as char
  }

  predicate IsHexDigit(c: char) { IsDigit(c) || 'a' <= c <= 'f' || 'A' <= c <= 'F' }

  predicate AllHexDigits(s: string) { forall i :: 0 <= i < |s| ==> IsHexDigit(s[i]) }

  function HexDigitValue(c: char): (d: nat)
    requires IsHexDigit(c)
    ensures d < 16
    ensures IsDigit(c) ==> d == DigitValue(c)
  {
    if IsDigit(c) then DigitValue(c)
    else if 'a' <= c <= 'f' then (c as int) - ('a' as int) + 10
    else (c as int) - ('A' as int) + 10
  }

  /** The value of a string of hexadecimal digits, most significant digit first. */
  function HexValue(s: string): nat
    requires AllHexDigits(s)
  {
    if s == [] then 0 else HexValue(s[..|s| - 1]) * 16 + HexDigitValue(s[|s| - 1])
  }

  /** A `0x` or `0X` prefix, which both Number and parseInt (without a radix) read as base 16. */
  predicate HasHexPrefix(s: string)
  {
    |s| >= 2 && s[0] == '0' && (s[1] == 'x' || s[1] == 'X')
  }

  /** The value of a string of decimal digits, most significant digit first. */
  function DigitsValue(s: string): nat
    requires AllDigits(s)
  {
    if s == [] then 0 else DigitsValue(s[..|s| - 1]) * 10 + DigitValue(s[|s| - 1])
  }

  function Pow10(k: nat): (p: nat)
    ensures p >= 1
  {
    if k == 0 then 1 else 10 * Pow10(k - 1)
  }

  /** The decimal representation of a natural number, without leading zeros. */
  function Decimal(n: nat): (s: string)
    ensures |s| >= 1 && AllDigits(s)
    ensures s[0] == '0' ==> n == 0
  {
    if n < 10 then [DigitChar(n)] else Decimal(n / 10) + [DigitChar(n % 10)]
  }

  lemma {:induction false} DecimalValue(n: nat)
    ensures DigitsValue(Decimal(n)) == n
  {
    if n >= 10 {
      DecimalValue(n / 10);
      var s := Decimal(n);
      assert s[..|s| - 1] == Decimal(n / 10);
    }
  }

  lemma AllDigitsConcat(a: string, b: string)
    requires AllDigits(a) && AllDigits(b)
    ensures AllDigits(a + b)
  {
    forall i | 0 <= i < |a + b| ensures IsDigit((a + b)[i]) {
      if i < |a| { assert (a + b)[i] == a[i]; } else { assert (a + b)[i] == b[i - |a|]; }
    }
  }

  lemma ShiftArithmetic(x: int, p: int, y: int, last: int)
    ensures (x * p + y) * 10 + last == x * (10 * p) + (y * 10 + last)
  {
  }

  /** Appending digits shifts the value of the prefix left by that many places. */
  lemma {:induction false} DigitsValueAppend(a: string, b: string)
    requires AllDigits(a) && AllDigits(b)
    ensures AllDigits(a + b)
    ensures DigitsValue(a + b) == DigitsValue(a) * Pow10(|b|) + DigitsValue(b)
  {
    AllDigitsConcat(a, b);
    if b == [] {
      assert a + b == a;
    } else {
      var b' := b[..|b| - 1];
      var ab := a + b;
      assert ab[..|ab| - 1] == a + b';
      assert ab[|ab| - 1] == b[|b| - 1];
      DigitsValueAppend(a, b');
      var last := DigitValue(b[|b| - 1]);
      var x, y, p := DigitsValue(a), DigitsValue(b'), Pow10(|b'|);
      assert DigitsValue(ab) == DigitsValue(a + b') * 10 + last;
      assert DigitsValue(b) == y * 10 + last;
      assert Pow10(|b|) == 10 * p;
      ShiftArithmetic(x, p, y, last);
    }
  }

  /**
   * `Number(s)` for a string: "" is 0, an optionally signed run of digits is its
   * value, an unsigned `0x` followed by hexadecimal digits is their value.
   */
  function StringToNumber(s: string): (r: Number)
    ensures r.Int? && r.value < 0 ==> |s| > 0 && s[0] == '-'
    ensures r.Int? ==> s == "" || IsHexDigit(s[|s| - 1])
  {
    if s == "" then Int(0)
    else if AllDigits(s) then Int(DigitsValue(s))
    else if |s| > 1 && s[0] == '-' && AllDigits(s[1..]) then Int(-(DigitsValue(s[1..]) as int))
    else if |s| > 1 && s[0] == '+' && AllDigits(s[1..]) then Int(DigitsValue(s[1..]))
    else if HasHexPrefix(s) && |s| > 2 && AllHexDigits(s[2..]) then Int(HexValue(s[2..]))
    else NaN
  }

  lemma StringToNumberOfDigits(d: string)
    requires d != "" && AllDigits(d)
    ensures StringToNumber(d) == Int(DigitsValue(d))
  {
  }

  lemma StringToNumberOfNegative(d: string)
    requires d != "" && AllDigits(d)
    ensures StringToNumber("-" + d) == Int(-(DigitsValue(d) as int))
  {
    var s := "-" + d;
    assert s[1..] == d;
    assert !IsDigit(s[0]);
  }

  /** `String(n)` for a number. */
  function NumberToString(n: Number): string
  {
    match n
    case NaN => "NaN"
    case Int(i) => if i < 0 then "-" + Decimal(-i) else Decimal(i)
  }

  lemma NumberStringRoundTrip(n: Number)
    ensures StringToNumber(NumberToString(n)) == n
  {
    match n
    case NaN =>
    case Int(i) =>
      if i < 0 {
        DecimalValue(-i);
        assert NumberToString(n)[1..] == Decimal(-i);
      } else {
        DecimalValue(i);
      }
  }

  function ToNumber(v: Value): Number
  {
    match v
    case Num(n) => n
    case Str(s) => StringToNumber(s)
  }

  function ToStr(v: Value): string
  {
    match v
    case Num(n) => NumberToString(n)
    case Str(s) => s
  }

  function AddNumbers(a: Number, b: Number): Number
  {
    if a.NaN? || b.NaN? then NaN else Int(a.value + b.value)
  }

  function SubNumbers(a: Number, b: Number): Number
  {
    if a.NaN? || b.NaN? then NaN else Int(a.value - b.value)
  }

  function MulNumbers(a: Number, b: Number): Number
  {
    if a.NaN? || b.NaN? then NaN else Int(a.value * b.value)
  }

  /** JavaScript's binary `+`: string concatenation when either operand is a string. */
  function Plus(a: Value, b: Value): (r: Value)
    ensures r.Str? <==> a.Str? || b.Str?
    ensures r.Str? ==> r.s == ToStr(a) + ToStr(b)
    ensures r.Num? ==> r.n == AddNumbers(a.n, b.n)
  {
    if a.Str? || b.Str? then Str(ToStr(a) + ToStr(b)) else Num(AddNumbers(a.n, b.n))
  }

  /** JavaScript's binary `-`: both operands are converted to numbers. */
  function Minus(a: Value, b: Value): Number
  {
    SubNumbers(ToNumber(a), ToNumber(b))
  }

  /** JavaScript's binary `*`: both operands are converted to numbers. */
  function Times(a: Value, b: Value): Number
  {
    MulNumbers(ToNumber(a), ToNumber(b))
  }

  /** The longest prefix of `s` made of decimal digits. */
  function LeadingDigits(s: string): (d: string)
    ensures AllDigits(d) && d <= s
    ensures |d| < |s| ==> !IsDigit(s[|d|])
  {
    if s == [] || !IsDigit(s[0]) then [] else [s[0]] + LeadingDigits(s[1..])
  }

  lemma {:induction false} LeadingDigitsOfDigits(s: string)
    requires AllDigits(s)
    ensures LeadingDigits(s) == s
  {
    if s != [] {
      LeadingDigitsOfDigits(s[1..]);
    }
  }

  /** The longest prefix of `s` made of hexadecimal digits. */
  function LeadingHexDigits(s: string): (d: string)
    ensures AllHexDigits(d) && d <= s
    ensures |d| < |s| ==> !IsHexDigit(s[|d|])
  {
    if s == [] || !IsHexDigit(s[0]) then [] else [s[0]] + LeadingHexDigits(s[1..])
  }

  /**
   * `parseInt(s)` without a radix: an optional sign, then either `0x`/`0X` and
   * the longest run of hexadecimal digits, or the longest run of decimal digits;
   * no digits is NaN.
   */
  function ParseIntString(s: string): (r: Number)
    ensures r.Int? && r.value < 0 ==> |s| > 0 && s[0] == '-'
    ensures r.Int? ==> |s| > 0 && (IsDigit(s[0]) || s[0] == '-' || s[0] == '+')
  {
    var negative := |s| > 0 && s[0] == '-';
    var rest := if |s| > 0 && (s[0] == '-' || s[0] == '+') then s[1..] else s;
    var hex := HasHexPrefix(rest);
    var digits := if hex then LeadingHexDigits(rest[2..]) else LeadingDigits(rest);
    if digits == [] then NaN
    else
      var magnitude := if hex then HexValue(digits) else DigitsValue(digits);
      if negative then Int(-(magnitude as int)) else Int(magnitude)
  }

  /** `parseInt(v)`, which first converts its argument to a string; it gives back any number it is handed. */
  function ParseInt(v: Value): (r: Number)
    ensures v.Num? ==> r == v.n
  {
    if v.Num? then ParseIntStringOfNumber(v.n); ParseIntString(ToStr(v))
    else ParseIntString(ToStr(v))
  }

  lemma ParseIntStringOfNumber(n: Number)
    ensures ParseIntString(NumberToString(n)) == n
  {
    match n
    case NaN =>
      assert !HasHexPrefix("NaN");
    case Int(i) =>
      var k := if i < 0 then -i else i;
      var d := Decimal(k);
      DecimalValue(k);
      LeadingDigitsOfDigits(d);
      assert !HasHexPrefix(d) by { if |d| >= 2 { assert IsDigit(d[1]); } }
      if i < 0 {
        assert NumberToString(n)[1..] == d;
      }
  }

  /** On a non-empty run of digits, parseInt and Number agree. */
  lemma ParseIntOfDigits(s: string)
    requires s != "" && AllDigits(s)
    ensures ParseInt(Str(s)) == ToNumber(Str(s)) == Int(DigitsValue(s))
  {
    LeadingDigitsOfDigits(s);
    assert !HasHexPrefix(s) by { if |s| >= 2 { assert IsDigit(s[1]); } }
  }

  /** Both read a `0x` prefix as hexadecimal: "0x10" is 16 to parseInt and to Number. */
  lemma HexadecimalString()
    ensures ParseInt(Str("0x10")) == ToNumber(Str("0x10")) == Int(16)
  {
    var s := "0x10";
    assert HasHexPrefix(s) && s[2..] == "10";
    assert !AllDigits(s) by { assert !IsDigit(s[1]); }
    assert LeadingHexDigits("10") == "10";
    assert "10"[..1] == "1";
    assert HexValue("10") == 16;
  }
}
