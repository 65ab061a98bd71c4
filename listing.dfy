/**
 * The paging arithmetic and response envelope shared by the artist and release
 * listings (artists.controller.js:21-23, 41 and releases.controller.js:30-32, 68).
 */
module Listing {
  import opened Js
  import opened Wrappers

  /** The inclusive row window passed to `.range(from, to)`. */
  datatype Window = Window(from: Number, to: Number)

  const DefaultPage: Value := Num(Int(1))
  const DefaultLimit: Value := Num(Int(10))

  /** A destructured query parameter with a default: absent gives the default, present gives its string. */
  function Param(query: map<string, string>, name: string, default: Value): (v: Value)
    ensures name in query ==> v == Str(query[name])
    ensures name !in query ==> v == default
  {
    if name in query then Str(query[name]) else default
  }

  /**
   * The window exactly as the handlers compute it: `from = (page - 1) * limit`
   * and `to = from + limit - 1`, where `from + limit` concatenates when `limit`
   * is a query string.
   */
  function AsWritten(page: Value, limit: Value): (w: Window)
    ensures w.from == Requested(page, limit).from
    ensures limit.Num? ==> w == Requested(page, limit)
  {
    var from := Times(Num(Minus(page, Num(Int(1)))), limit);
    Window(from, Minus(Plus(Num(from), limit), Num(Int(1))))
  }

  /**
   * The window the handlers mean: both parameters taken as numbers, so that the
   * window spans exactly `limit` positions starting at `(page - 1) * limit`.
   */
  function Requested(page: Value, limit: Value): (w: Window)
    ensures ToNumber(page).Int? && ToNumber(limit).Int? ==>
      var p, l := ToNumber(page).value, ToNumber(limit).value;
      w.from == Int((p - 1) * l) && w.to.Int? && w.to.value - w.from.value + 1 == l
    ensures ToNumber(page).NaN? || ToNumber(limit).NaN? ==> w == Window(NaN, NaN)
  {
    var from := Times(Num(Minus(page, Num(Int(1)))), limit);
    Window(from, SubNumbers(AddNumbers(from, ToNumber(limit)), Int(1)))
  }

  /** Without page and limit the first ten rows, [0, 9], are requested. */
  lemma DefaultWindow()
    ensures Requested(DefaultPage, DefaultLimit) == Window(Int(0), Int(9))
    ensures AsWritten(DefaultPage, DefaultLimit) == Window(Int(0), Int(9))
  {
  }

  /** The window of page p+1 starts right after the window of page p ends. */
  lemma {:induction false} ConsecutivePagesAdjacent(p: int, l: int)
    ensures Requested(Num(Int(p + 1)), Num(Int(l))).from.value
         == Requested(Num(Int(p)), Num(Int(l))).to.value + 1
  {
    assert p * l == (p - 1) * l + l;
  }

  /** For a positive limit every row position lies in the window of exactly one page. */
  lemma {:induction false} EachRowOnOnePage(i: nat, l: int, p: int)
    requires l >= 1
    ensures var w := Requested(Num(Int(p)), Num(Int(l)));
      w.from.value <= i <= w.to.value <==> p == i / l + 1
  {
    var w := Requested(Num(Int(p)), Num(Int(l)));
    assert w.from.value == (p - 1) * l && w.to.value == (p - 1) * l + l - 1;
    var q := i / l;
    assert q * l <= i < q * l + l;
    if p - 1 < q {
      MultiplyMonotonic(p, q, l);
      assert (p - 1) * l + l == p * l;
    } else if p - 1 > q {
      MultiplyMonotonic(q + 1, p - 1, l);
      assert (q + 1) * l == q * l + l;
    }
  }

  lemma MultiplyMonotonic(a: int, b: int, l: int)
    requires a <= b && l >= 0
    ensures a * l <= b * l
  {
    assert b * l - a * l == (b - a) * l;
  }

  lemma Pow10AtLeastTen(k: nat)
    requires k >= 1
    ensures Pow10(k) >= 10
  {
    if k > 1 { Pow10AtLeastTen(k - 1); }
  }

  /** `Number(String(f) + L)` for a digit string L: the digits of f shifted left by |L| places, then L. */
  lemma ConcatenatedValue(f: int, L: string)
    requires L != "" && AllDigits(L)
    ensures f >= 0 ==> StringToNumber(NumberToString(Int(f)) + L) == Int(f * Pow10(|L|) + DigitsValue(L))
    ensures f < 0 ==> StringToNumber(NumberToString(Int(f)) + L) == Int(-((-f) * Pow10(|L|) + DigitsValue(L)))
  {
    if f >= 0 { ConcatenatedNonNegative(f, L); } else { ConcatenatedNegative(-f, L); }
  }

  lemma ConcatenatedNonNegative(f: nat, L: string)
    requires L != "" && AllDigits(L)
    ensures StringToNumber(NumberToString(Int(f)) + L) == Int(f * Pow10(|L|) + DigitsValue(L))
  {
    var d := Decimal(f);
    DecimalValue(f);
    DigitsValueAppend(d, L);
    StringToNumberOfDigits(d + L);
    assert NumberToString(Int(f)) == d;
  }

  lemma ConcatenatedNegative(n: nat, L: string)
    requires L != "" && AllDigits(L) && n > 0
    ensures StringToNumber(NumberToString(Int(-(n as int))) + L) == Int(-(n * Pow10(|L|) + DigitsValue(L)))
  {
    var d := Decimal(n);
    var s := NumberToString(Int(-(n as int))) + L;
    NegativeConcatenation(-(n as int), L);
    assert s == "-" + (d + L);
    NegativeDigitsValue(n, L);
    var v := DigitsValue(d + L);
    assert v == n * Pow10(|L|) + DigitsValue(L);
    StringToNumberOfNegative(d + L);
    assert StringToNumber(s) == Int(-(v as int));
  }

  /** `String(f) + L` for a negative f is a minus sign before the digits of -f and L. */
  lemma NegativeConcatenation(f: int, L: string)
    requires f < 0
    ensures NumberToString(Int(f)) + L == "-" + (Decimal(-f) + L)
  {
  }

  lemma NegativeDigitsValue(n: nat, L: string)
    requires AllDigits(L)
    ensures AllDigits(Decimal(n) + L)
    ensures DigitsValue(Decimal(n) + L) == n * Pow10(|L|) + DigitsValue(L)
  {
    DecimalValue(n);
    DigitsValueAppend(Decimal(n), L);
  }

  /**
   * The as-written window agrees with the intended one exactly when `limit` is
   * already a number or `from` is 0 (page 1): otherwise `from` and the limit
   * string are concatenated, as in "10" + "10" = "1010".
   */
  lemma AsWrittenAgreesIff(page: Value, limit: Value)
    requires ToNumber(page).Int?
    requires (limit.Num? && limit.n.Int?) || (limit.Str? && limit.s != "" && AllDigits(limit.s))
    ensures AsWritten(page, limit) == Requested(page, limit)
        <==> limit.Num? || Requested(page, limit).from == Int(0)
  {
    if limit.Str? {
      var L := limit.s;
      var l := DigitsValue(L);
      var f := (ToNumber(page).value - 1) * l;
      WindowsWithDigitLimit(page, L);
      Pow10AtLeastTen(|L|);
      ConcatenatedValue(f, L);
      ShiftDiffers(f, Pow10(|L|), l);
    }
  }

  /** Both windows for a limit given as a digit string: they share `from` and differ only in `to`. */
  lemma WindowsWithDigitLimit(page: Value, L: string)
    requires ToNumber(page).Int? && L != "" && AllDigits(L)
    ensures var f := (ToNumber(page).value - 1) * DigitsValue(L);
      && AsWritten(page, Str(L)) == Window(Int(f), SubNumbers(StringToNumber(NumberToString(Int(f)) + L), Int(1)))
      && Requested(page, Str(L)) == Window(Int(f), Int(f + DigitsValue(L) - 1))
  {
    StringToNumberOfDigits(L);
    var f := (ToNumber(page).value - 1) * DigitsValue(L);
    var from := Times(Num(Minus(page, Num(Int(1)))), Str(L));
    FromWithDigitLimit(page, L);
    assert Plus(Num(from), Str(L)) == Str(NumberToString(Int(f)) + L);
  }

  lemma FromWithDigitLimit(page: Value, L: string)
    requires ToNumber(page).Int? && ToNumber(Str(L)).Int?
    ensures Times(Num(Minus(page, Num(Int(1)))), Str(L)) == Int((ToNumber(page).value - 1) * ToNumber(Str(L)).value)
  {
    assert Minus(page, Num(Int(1))) == Int(ToNumber(page).value - 1);
  }

  /** Shifting a non-zero number left by at least one decimal place changes it. */
  lemma ShiftDiffers(f: int, P: int, l: nat)
    requires P >= 10
    ensures f >= 0 ==> (f * P + l == f + l <==> f == 0)
    ensures f < 0 ==> -((-f) * P + l) != f + l
  {
    if f > 0 {
      assert f * P >= f * 10;
    } else if f < 0 {
      assert (-f) * P >= (-f) * 10;
    }
  }

  /** The input that shows the divergence: page "2", limit "10" requests rows 10..1009, not 10..19. */
  lemma SecondPageAsWritten()
    ensures AsWritten(Str("2"), Str("10")) == Window(Int(10), Int(1009))
    ensures Requested(Str("2"), Str("10")) == Window(Int(10), Int(19))
  {
    assert "10"[..1] == "1";
    assert DigitsValue("10") == 10;
    assert DigitsValue("2") == 2;
    ConcatenatedValue(10, "10");
    assert Pow10(2) == 100;
  }

  /** The same with a one-digit limit: page "3", limit "5" requests rows 10..104, not 10..14. */
  lemma ThirdPageAsWritten()
    ensures AsWritten(Str("3"), Str("5")) == Window(Int(10), Int(104))
    ensures Requested(Str("3"), Str("5")) == Window(Int(10), Int(14))
  {
    assert DigitsValue("5") == 5;
    assert DigitsValue("3") == 3;
    ConcatenatedValue(10, "5");
    assert Pow10(1) == 10;
  }

  /** Page 1 given as strings happens to come out right: "0" + "10" is "010", which is 10. */
  lemma FirstPageAsWritten()
    ensures AsWritten(Str("1"), Str("10")) == Requested(Str("1"), Str("10")) == Window(Int(0), Int(9))
  {
    assert "10"[..1] == "1";
    assert DigitsValue("10") == 10;
    assert DigitsValue("1") == 1;
    ConcatenatedValue(0, "10");
  }

  /**
   * The page and limit echoed in the response are `parseInt` of the parameters;
   * for defaults and for digit strings they are the numbers the window was computed from.
   */
  lemma EchoMatchesWindowInputs(v: Value)
    requires v == DefaultPage || v == DefaultLimit || (v.Str? && v.s != "" && AllDigits(v.s))
    ensures ParseInt(v) == ToNumber(v) && ParseInt(v).Int?
  {
    if v.Str? { ParseIntOfDigits(v.s); }
  }

  /** Where they differ: "10abc" is echoed as limit 10, but the window is computed from NaN. */
  lemma EchoDivergesOnTrailingText()
    ensures ParseInt(Str("10abc")) == Int(10)
    ensures Requested(DefaultPage, Str("10abc")) == Window(NaN, NaN)
  {
    var s := "10abc";
    assert !IsDigit(s[2]);
    assert LeadingDigits(s) == "10" by {
      assert LeadingDigits(s[2..]) == [];
    }
    assert DigitsValue("10") == 10;
  }
}
