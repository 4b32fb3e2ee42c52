/** The values of a parsed JSON request body, and JavaScript's `Number`
    conversion of them, on exact decimals: a number is a coefficient times
    a power of ten, with no rounding to double precision. NaN and the two
    infinities are None: every caller here treats them alike (an amount
    check fails, a round duration falls back to one hour). None of the
    lemmas here goes by induction, so automatic induction is switched off
    on them. */
module JsValues {
  import opened Wrappers
  import opened Text

  /** 10 to the power n. */
  function Pow10(n: nat): (p: nat)
    ensures p >= 1
  {
    if n == 0 then 1 else 10 * Pow10(n - 1)
  }

  /** A finite number written in decimal: coefficient times 10 to the power
      exponent. Every value a decimal literal, a JSON number or a
      conversion here produces is one. */
  datatype Decimal = Decimal(coefficient: int, exponent: int)

  /** The value of a decimal, as an exact rational. */
  function RealValue(d: Decimal): real
  {
    if d.exponent >= 0 then (d.coefficient * Pow10(d.exponent)) as real
    else d.coefficient as real / Pow10(-d.exponent) as real
  }

  /** The whole number a decimal denotes, when it denotes one. */
  function IntegerOf(d: Decimal): (r: Option<int>)
    ensures r.Some? <==> RealValue(d).Floor as real == RealValue(d)
    ensures r.Some? ==> r.value as real == RealValue(d)
    ensures d.exponent >= 0 ==> r == Some(d.coefficient * Pow10(d.exponent))
  {
    var v := RealValue(d);
    if v.Floor as real == v then Some(v.Floor) else None
  }

  /** A decimal with one digit after the point is a tenth of its coefficient. */
  lemma {:induction false} TenthsValue(c: int)
    ensures RealValue(Decimal(c, -1)) == c as real / 10.0
  {
    assert Pow10(1) == 10;
  }

  // ---------------------------------------------------------------------
  // `Number(string)`

  /** The value of a hexadecimal digit, or -1 for any other character. */
  function HexDigitValue(c: char): (v: int)
    ensures -1 <= v < 16
    ensures IsDigit(c) ==> v == c as int - '0' as int
  {
    if '0' <= c <= '9' then c as int - '0' as int
    else if 'a' <= c <= 'f' then c as int - 'a' as int + 10
    else if 'A' <= c <= 'F' then c as int - 'A' as int + 10
    else -1
  }

  /** The base a `0x`, `0o` or `0b` prefix names, or 0 for any other letter. */
  function RadixOf(c: char): nat
  {
    if c == 'x' || c == 'X' then 16
    else if c == 'o' || c == 'O' then 8
    else if c == 'b' || c == 'B' then 2
    else 0
  }

  predicate AllRadixDigits(s: string, radix: nat)
  {
    forall i :: 0 <= i < |s| ==> 0 <= HexDigitValue(s[i]) < radix
  }

  /** The value of a string of digits in the given base. */
  function RadixValue(s: string, radix: nat): nat
    requires AllRadixDigits(s, radix)
  {
    if s == [] then 0 else RadixValue(s[..|s| - 1], radix) * radix + HexDigitValue(s[|s| - 1])
  }

  /** The index of the first c or d in s, or |s| when there is none. */
  function FirstOf(s: string, c: char, d: char): (k: nat)
    ensures k <= |s|
    ensures k < |s| ==> s[k] == c || s[k] == d
    ensures forall i :: 0 <= i < k ==> s[i] != c && s[i] != d
  {
    if s == [] || s[0] == c || s[0] == d then 0 else 1 + FirstOf(s[1..], c, d)
  }

  /** Digits around an optional decimal point, as in `12`, `12.5`, `.5` or
      `12.`, with at least one digit. */
  function Mantissa(m: string): Option<Decimal>
  {
    var d := FirstOf(m, '.', '.');
    var whole := m[..d];
    var fraction := if d < |m| then m[d + 1..] else "";
    if (whole != "" || fraction != "") && AllDigits(whole) && AllDigits(fraction) then
      Some(Decimal(DigitsValue(whole + fraction), -|fraction|))
    else None
  }

  /** Decimal digits with an optional `+` or `-` in front. */
  function SignedDigits(x: string): Option<int>
  {
    var digits := if x != [] && (x[0] == '+' || x[0] == '-') then x[1..] else x;
    if digits != [] && AllDigits(digits) then
      var v: int := DigitsValue(digits);
      Some(if x[0] == '-' then -v else v)
    else None
  }

  /** An unsigned decimal literal: a mantissa, then optionally `e` or `E`
      and a signed exponent. `Infinity` is not one: its value is infinite,
      which is None here. */
  function DecimalLiteral(u: string): Option<Decimal>
  {
    var k := FirstOf(u, 'e', 'E');
    var mantissa := Mantissa(u[..k]);
    if k == |u| then mantissa
    else
      var exponent := SignedDigits(u[k + 1..]);
      if mantissa.Some? && exponent.Some? then Some(mantissa.value.(exponent := mantissa.value.exponent + exponent.value))
      else None
  }

  /** `Number(s)`: white space trimmed from both ends, then what the rest
      spells. */
  function StringToNumber(s: string): Option<Decimal>
  {
    TrimmedToNumber(Trim(s))
  }

  /** What a trimmed string spells: nothing (0), an unsigned `0x`, `0o` or
      `0b` integer, or a decimal literal with an optional sign. */
  function TrimmedToNumber(t: string): Option<Decimal>
  {
    if t == "" then Some(Decimal(0, 0))
    else if RadixPrefixed(t) then RadixLiteral(t)
    else SignedLiteral(t)
  }

  /** `0x`, `0o` or `0b` and at least one more character. */
  predicate RadixPrefixed(t: string)
  {
    |t| > 2 && t[0] == '0' && RadixOf(t[1]) != 0
  }

  /** The integer after a `0x`, `0o` or `0b` prefix. */
  function RadixLiteral(t: string): Option<Decimal>
    requires RadixPrefixed(t)
  {
    var radix := RadixOf(t[1]);
    if AllRadixDigits(t[2..], radix) then Some(Decimal(RadixValue(t[2..], radix), 0)) else None
  }

  /** A decimal literal with an optional `-` or `+` in front. */
  function SignedLiteral(t: string): Option<Decimal>
    requires t != ""
  {
    if t[0] == '-' then Negated(DecimalLiteral(t[1..]))
    else if t[0] == '+' then DecimalLiteral(t[1..])
    else DecimalLiteral(t)
  }

  function Negated(v: Option<Decimal>): Option<Decimal>
  {
    if v.Some? then Some(v.value.(coefficient := -v.value.coefficient)) else None
  }

  /** A string that neither starts nor ends with white space is its own trim. */
  lemma {:induction false} Untrimmed(s: string)
    requires s != [] && !IsJsWhitespace(s[0]) && !IsJsWhitespace(s[|s| - 1])
    ensures Trim(s) == s
  {
    TrimPadded("", s, "");
    assert "" + s + "" == s;
  }

  /** What `Number` sees of a string that is its own trim and does not start
      with `0x`, `0o`, `0b` or a sign: the decimal literal it spells. */
  lemma {:induction false} PlainToNumber(s: string)
    requires Trim(s) == s && s != [] && s[0] != '-' && s[0] != '+'
    requires |s| > 2 ==> s[0] != '0' || RadixOf(s[1]) == 0
    ensures StringToNumber(s) == DecimalLiteral(s)
  {
  }

  /** With no c or d anywhere in s, FirstOf runs to the end. */
  lemma {:induction false} FirstOfAbsent(s: string, c: char, d: char)
    requires forall i :: 0 <= i < |s| ==> s[i] != c && s[i] != d
    ensures FirstOf(s, c, d) == |s|
  {
  }

  /** A literal with no `e` or `E` is its mantissa alone. */
  lemma {:induction false} NoExponent(u: string)
    requires forall i :: 0 <= i < |u| ==> u[i] != 'e' && u[i] != 'E'
    ensures DecimalLiteral(u) == Mantissa(u)
  {
    FirstOfAbsent(u, 'e', 'E');
    assert u[..|u|] == u;
  }

  /** A mantissa without a point is a number exactly when it is digits. */
  lemma {:induction false} NoPointMantissa(m: string)
    requires forall i :: 0 <= i < |m| ==> m[i] != '.'
    ensures Mantissa(m) == if m != [] && AllDigits(m) then Some(Decimal(DigitsValue(m), 0)) else None
  {
    FirstOfAbsent(m, '.', '.');
    var whole := m[..FirstOf(m, '.', '.')];
    assert whole == m;
    assert whole + "" == m;
  }

  /** Digits without a point are their own mantissa. */
  lemma {:induction false} DigitsMantissa(s: string)
    requires s != [] && AllDigits(s)
    ensures Mantissa(s) == Some(Decimal(DigitsValue(s), 0))
  {
    NoPointMantissa(s);
  }

  /** A literal that starts with neither a digit nor a point is no number:
      `Infinity`, `NaN` or a word. */
  lemma {:induction false} NonDigitStart(u: string)
    requires u != [] && !IsDigit(u[0]) && u[0] != '.'
    ensures DecimalLiteral(u) == None
  {
    var m := u[..FirstOf(u, 'e', 'E')];
    var d := FirstOf(m, '.', '.');
    if m != [] {
      assert m[0] == u[0];
      assert d > 0 && m[..d][0] == u[0];
    }
  }

  /** Digits without a point or exponent are their own literal. */
  lemma {:induction false} DigitsDecimal(s: string)
    requires s != [] && AllDigits(s)
    ensures DecimalLiteral(s) == Some(Decimal(DigitsValue(s), 0))
  {
    NoExponent(s);
    DigitsMantissa(s);
  }

  /** A string of decimal digits converts to its value. */
  lemma {:induction false} DigitsToNumber(s: string)
    requires s != [] && AllDigits(s)
    ensures StringToNumber(s) == Some(Decimal(DigitsValue(s), 0))
  {
    Untrimmed(s);
    PlainToNumber(s);
    DigitsDecimal(s);
  }

  /** The decimal rendering of a whole number converts back to it. */
  lemma {:induction false} RenderedToNumber(n: nat)
    ensures StringToNumber(NatToString(n)) == Some(Decimal(n, 0))
  {
    NatToStringRoundTrip(n);
    DigitsToNumber(NatToString(n));
  }

  /** `0x`, `0o` or `0b` and digits of that base: their value in the base. */
  lemma {:induction false} RadixToNumber(mark: char, digits: string)
    requires RadixOf(mark) != 0 && digits != [] && AllRadixDigits(digits, RadixOf(mark))
    ensures StringToNumber(['0', mark] + digits) == Some(Decimal(RadixValue(digits, RadixOf(mark)), 0))
  {
    var t := ['0', mark] + digits;
    assert t[|t| - 1] == digits[|digits| - 1];
    assert 0 <= HexDigitValue(digits[|digits| - 1]);
    Untrimmed(t);
    assert t[1] == mark && t[2..] == digits;
  }

  /** White space around a string does not change what it converts to. */
  lemma {:induction false} PaddedToNumber(before: string, s: string, after: string)
    requires AllWhitespace(before) && AllWhitespace(after)
    requires s != [] && !IsJsWhitespace(s[0]) && !IsJsWhitespace(s[|s| - 1])
    ensures StringToNumber(before + s + after) == StringToNumber(s)
  {
    TrimPadded(before, s, after);
    Untrimmed(s);
  }

  /** Digits and a point with digits after it: all the digits, as a mantissa. */
  lemma {:induction false} PointMantissa(whole: string, fraction: string)
    requires whole != [] && AllDigits(whole) && AllDigits(fraction)
    ensures AllDigits(whole + fraction)
    ensures Mantissa(whole + "." + fraction) == Some(Decimal(DigitsValue(whole + fraction), -|fraction|))
  {
    assert forall i :: 0 <= i < |whole| ==> whole[i] != '.';
    MantissaParts(whole, fraction);
    DigitsConcat(whole, fraction);
  }

  /** A mantissa with a point after a part with no point: the digits on
      either side. */
  lemma {:induction false} MantissaParts(whole: string, fraction: string)
    requires forall i :: 0 <= i < |whole| ==> whole[i] != '.'
    ensures Mantissa(whole + "." + fraction) ==
      if (whole != "" || fraction != "") && AllDigits(whole) && AllDigits(fraction)
      then Some(Decimal(DigitsValue(whole + fraction), -|fraction|)) else None
  {
    var u := whole + "." + fraction;
    Around(whole, '.', fraction);
    assert FirstOf(u, '.', '.') == |whole|;
  }

  /** The pieces of a string with one character between two parts. */
  lemma {:induction false} Around(a: string, c: char, b: string)
    ensures var u := a + [c] + b;
      u[|a|] == c && u[..|a|] == a && u[|a| + 1..] == b && forall i :: 0 <= i < |a| ==> u[i] == a[i]
  {
    var u := a + [c] + b;
    assert u[..|a|] == a;
    assert u[|a| + 1..] == b;
  }

  /** Two digit strings together are one. */
  lemma {:induction false} DigitsConcat(a: string, b: string)
    requires AllDigits(a) && AllDigits(b)
    ensures AllDigits(a + b)
  {
    assert forall i :: |a| <= i < |a + b| ==> (a + b)[i] == b[i - |a|];
  }

  /** Digits, a decimal point and digits: all the digits, scaled down by
      the number of digits after the point. */
  lemma {:induction false} FractionDecimal(whole: string, fraction: string)
    requires whole != [] && AllDigits(whole) && AllDigits(fraction)
    ensures AllDigits(whole + fraction)
    ensures DecimalLiteral(whole + "." + fraction) == Some(Decimal(DigitsValue(whole + fraction), -|fraction|))
  {
    var u := whole + "." + fraction;
    forall i | 0 <= i < |u|
      ensures u[i] != 'e' && u[i] != 'E'
    {
      if i < |whole| {
        assert u[i] == whole[i];
      } else if i > |whole| {
        assert u[i] == fraction[i - |whole| - 1];
      }
    }
    NoExponent(u);
    PointMantissa(whole, fraction);
  }

  /** A literal with a decimal point converts to its digits scaled down by
      the number of digits after the point. */
  lemma {:induction false} FractionToNumber(whole: string, fraction: string)
    requires whole != [] && AllDigits(whole) && AllDigits(fraction)
    ensures AllDigits(whole + fraction)
    ensures StringToNumber(whole + "." + fraction) == Some(Decimal(DigitsValue(whole + fraction), -|fraction|))
  {
    var u := whole + "." + fraction;
    assert u[0] == whole[0];
    if fraction == [] {
      assert u[|u| - 1] == '.';
    } else {
      assert u[|u| - 1] == fraction[|fraction| - 1];
    }
    Untrimmed(u);
    if |u| > 2 {
      assert u[1] == '.' || u[1] == whole[1];
    }
    PlainToNumber(u);
    FractionDecimal(whole, fraction);
  }

  /** Digits, `e` and digits: the first digits times ten to the power of the
      second. */
  lemma {:induction false} ExponentDecimal(whole: string, exponent: string)
    requires whole != [] && AllDigits(whole) && exponent != [] && AllDigits(exponent)
    ensures DecimalLiteral(whole + "e" + exponent) == Some(Decimal(DigitsValue(whole), DigitsValue(exponent)))
  {
    var u := whole + "e" + exponent;
    var k := FirstOf(u, 'e', 'E');
    assert u[|whole|] == 'e';
    assert forall i :: 0 <= i < |whole| ==> u[i] == whole[i];
    assert u[..k] == whole && u[k + 1..] == exponent;
    DigitsMantissa(whole);
    assert SignedDigits(exponent) == Some(DigitsValue(exponent) as int) by {
      assert exponent[0] != '+' && exponent[0] != '-';
    }
  }

  /** A mantissa with an exponent converts to the mantissa's digits times a
      power of ten. */
  lemma {:induction false} ExponentToNumber(whole: string, exponent: string)
    requires whole != [] && AllDigits(whole) && exponent != [] && AllDigits(exponent)
    ensures StringToNumber(whole + "e" + exponent) == Some(Decimal(DigitsValue(whole), DigitsValue(exponent)))
  {
    var u := whole + "e" + exponent;
    assert u[0] == whole[0] && u[|u| - 1] == exponent[|exponent| - 1];
    Untrimmed(u);
    if |u| > 2 {
      assert u[1] == 'e' || u[1] == whole[1];
    }
    PlainToNumber(u);
    ExponentDecimal(whole, exponent);
  }

  /** A signed literal converts to the value of the unsigned one, negated
      for `-`. */
  lemma {:induction false} SignToNumber(u: string)
    requires u != [] && IsDigit(u[0]) && !IsJsWhitespace(u[|u| - 1])
    ensures StringToNumber("+" + u) == DecimalLiteral(u)
    ensures DecimalLiteral(u).Some? ==>
      StringToNumber("-" + u) == Some(DecimalLiteral(u).value.(coefficient := -DecimalLiteral(u).value.coefficient))
    ensures DecimalLiteral(u).None? ==> StringToNumber("-" + u) == None
  {
    SignedToNumber('+', u);
    SignedToNumber('-', u);
  }

  /** One side of SignToNumber: the sign in front of u is ignored by trim and
      the radix test, and then read by SignedLiteral. */
  lemma {:induction false} SignedToNumber(sign: char, u: string)
    requires sign == '+' || sign == '-'
    requires u != [] && !IsJsWhitespace(u[|u| - 1])
    ensures StringToNumber([sign] + u) == SignedLiteral([sign] + u)
    ensures SignedLiteral([sign] + u) == if sign == '+' then DecimalLiteral(u) else Negated(DecimalLiteral(u))
  {
    var t := [sign] + u;
    assert t[|t| - 1] == u[|u| - 1];
    Untrimmed(t);
    assert !RadixPrefixed(t);
    SignRead(sign, u);
  }

  /** The other side: SignedLiteral reads the sign and the literal after it. */
  lemma {:induction false} SignRead(sign: char, u: string)
    requires sign == '+' || sign == '-'
    ensures SignedLiteral([sign] + u) == if sign == '+' then DecimalLiteral(u) else Negated(DecimalLiteral(u))
  {
    var t := [sign] + u;
    assert t[0] == sign && t[1..] == u;
  }

  // ---------------------------------------------------------------------
  // Spellings of an amount

  /** A digit string with a space in front: 1000. */
  lemma {:induction false} PaddedSpelling(s: string)
    requires s == " 1000"
    ensures StringToNumber(s) == Some(Decimal(1000, 0))
  {
    var d := NatToString(1000);
    assert d == "1000";
    assert s == " " + d + "";
    PaddedToNumber(" ", d, "");
    RenderedToNumber(1000);
  }

  /** Exponent notation: `1e3` is 1000. */
  lemma {:induction false} ExponentSpelling(s: string)
    requires s == "1e3"
    ensures StringToNumber(s) == Some(Decimal(1, 3))
  {
    var whole, exponent := s[..1], s[2..];
    assert s == whole + "e" + exponent;
    assert whole[..0] == [] && exponent[..0] == [];
    assert AllDigits(whole) && DigitsValue(whole) == 1;
    assert AllDigits(exponent) && DigitsValue(exponent) == 3;
    ExponentToNumber(whole, exponent);
  }

  /** A zero fraction: `1000.0` is 1000. */
  lemma {:induction false} FractionSpelling(s: string)
    requires s == "1000.0"
    ensures StringToNumber(s) == Some(Decimal(10000, -1))
  {
    var whole, fraction := s[..4], s[5..];
    assert s == whole + "." + fraction;
    assert fraction == [fraction[0]] && DigitValue(fraction[0]) == 0;
    ThousandDigits(whole);
    DigitsPush(whole, fraction[0]);
    assert DigitsValue(whole + fraction) == 10000;
    FractionToNumber(whole, fraction);
  }

  /** A plus sign: `+2000` is 2000. */
  lemma {:induction false} SignedSpelling(s: string)
    requires s == "+2000"
    ensures StringToNumber(s) == Some(Decimal(2000, 0))
  {
    var d := NatToString(2000);
    assert d == "2000";
    assert s == "+" + d;
    SignToNumber(d);
    NatToStringRoundTrip(2000);
    DigitsDecimal(d);
  }

  /** Hexadecimal: `0x3E8` is 1000. */
  lemma {:induction false} HexSpelling(s: string)
    requires s == "0x3E8"
    ensures StringToNumber(s) == Some(Decimal(1000, 0))
  {
    var d := s[2..];
    assert s == ['0', 'x'] + d;
    assert d[0] == '3' && d[1] == 'E' && d[2] == '8' && |d| == 3;
    var d2, d1 := d[..2], d[..1];
    assert d2[..1] == d1 && d1[..0] == [] && d[..|d| - 1] == d2 && d2[..|d2| - 1] == d1;
    assert AllRadixDigits(d, 16);
    assert RadixValue(d1, 16) == 3;
    assert RadixValue(d2, 16) == 62;
    assert RadixValue(d, 16) == 1000;
    RadixToNumber('x', d);
  }

  /** A thousands separator is not a number: `1,000` is NaN. */
  lemma {:induction false} SeparatorSpelling(s: string)
    requires s == "1,000"
    ensures StringToNumber(s) == None
  {
    Untrimmed(s);
    PlainToNumber(s);
    NoExponent(s);
    NoPointMantissa(s);
    assert s[1] == ',';
  }

  /** `Infinity` is infinite, not a finite number. */
  lemma {:induction false} InfinitySpelling(s: string)
    requires s == "Infinity"
    ensures StringToNumber(s) == None
  {
    Untrimmed(s);
    PlainToNumber(s);
    NonDigitStart(s);
  }

  /** A fraction that is not zero: `1000.5` is no whole number. */
  lemma {:induction false} HalfSpelling(s: string)
    requires s == "1000.5"
    ensures StringToNumber(s) == Some(Decimal(10005, -1))
  {
    var whole, fraction := s[..4], s[5..];
    assert s == whole + "." + fraction;
    assert fraction == [fraction[0]] && DigitValue(fraction[0]) == 5;
    ThousandDigits(whole);
    DigitsPush(whole, fraction[0]);
    assert DigitsValue(whole + fraction) == 10005;
    FractionToNumber(whole, fraction);
  }

  /** The four characters `1000` are the digits of 1000. */
  lemma {:induction false} ThousandDigits(w: string)
    requires w == "1000"
    ensures AllDigits(w) && DigitsValue(w) == 1000
  {
    var d1, d2, d3 := w[..1], w[..2], w[..3];
    assert d1[..0] == [] && d2[..1] == d1 && d3[..2] == d2 && w[..3] == d3;
    assert DigitsValue(d1) == 1;
    assert DigitsValue(d2) == 10;
    assert DigitsValue(d3) == 100;
  }

  /** One more digit at the end: ten times the value, plus the digit. */
  lemma {:induction false} DigitsPush(s: string, c: char)
    requires AllDigits(s) && IsDigit(c)
    ensures AllDigits(s + [c]) && DigitsValue(s + [c]) == DigitsValue(s) * 10 + DigitValue(c)
  {
    assert (s + [c])[..|s|] == s;
  }

  /** The whole-number readings of those values: 1000 for `1e3` and
      `1000.0` as for `1000`, 2000, and none for `1000.5`. */
  lemma SpelledWholeNumbers()
    ensures IntegerOf(Decimal(1000, 0)) == Some(1000) && IntegerOf(Decimal(1, 3)) == Some(1000)
    ensures IntegerOf(Decimal(10000, -1)) == Some(1000) && IntegerOf(Decimal(2000, 0)) == Some(2000)
    ensures IntegerOf(Decimal(10005, -1)) == None
  {
    assert Pow10(3) == 1000;
    TenthsValue(10000);
    TenthsValue(10005);
    assert (1000.5).Floor == 1000;
  }

  // ---------------------------------------------------------------------
  // JSON values

  /** A value of a parsed JSON body; a number is the decimal it is written as. */
  datatype Json = JString(s: string) | JNumber(n: Decimal) | JBool(b: bool) | JNull
                | JArray(elems: seq<Json>) | JObject

  /** `Number(v)`. An array converts through its string form: no element
      gives "" (0), one element gives that element's string (a boolean's is
      "true" or "false", NaN; null's is "", 0; a number's reads back as
      the number), and two or more hold a comma (NaN). An object's string
      form is "[object Object]" (NaN). */
  function ToNumber(v: Json): Option<Decimal>
  {
    match v
    case JNumber(n) => Some(n)
    case JString(s) => StringToNumber(s)
    case JBool(b) => Some(Decimal(if b then 1 else 0, 0))
    case JNull => Some(Decimal(0, 0))
    case JObject => None
    case JArray(elems) =>
      if |elems| == 0 then Some(Decimal(0, 0))
      else if |elems| == 1 && !elems[0].JBool? then ToNumber(elems[0])
      else None
  }
}
