/**
 * The few JavaScript value semantics the React client relies on:
 * truthiness and `||`, `String(v)` (ToString), `Number(s)` on strings
 * (StringToNumber, section 7.1.4.1.1 of ECMA-262) and property access
 * with optional chaining. Numbers are exact: rounding to the nearest
 * double is not modelled.
 */
module Js {
  import opened Wrappers
  import opened Text

  /** A JavaScript number: NaN, an infinity, or a finite value held exactly. */
  datatype Number = NaN | Infinity(negative: bool) | Finite(value: real)

  datatype JsValue =
    | Undefined
    | Null
    | Bool(b: bool)
    | Num(n: Number)
    | Str(s: string)
    | Array(elems: seq<JsValue>)
    | Object(props: map<string, JsValue>)

  /** ToBoolean: `undefined`, `null`, `false`, NaN, 0 and "" are falsy, everything else truthy. */
  predicate Truthy(v: JsValue) {
    match v
    case Undefined => false
    case Null => false
    case Bool(b) => b
    case Num(n) => n.Infinity? || (n.Finite? && n.value != 0.0)
    case Str(s) => s != ""
    case Array(_) => true
    case Object(_) => true
  }

  /** `a || b`: the left operand when it is truthy, otherwise the right one. */
  function Or(a: JsValue, b: JsValue): (r: JsValue)
    ensures Truthy(a) ==> r == a
    ensures !Truthy(a) ==> r == b
  {
    if Truthy(a) then a else b
  }

  /** `v?.[key]` for a property name: an object's own property, `undefined` otherwise. */
  function Get(v: JsValue, key: string): JsValue {
    match v
    case Object(props) => if key in props then props[key] else Undefined
    case _ => Undefined
  }

  // ------------------------------------------------------------ ToString

  /** The digits after the decimal point of a fraction in [0, 1), at most `fuel` of them. */
  function FractionDigits(f: real, fuel: nat): (r: string)
    requires 0.0 <= f < 1.0
    ensures AllDigits(r) && |r| <= fuel
    decreases fuel
  {
    if f == 0.0 || fuel == 0 then []
    else
      var d := (f * 10.0).Floor;
      [DigitChar(d)] + FractionDigits(f * 10.0 - d as real, fuel - 1)
  }

  /** The largest number of fraction digits Number::toString writes (a double has at most 17 significant digits). */
  const MaxFractionDigits := 20

  /** The plain decimal text of a non-negative value. */
  function PlainDecimal(r: real): string
    requires r >= 0.0
  {
    var whole := r.Floor;
    var fraction := r - whole as real;
    NatToString(whole) + (if fraction == 0.0 then "" else "." + FractionDigits(fraction, MaxFractionDigits))
  }

  /** Number::toString in plain decimal notation. */
  function NumberToString(n: Number): string {
    match n
    case NaN => "NaN"
    case Infinity(negative) => if negative then "-Infinity" else "Infinity"
    case Finite(r) => if r < 0.0 then "-" + PlainDecimal(-r) else PlainDecimal(r)
  }

  /** An integer prints as its decimal text. */
  lemma IntegerToString(i: int)
    ensures NumberToString(Finite(i as real)) == IntToString(i)
  {
    if i < 0 {
      assert -(i as real) == (-i) as real;
      WholeDecimal(-i);
    } else {
      WholeDecimal(i);
    }
  }

  /** A whole number has no fraction part to print. */
  lemma WholeDecimal(n: nat)
    ensures PlainDecimal(n as real) == NatToString(n)
  {
    assert (n as real).Floor == n;
  }

  /**
   * `String(v)`: an array is its elements' texts joined by ",", with
   * `null` and `undefined` elements written as ""; a plain object is
   * "[object Object]".
   */
  function ToString(v: JsValue): string {
    match v
    case Undefined => "undefined"
    case Null => "null"
    case Bool(b) => if b then "true" else "false"
    case Num(n) => NumberToString(n)
    case Str(s) => s
    case Array(elems) =>
      Join(seq(|elems|, i requires 0 <= i < |elems| =>
             if elems[i].Undefined? || elems[i].Null? then "" else ToString(elems[i])), ",")
    case Object(_) => "[object Object]"
  }

  // ------------------------------------------------------- StringToNumber

  /** The value of a digit in base 2, 8 or 16, if `c` is one. */
  function RadixDigit(c: char, radix: nat): (d: int)
    ensures d < radix
  {
    var v := if '0' <= c <= '9' then c as int - '0' as int
             else if 'a' <= c <= 'f' then c as int - 'a' as int + 10
             else if 'A' <= c <= 'F' then c as int - 'A' as int + 10
             else -1;
    if v < radix then v else -1
  }

  predicate AllRadix(s: string, radix: nat) {
    forall i | 0 <= i < |s| :: RadixDigit(s[i], radix) >= 0
  }

  function RadixValue(s: string, radix: nat): nat
    requires AllRadix(s, radix)
  {
    if s == [] then 0
    else radix * RadixValue(s[..|s| - 1], radix) + RadixDigit(s[|s| - 1], radix) as nat
  }

  function Pow10(e: nat): (p: real)
    ensures p >= 1.0
  {
    if e == 0 then 1.0 else 10.0 * Pow10(e - 1)
  }

  /** 10 raised to an integer power. */
  function Scale(e: int): (p: real)
    ensures p > 0.0
  {
    if e >= 0 then Pow10(e) else 1.0 / Pow10(-e)
  }

  /** The position of the first exponent mark `e` or `E`, if any. */
  function ExponentMark(s: string): (k: int)
    ensures -1 <= k < |s|
    ensures k >= 0 ==> (s[k] == 'e' || s[k] == 'E') && 'e' !in s[..k] && 'E' !in s[..k]
    ensures k == -1 ==> 'e' !in s && 'E' !in s
  {
    if s == [] then -1
    else if s[0] == 'e' || s[0] == 'E' then 0
    else
      var k := ExponentMark(s[1..]);
      if k == -1 then -1
      else
        assert s[..k + 1] == [s[0]] + s[1..][..k];
        k + 1
  }

  /** An optionally signed, non-empty run of decimal digits: ExponentPart after its mark. */
  function ParseExponent(x: string): (e: Option<int>) {
    if x != [] && (x[0] == '+' || x[0] == '-') then
      if x[1..] != [] && AllDigits(x[1..]) then
        Some(if x[0] == '-' then -(DigitsValue(x[1..]) as int) else DigitsValue(x[1..]))
      else None
    else if x != [] && AllDigits(x) then Some(DigitsValue(x))
    else None
  }

  /** Digits, optionally a point and more digits, with at least one digit in all. */
  function ParseMantissa(m: string): (v: Option<real>)
    ensures v.Some? ==> v.value >= 0.0
  {
    if '.' in m then
      var k := IndexOf(m, '.');
      var whole, fraction := m[..k], m[k + 1..];
      if whole + fraction != [] && AllDigits(whole + fraction) then
        Some(DigitsValue(whole + fraction) as real / Pow10(|fraction|))
      else None
    else if m != [] && AllDigits(m) then Some(DigitsValue(m) as real)
    else None
  }

  /** StrUnsignedDecimalLiteral: "Infinity", or a mantissa with an optional exponent. */
  function ParseUnsigned(s: string): Number {
    if s == "Infinity" then Infinity(false)
    else
      var k := ExponentMark(s);
      var mantissa := if k >= 0 then ParseMantissa(s[..k]) else ParseMantissa(s);
      var exponent := if k >= 0 then ParseExponent(s[k + 1..]) else Some(0);
      if mantissa.Some? && exponent.Some? then Finite(mantissa.value * Scale(exponent.value)) else NaN
  }

  /** A non-decimal integer literal: "0x", "0o" or "0b" (either case) and at least one digit of that base. */
  function ParseRadix(s: string): (n: Option<Number>) {
    if |s| > 2 && s[0] == '0' then
      var radix := if s[1] in "xX" then 16 else if s[1] in "oO" then 8 else if s[1] in "bB" then 2 else 0;
      if radix > 0 && AllRadix(s[2..], radix) then Some(Finite(RadixValue(s[2..], radix) as real)) else None
    else None
  }

  /**
   * `Number(s)` for a string: the text without surrounding white space is
   * 0 when empty, otherwise a non-decimal integer literal, or a decimal
   * literal with an optional sign; anything else is NaN.
   */
  function StringToNumber(s: string): (n: Number)
    ensures Blank(s, IsJsSpace) ==> n == Finite(0.0)
  {
    ParseTrimmed(JsTrim(s))
  }

  /** StringNumericLiteral without its surrounding white space. */
  function ParseTrimmed(t: string): Number {
    if t == [] then Finite(0.0)
    else if ParseRadix(t).Some? then ParseRadix(t).value
    else if t[0] == '-' then
      match ParseUnsigned(t[1..])
      case Finite(r) => Finite(-r)
      case Infinity(_) => Infinity(true)
      case NaN => NaN
    else if t[0] == '+' then ParseUnsigned(t[1..])
    else ParseUnsigned(t)
  }

  /** Surrounding white space never changes the number a string denotes. */
  lemma StringToNumberTrimmed(s: string)
    ensures StringToNumber(JsTrim(s)) == StringToNumber(s)
  {
    TrimIdempotent(s, IsJsSpace);
  }

  /** A decimal digit string, as a mantissa, denotes its digits' value. */
  lemma DigitsMantissa(s: string)
    requires s != [] && AllDigits(s)
    ensures ParseUnsigned(s) == Finite(DigitsValue(s) as real)
  {
    assert '.' !in s;
    assert ExponentMark(s) == -1;
    assert s != "Infinity" by { assert IsDigit(s[0]); }
  }

  /** `Number(String(n))` is `n` for every integer: the decimal text reads back as the same number. */
  lemma IntegerRoundTrip(i: int)
    ensures StringToNumber(IntToString(i)) == Finite(i as real)
  {
    if i < 0 {
      var digits := NatToString(-i);
      NegativeDigits(digits);
      TextKept("-" + digits);
    } else {
      var digits := NatToString(i);
      PlainDigits(digits);
      TextKept(digits);
    }
  }

  /** A text that starts with a sign or a digit and ends with a digit has no white space to trim. */
  lemma TextKept(t: string)
    requires t != [] && (t[0] == '-' || IsDigit(t[0])) && IsDigit(t[|t| - 1])
    ensures StringToNumber(t) == ParseTrimmed(t)
  {
    assert !IsJsSpace(t[0]) && !IsJsSpace(t[|t| - 1]);
    TrimKeeps(t, IsJsSpace);
    assert JsTrim(t) == t;
  }

  /** Decimal digits without a superfluous leading zero read as their value. */
  lemma PlainDigits(digits: string)
    requires digits != [] && AllDigits(digits) && (|digits| > 1 ==> digits[0] != '0')
    ensures ParseTrimmed(digits) == Finite(DigitsValue(digits) as real)
  {
    DigitsMantissa(digits);
    assert ParseRadix(digits).None?;
    assert digits[0] != '-' && digits[0] != '+' by { assert IsDigit(digits[0]); }
  }

  /** A minus sign before decimal digits negates their value. */
  lemma NegativeDigits(digits: string)
    requires digits != [] && AllDigits(digits)
    ensures ParseTrimmed("-" + digits) == Finite(-(DigitsValue(digits) as real))
  {
    DigitsMantissa(digits);
    NegatedUnsigned(digits, DigitsValue(digits) as real);
  }

  /** A minus sign before a finite unsigned literal negates it. */
  lemma NegatedUnsigned(rest: string, r: real)
    requires ParseUnsigned(rest) == Finite(r)
    ensures ParseTrimmed("-" + rest) == Finite(-r)
  {
    var t := "-" + rest;
    assert t[0] == '-' && t[1..] == rest;
    assert ParseRadix(t).None?;
  }

  /** A mantissa whose first character is neither a digit nor a point is not a number. */
  lemma MantissaStart(m: string)
    requires m != [] && !IsDigit(m[0]) && m[0] != '.'
    ensures ParseMantissa(m).None?
  {
    if '.' in m {
      var k := IndexOf(m, '.');
      assert (m[..k] + m[k + 1..])[0] == m[0];
    }
  }

  /**
   * A text that starts with anything but a digit, a point, a sign or the
   * "I" of "Infinity" (after trimming) is NaN: "x", "abc", "e5".
   */
  lemma NonNumericStart(s: string)
    requires var t := JsTrim(s); t != [] && !IsDigit(t[0]) && t[0] !in ".+-I"
    ensures StringToNumber(s) == NaN
  {
    TrimmedNonNumeric(JsTrim(s));
  }

  lemma TrimmedNonNumeric(t: string)
    requires t != [] && !IsDigit(t[0]) && t[0] !in ".+-I"
    ensures ParseTrimmed(t) == NaN
  {
    UnsignedNonNumeric(t);
    assert ParseRadix(t).None?;
  }

  lemma UnsignedNonNumeric(t: string)
    requires t != [] && !IsDigit(t[0]) && t[0] !in ".+-I"
    ensures ParseUnsigned(t) == NaN
  {
    assert t != "Infinity";
    var k := ExponentMark(t);
    if k > 0 {
      MantissaStart(t[..k]);
    } else if k == -1 {
      MantissaStart(t);
    }
  }

  /** Text that is not a numeric literal, such as "x", is NaN. */
  lemma LetterIsNaN()
    ensures StringToNumber("x") == NaN
  {
    LetterKept();
    LetterNotNumeric();
  }

  lemma LetterKept()
    ensures JsTrim("x") == "x"
  {
    var t := "x";
    assert |t| == 1 && t[0] == 'x';
    TrimKeeps(t, IsJsSpace);
  }

  lemma LetterNotNumeric()
    ensures ParseTrimmed("x") == NaN
  {
    var t := "x";
    assert |t| == 1 && t[0] == 'x';
    assert !IsDigit(t[0]);
    TrimmedNonNumeric(t);
  }
}
