/** The slice of JavaScript value semantics the server code depends on:
    the values a JSON request body carries (plus `undefined` and `NaN`),
    truthiness, the coercions `String(v)`, `Number(v)`, `parseInt` and
    `Math.round`, and plain objects as ordered lists of own entries. */
module Js {
  import opened Wrappers
  import opened Text

  /** A JavaScript value as it appears in request bodies and in the objects
      the server builds. Numbers are exact rationals; `NaN` is kept apart. */
  datatype Value =
    | Undefined
    | Null
    | Bool(b: bool)
    | Num(n: real)
    | NaN
    | Str(s: string)

  /** ToBoolean: the test an `if (v)` or `v ? … : …` performs. */
  predicate Truthy(v: Value) {
    match v
    case Undefined => false
    case Null => false
    case Bool(b) => b
    case Num(n) => n != 0.0
    case NaN => false
    case Str(s) => s != ""
  }

  /** `v == null` (loose equality): true exactly for null and undefined. */
  predicate IsNullish(v: Value) {
    v.Undefined? || v.Null?
  }

  /** Truncation toward zero (ToIntegerOrInfinity on a finite number). */
  function Trunc(x: real): int {
    if x >= 0.0 then x.Floor else -((-x).Floor)
  }

  predicate IsInteger(x: real) {
    x == x.Floor as real
  }

  /** Decimal text of a number: the plain decimal form Number::toString
      uses for 1e-6 <= |x| < 1e21, for integers and for fractions with at
      most 20 decimal places. */
  function NumberText(x: real): string {
    if IsInteger(x) then IntText(x.Floor)
    else
      var a := if x < 0.0 then -x else x;
      (if x < 0.0 then "-" else "") + NatText(a.Floor) + "." + FractionDigits(a - a.Floor as real, 20)
  }

  /** The decimal digits of a fraction in [0, 1), without trailing zeros. */
  function FractionDigits(f: real, width: nat): string
    requires 0.0 <= f < 1.0
    decreases width
  {
    if width == 0 || f == 0.0 then ""
    else
      var d := (f * 10.0).Floor;
      [DigitChar(d)] + FractionDigits(f * 10.0 - d as real, width - 1)
  }

  /** String(v). */
  function ToString(v: Value): string {
    match v
    case Undefined => "undefined"
    case Null => "null"
    case Bool(b) => if b then "true" else "false"
    case Num(n) => NumberText(n)
    case NaN => "NaN"
    case Str(s) => s
  }

  /** StrWhiteSpaceChar: the white space and line terminators that Number(s)
      and parseInt(s) skip: tab, line feed, vertical tab, form feed, carriage
      return, the Unicode space separators, the line and paragraph
      separators and the byte order mark. */
  predicate IsSpace(c: char) {
    || c == '\t' || c == '\n' || c == '\U{B}' || c == '\U{C}' || c == '\r'
    || c == ' ' || c == '\U{A0}' || c == '\U{1680}' || '\U{2000}' <= c <= '\U{200A}'
    || c == '\U{2028}' || c == '\U{2029}' || c == '\U{202F}' || c == '\U{205F}'
    || c == '\U{3000}' || c == '\U{FEFF}'
  }

  /** `s` without its leading white space. */
  function TrimStart(s: string): string {
    if s != [] && IsSpace(s[0]) then TrimStart(s[1..]) else s
  }

  /** TrimStart drops exactly the leading white space: what it keeps is a
      suffix that does not start with white space, and every character it
      drops is white space. */
  lemma {:induction false} TrimStartDrops(s: string)
    ensures var r := TrimStart(s);
      && |r| <= |s| && r == s[|s| - |r|..]
      && (r == [] || !IsSpace(r[0]))
      && forall i :: 0 <= i < |s| - |r| ==> IsSpace(s[i])
  {
    if s != [] && IsSpace(s[0]) {
      TrimStartDrops(s[1..]);
      var r := TrimStart(s[1..]);
      assert forall i :: 1 <= i < |s| - |r| ==> s[i] == s[1..][i - 1];
    }
  }

  /** `s` without its trailing white space. */
  function TrimEnd(s: string): string {
    if s != [] && IsSpace(s[|s| - 1]) then TrimEnd(s[..|s| - 1]) else s
  }

  /** TrimEnd drops exactly the trailing white space: what it keeps is a
      prefix that does not end with white space, and every character it
      drops is white space. */
  lemma {:induction false} TrimEndDrops(s: string)
    ensures var r := TrimEnd(s);
      && |r| <= |s| && r == s[..|r|]
      && (r == [] || !IsSpace(r[|r| - 1]))
      && forall i :: |r| <= i < |s| ==> IsSpace(s[i])
  {
    if s != [] && IsSpace(s[|s| - 1]) {
      TrimEndDrops(s[..|s| - 1]);
      var r := TrimEnd(s[..|s| - 1]);
      assert forall i :: |r| <= i < |s| - 1 ==> s[i] == s[..|s| - 1][i];
    }
  }

  /** String.prototype.trim: white space removed from both ends. */
  function Trim(s: string): string {
    TrimEnd(TrimStart(s))
  }

  /** The longest prefix of `s` made of decimal digits. */
  function DigitPrefix(s: string): (r: string)
    ensures AllDigits(r) && r <= s
  {
    if s != [] && IsDigit(s[0]) then [s[0]] + DigitPrefix(s[1..]) else []
  }

  /** Splits an optional leading sign off `s`. */
  function SplitSign(s: string): (bool, string) {
    if s != [] && s[0] == '-' then (true, s[1..])
    else if s != [] && s[0] == '+' then (false, s[1..])
    else (false, s)
  }

  /** parseInt(s) with the default radix: leading white space, an optional
      sign, then the longest run of decimal digits; NaN when there is none. */
  function ParseInt(s: string): (r: Value)
    ensures r.Num? || r.NaN?
    ensures r.Num? ==> IsInteger(r.n)
  {
    var (negative, body) := SplitSign(TrimStart(s));
    var digits := DigitPrefix(body);
    if digits == [] then NaN
    else
      var magnitude: int := DigitsValue(digits);
      Num((if negative then -magnitude else magnitude) as real)
  }

  /** The value of an ASCII digit or letter as a digit in a radix up to 36,
      and 36 for any other character. */
  function RadixDigit(c: char): nat {
    if '0' <= c <= '9' then c as int - '0' as int
    else if 'a' <= c <= 'z' then c as int - 'a' as int + 10
    else if 'A' <= c <= 'Z' then c as int - 'A' as int + 10
    else 36
  }

  predicate AllRadixDigits(s: string, radix: nat) {
    forall i :: 0 <= i < |s| ==> RadixDigit(s[i]) < radix
  }

  /** The number a string of digits in `radix` denotes. */
  function RadixValue(s: string, radix: nat): nat {
    if s == [] then 0 else RadixValue(s[..|s| - 1], radix) * radix + RadixDigit(s[|s| - 1])
  }

  /** The radix a NonDecimalIntegerLiteral names after its leading 0 (x for
      16, o for 8, b for 2), or 0 for any other character. */
  function RadixOf(c: char): nat {
    if c == 'x' || c == 'X' then 16
    else if c == 'o' || c == 'O' then 8
    else if c == 'b' || c == 'B' then 2
    else 0
  }

  /** m × 10^e, one power of ten at a time. */
  function Scale(m: real, e: int): real
    decreases if e < 0 then -e else e
  {
    if e == 0 then m
    else if e > 0 then Scale(m * 10.0, e - 1)
    else Scale(m / 10.0, e + 1)
  }

  /** The index of the first exponent mark (e or E) in `s`, or |s|. */
  function ExponentMark(s: string): (i: nat)
    ensures i <= |s|
    ensures i < |s| ==> s[i] == 'e' || s[i] == 'E'
    ensures forall k :: 0 <= k < i ==> s[k] != 'e' && s[k] != 'E'
  {
    if s == [] || s[0] == 'e' || s[0] == 'E' then 0
    else
      var i := ExponentMark(s[1..]);
      assert forall k :: 1 <= k < i + 1 ==> s[k] == s[1..][k - 1];
      i + 1
  }

  /** The value of fraction digits after a decimal point: each digit counts
      a tenth of the one before it. */
  function FractionValue(d: string): (r: real)
    requires AllDigits(d)
    ensures 0.0 <= r <= 1.0
  {
    if d == [] then 0.0 else (DigitValue(d[0]) as real + FractionValue(d[1..])) / 10.0
  }

  /** The mantissa of a decimal literal: digits, digits followed by a point
      and optional fraction digits, or a point followed by digits. */
  function MantissaValue(s: string): Option<real> {
    var whole := DigitPrefix(s);
    var rest := s[|whole|..];
    if rest == [] then
      if whole == [] then None else Some(DigitsValue(whole) as real)
    else if rest[0] == '.' && AllDigits(rest[1..]) && (whole != [] || |rest| > 1) then
      Some(DigitsValue(whole) as real + FractionValue(rest[1..]))
    else None
  }

  /** StrUnsignedDecimalLiteral other than Infinity: a mantissa, then
      optionally e or E, an optional sign and decimal digits. */
  function UnsignedDecimalValue(s: string): Option<real> {
    var i := ExponentMark(s);
    match MantissaValue(s[..i])
    case None => None
    case Some(m) =>
      if i == |s| then Some(m)
      else
        var (negative, digits) := SplitSign(s[i + 1..]);
        if digits == [] || !AllDigits(digits) then None
        else
          var e: int := DigitsValue(digits);
          Some(Scale(m, if negative then -e else e))
  }

  /** StringToNumber: white space trimmed from both ends, then the literal
      read. None stands for NaN and for the infinities. */
  function StringToNumber(s: string): Option<real> {
    LiteralValue(Trim(s))
  }

  /** StrNumericLiteral: blank text is 0; otherwise a binary, octal or
      hexadecimal integer literal (unsigned), or an optionally signed
      decimal literal or Infinity. */
  function LiteralValue(t: string): Option<real> {
    if t == [] then Some(0.0)
    else if RadixPrefixed(t) then RadixLiteralValue(t)
    else SignedDecimalValue(t)
  }

  /** `t` starts with 0x, 0o or 0b (either case). */
  predicate RadixPrefixed(t: string) {
    |t| >= 2 && t[0] == '0' && RadixOf(t[1]) != 0
  }

  /** NonDecimalIntegerLiteral: at least one digit of the radix after the
      prefix. */
  function RadixLiteralValue(t: string): Option<real>
    requires RadixPrefixed(t)
  {
    var digits := t[2..];
    if digits != [] && AllRadixDigits(digits, RadixOf(t[1])) then
      Some(RadixValue(digits, RadixOf(t[1])) as real)
    else None
  }

  /** StrDecimalLiteral: an optional sign, then Infinity or an unsigned
      decimal literal. */
  function SignedDecimalValue(t: string): Option<real> {
    var (negative, body) := SplitSign(t);
    if body == "Infinity" then None
    else
      match UnsignedDecimalValue(body)
      case None => None
      case Some(x) => Some(if negative then -x else x)
  }

  /** Number(v), with None standing for NaN and for the infinities. */
  function ToNumber(v: Value): Option<real> {
    match v
    case Undefined => None
    case Null => Some(0.0)
    case Bool(b) => Some(if b then 1.0 else 0.0)
    case Num(n) => Some(n)
    case NaN => None
    case Str(s) => StringToNumber(s)
  }

  /** Math.round: the argument coerced by Number, then the nearest integer,
      halves rounded up; NaN when the coercion gives NaN. */
  function Round(v: Value): (r: Value)
    ensures ToNumber(v).Some? ==> r.Num? && IsInteger(r.n) && r.n - 0.5 <= ToNumber(v).value < r.n + 0.5
    ensures ToNumber(v).None? ==> r == NaN
  {
    match ToNumber(v)
    case Some(x) => Num((x + 0.5).Floor as real)
    case None => NaN
  }

  lemma {:induction false} DigitPrefixOfDigits(s: string)
    requires AllDigits(s)
    ensures DigitPrefix(s) == s
  {
    if s != [] {
      DigitPrefixOfDigits(s[1..]);
    }
  }

  /** Text that starts with anything but white space is not trimmed. */
  lemma TrimStartKeeps(s: string)
    requires s != [] && !IsSpace(s[0])
    ensures TrimStart(s) == s
  {
  }

  /** parseInt of a digit string, with or without a minus sign in front. */
  lemma ParseIntDigits(t: string)
    requires t != [] && AllDigits(t)
    ensures ParseInt(t) == Num(DigitsValue(t) as real)
    ensures ParseInt("-" + t) == Num(-(DigitsValue(t) as real))
  {
    DigitPrefixOfDigits(t);
    assert IsDigit(t[0]);
    TrimStartKeeps(t);
    var u := "-" + t;
    assert u[0] == '-' && u[1..] == t;
    TrimStartKeeps(u);
  }

  /** parseInt reads back the decimal text of any integer. */
  lemma ParseIntText(n: int)
    ensures ParseInt(IntText(n)) == Num(n as real)
  {
    var m := if n < 0 then -n else n;
    NatTextValue(m);
    ParseIntDigits(NatText(m));
  }

  /** parseInt(String(v)) of an integer-valued number is that number, below
      1e21 in magnitude, where String(v) is the plain decimal text. */
  lemma ParseIntOfInteger(x: real)
    requires IsInteger(x) && -1e21 < x < 1e21
    ensures ParseInt(ToString(Num(x))) == Num(x)
  {
    ParseIntText(x.Floor);
  }

  predicate AllSpace(w: string) {
    forall i :: 0 <= i < |w| ==> IsSpace(w[i])
  }

  /** Text that ends with anything but white space is not trimmed. */
  lemma TrimEndKeeps(s: string)
    requires s != [] && !IsSpace(s[|s| - 1])
    ensures TrimEnd(s) == s
  {
  }

  lemma {:induction false} TrimStartSpaces(w: string, s: string)
    requires AllSpace(w)
    ensures TrimStart(w + s) == TrimStart(s)
  {
    if w != [] {
      assert IsSpace(w[0]);
      assert (w + s)[0] == w[0];
      assert (w + s)[1..] == w[1..] + s;
      assert AllSpace(w[1..]) by {
        forall i | 0 <= i < |w[1..]| ensures IsSpace(w[1..][i]) {
          assert w[1..][i] == w[i + 1];
        }
      }
      TrimStartSpaces(w[1..], s);
      assert TrimStart(w + s) == TrimStart(w[1..] + s);
    } else {
      assert w + s == s;
    }
  }

  lemma {:induction false} TrimEndSpaces(s: string, w: string)
    requires AllSpace(w)
    ensures TrimEnd(s + w) == TrimEnd(s)
  {
    if w != [] {
      var v := s + w;
      assert v[|v| - 1] == w[|w| - 1];
      assert v[..|v| - 1] == s + w[..|w| - 1];
      TrimEndSpaces(s, w[..|w| - 1]);
    } else {
      assert s + w == s;
    }
  }

  /** Leading white space of `s + w` is that of `s`, unless `s` is all
      white space. */
  lemma {:induction false} TrimStartAppend(s: string, w: string)
    ensures TrimStart(s + w) == if TrimStart(s) == [] then TrimStart(w) else TrimStart(s) + w
  {
    if s == [] {
      assert s + w == w;
    } else {
      assert (s + w)[0] == s[0];
      if IsSpace(s[0]) {
        assert (s + w)[1..] == s[1..] + w;
        TrimStartAppend(s[1..], w);
      }
    }
  }

  /** trim() ignores white space added at either end. */
  lemma TrimPadded(w1: string, s: string, w2: string)
    requires AllSpace(w1) && AllSpace(w2)
    ensures Trim(w1 + s + w2) == Trim(s)
  {
    assert w1 + s + w2 == w1 + (s + w2);
    TrimStartSpaces(w1, s + w2);
    TrimStartAppend(s, w2);
    if TrimStart(s) == [] {
      TrimStartSpaces(w2, []);
      assert w2 + [] == w2;
    } else {
      TrimEndSpaces(TrimStart(s), w2);
    }
  }

  /** Number(s) ignores white space around the literal. */
  lemma StringToNumberPadded(w1: string, s: string, w2: string)
    requires AllSpace(w1) && AllSpace(w2)
    ensures StringToNumber(w1 + s + w2) == StringToNumber(s)
  {
    TrimPadded(w1, s, w2);
  }

  lemma {:induction false} DigitPrefixStop(whole: string, rest: string)
    requires AllDigits(whole)
    requires rest == [] || !IsDigit(rest[0])
    ensures DigitPrefix(whole + rest) == whole
  {
    if whole == [] {
      assert whole + rest == rest;
    } else {
      assert (whole + rest)[0] == whole[0];
      assert (whole + rest)[1..] == whole[1..] + rest;
      DigitPrefixStop(whole[1..], rest);
    }
  }

  /** A mantissa with a decimal point: the whole digits plus the fraction
      digits scaled down by their count. */
  lemma MantissaPoint(whole: string, frac: string)
    requires whole != [] && AllDigits(whole) && AllDigits(frac)
    ensures MantissaValue(whole + "." + frac)
         == Some(DigitsValue(whole) as real + FractionValue(frac))
  {
    var tail := "." + frac;
    assert whole + "." + frac == whole + tail;
    assert tail[0] == '.' && tail[1..] == frac;
    DigitPrefixStop(whole, tail);
    MantissaSplit(whole + tail, whole, tail);
  }

  /** A mantissa whose leading digits are followed by a point. */
  lemma MantissaSplit(s: string, whole: string, tail: string)
    requires s == whole + tail && DigitPrefix(s) == whole && whole != []
    requires tail != [] && tail[0] == '.' && AllDigits(tail[1..])
    ensures MantissaValue(s) == Some(DigitsValue(whole) as real + FractionValue(tail[1..]))
  {
    assert s[|whole|..] == tail;
  }

  /** A literal that starts with a digit and has no radix prefix is an
      unsigned decimal literal. */
  lemma DigitLedLiteral(t: string)
    requires t != [] && IsDigit(t[0]) && !RadixPrefixed(t)
    ensures LiteralValue(t) == UnsignedDecimalValue(t)
  {
    assert t != "Infinity" by { assert t[0] != "Infinity"[0]; }
  }

  /** An exponent part written as the decimal text of `e` scales the
      mantissa by 10^e. */
  lemma ExponentPart(m: string, e: int, v: real)
    requires forall i :: 0 <= i < |m| ==> m[i] != 'e' && m[i] != 'E'
    requires MantissaValue(m) == Some(v)
    ensures UnsignedDecimalValue(m + "e" + IntText(e)) == Some(Scale(v, e))
  {
    ExponentSplit(m, IntText(e));
    SplitSignIntText(e);
  }

  /** The first exponent mark after a mantissa without one splits the text
      there. */
  lemma ExponentSplit(m: string, x: string)
    requires forall i :: 0 <= i < |m| ==> m[i] != 'e' && m[i] != 'E'
    ensures var s := m + "e" + x;
      ExponentMark(s) == |m| && s[..|m|] == m && s[|m| + 1..] == x
  {
    var s := m + "e" + x;
    assert s[|m|] == 'e';
    assert forall i :: 0 <= i < |m| ==> s[i] == m[i];
  }

  /** The decimal text of an integer splits into its sign and the digits of
      its magnitude. */
  lemma SplitSignIntText(e: int)
    ensures var k := if e < 0 then -e else e;
      && SplitSign(IntText(e)) == (e < 0, NatText(k))
      && NatText(k) != [] && AllDigits(NatText(k)) && DigitsValue(NatText(k)) == k
  {
    var k := if e < 0 then -e else e;
    var x := IntText(e);
    NatTextValue(k);
    if e < 0 {
      assert x[0] == '-' && x[1..] == NatText(k);
    } else {
      assert x[0] == NatText(k)[0] && IsDigit(x[0]);
    }
  }

  /** Digits, a point and digits contain no exponent mark. */
  lemma PointedDigits(whole: string, frac: string)
    requires AllDigits(whole) && AllDigits(frac)
    ensures forall i :: 0 <= i < |whole + "." + frac| ==> (whole + "." + frac)[i] != 'e' && (whole + "." + frac)[i] != 'E'
  {
    var tail := "." + frac;
    var m := whole + tail;
    assert whole + "." + frac == m;
    forall i | 0 <= i < |m| ensures m[i] != 'e' && m[i] != 'E' {
      if i < |whole| {
        assert m[i] == whole[i];
      } else if i > |whole| {
        assert m[i] == tail[i - |whole|] == frac[i - |whole| - 1];
      }
    }
  }

  /** Text that starts with a digit, ends with one and has no radix prefix
      is read as an unsigned decimal literal. */
  lemma DigitBounded(s: string)
    requires s != [] && IsDigit(s[0]) && IsDigit(s[|s| - 1]) && !RadixPrefixed(s)
    ensures StringToNumber(s) == UnsignedDecimalValue(s)
  {
    TrimStartKeeps(s);
    TrimEndKeeps(s);
    DigitLedLiteral(s);
  }

  /** Decimal text `W.FeE` starts and ends with a digit and has no radix
      prefix. */
  lemma DecimalTextEnds(whole: string, frac: string, e: int)
    requires whole != [] && AllDigits(whole) && AllDigits(frac)
    ensures var s := whole + "." + frac + "e" + IntText(e);
      IsDigit(s[0]) && IsDigit(s[|s| - 1]) && !RadixPrefixed(s)
  {
    var m := whole + "." + frac;
    var x := IntText(e);
    var s := m + "e" + x;
    var k := if e < 0 then -e else e;
    assert x[|x| - 1] == NatText(k)[|NatText(k)| - 1];
    assert s[|s| - 1] == x[|x| - 1];
    assert s[0] == whole[0] && s[1] == m[1];
  }

  /** Decimal text `W.FeE` reads as W.F × 10^E, for any digit strings W
      (not empty) and F and any integer E written in decimal. */
  lemma DecimalText(whole: string, frac: string, e: int)
    requires whole != [] && AllDigits(whole) && AllDigits(frac)
    ensures StringToNumber(whole + "." + frac + "e" + IntText(e))
         == Some(Scale(DigitsValue(whole) as real + FractionValue(frac), e))
  {
    var m := whole + "." + frac;
    PointedDigits(whole, frac);
    MantissaPoint(whole, frac);
    ExponentPart(m, e, DigitsValue(whole) as real + FractionValue(frac));
    DecimalTextEnds(whole, frac, e);
    DigitBounded(m + "e" + IntText(e));
  }

  /** A plain digit string is an unsigned decimal literal of its value. */
  lemma UnsignedDigits(t: string)
    requires t != [] && AllDigits(t)
    ensures UnsignedDecimalValue(t) == Some(DigitsValue(t) as real)
  {
    DigitPrefixOfDigits(t);
    assert ExponentMark(t) == |t|;
    assert t[..|t|] == t;
    assert t[|t|..] == [];
  }

  /** A minus sign in front of digit-bounded text negates its value. */
  lemma MinusDigitBounded(t: string)
    requires t != [] && IsDigit(t[0]) && IsDigit(t[|t| - 1])
    ensures StringToNumber("-" + t)
         == match UnsignedDecimalValue(t) case None => None case Some(v) => Some(-v)
  {
    var x := "-" + t;
    assert x[0] == '-' && x[|x| - 1] == t[|t| - 1];
    TrimStartKeeps(x);
    TrimEndKeeps(x);
    assert x[1..] == t;
    assert t != "Infinity" by { assert t[0] != "Infinity"[0]; }
  }

  /** Number reads back the decimal text of any integer. */
  lemma StringToNumberIntText(n: int)
    ensures StringToNumber(IntText(n)) == Some(n as real)
  {
    var k := if n < 0 then -n else n;
    var t := NatText(k);
    NatTextValue(k);
    NatTextLength(k);
    UnsignedDigits(t);
    assert IsDigit(t[0]) && IsDigit(t[|t| - 1]);
    if n < 0 {
      assert IntText(n) == "-" + t;
      MinusDigitBounded(t);
    } else {
      assert IntText(n) == t;
      assert !RadixPrefixed(t);
      DigitBounded(t);
    }
  }

  /** Number(String(x)) is x for an integer-valued number. */
  lemma ToNumberOfInteger(x: real)
    requires IsInteger(x)
    ensures ToNumber(Str(ToString(Num(x)))) == Some(x)
  {
    StringToNumberIntText(x.Floor);
  }

  /** Text without an exponent mark is read by its mantissa alone. */
  lemma NoExponent(m: string)
    requires forall i :: 0 <= i < |m| ==> m[i] != 'e' && m[i] != 'E'
    ensures UnsignedDecimalValue(m) == MantissaValue(m)
  {
    assert m[..|m|] == m;
  }

  /** A fraction: "1.5" is 1.5. */
  lemma FractionExample()
    ensures StringToNumber("1.5") == Some(1.5)
  {
    var m := "1" + "." + "5";
    assert m == "1.5";
    PointedDigits("1", "5");
    MantissaPoint("1", "5");
    assert "5"[..0] == [] && "1"[..0] == [];
    assert FractionValue("5") == 0.5;
    assert MantissaValue(m) == Some(1.5);
    NoExponent(m);
    assert IsDigit(m[0]) && IsDigit(m[2]) && m[1] == '.';
    DigitBounded(m);
  }

  /** The value of "2.5e-1", assembled from its parts. */
  lemma ScaledFractionParts()
    ensures UnsignedDecimalValue("2" + "." + "5" + "e" + IntText(-1)) == Some(0.25)
  {
    PointedDigits("2", "5");
    MantissaPoint("2", "5");
    ExponentPart("2" + "." + "5", -1, 2.5);
  }

  /** "2.5e-1" is an unsigned decimal literal of 0.25. */
  lemma ScaledFractionExample()
    ensures UnsignedDecimalValue("2.5e-1") == Some(0.25)
  {
    ScaledFractionParts();
    assert IntText(-1) == "-1" by { assert NatText(1) == "1"; }
    var s := "2" + "." + "5" + "e" + IntText(-1);
    assert s == "2.5e-1" by {
      assert |s| == 6 && s[0] == '2' && s[1] == '.' && s[2] == '5';
      assert s[3] == 'e' && s[4] == '-' && s[5] == '1';
    }
  }

  /** A sign, a fraction and a negative exponent: "-2.5e-1" is -0.25. */
  lemma SignedExponentExample()
    ensures StringToNumber("-2.5e-1") == Some(-0.25)
  {
    var t := "2.5e-1";
    assert StringToNumber("-" + t) == Some(-0.25) by {
      ScaledFractionExample();
      assert IsDigit(t[0]) && IsDigit(t[|t| - 1]);
      MinusDigitBounded(t);
    }
    var u := "-" + t;
    assert u == "-2.5e-1" by {
      assert |u| == 7 && u[0] == '-';
      assert forall i :: 1 <= i < 7 ==> u[i] == t[i - 1];
    }
  }

  /** A point with no whole digits: ".5" is 0.5. */
  lemma PointExample()
    ensures StringToNumber(".5") == Some(0.5)
  {
    NoExponent(".5");
    TrimStartKeeps(".5");
    TrimEndKeeps(".5");
    assert DigitPrefix(".5") == [];
    assert ".5"[0..] == ".5" && ".5"[1..] == "5";
  }

  /** White space around a literal: " .5\n" is 0.5. */
  lemma PaddedExample()
    ensures StringToNumber(" .5\n") == Some(0.5)
  {
    assert " " + ".5" + "\n" == " .5\n";
    StringToNumberPadded(" ", ".5", "\n");
    PointExample();
  }

  /** An exponent without a point: "1e3" is 1000. */
  lemma ExponentExample()
    ensures StringToNumber("1e3") == Some(1000.0)
  {
    UnsignedDigits("1");
    NoExponent("1");
    ExponentPart("1", 3, 1.0);
    assert NatText(3) == "3";
    assert "1" + "e" + IntText(3) == "1e3";
    DigitBounded("1e3");
  }

  /** A hexadecimal literal: "0x1F" is 31. */
  lemma RadixExample()
    ensures StringToNumber("0x1F") == Some(31.0)
  {
    var t := "0x1F";
    TrimStartKeeps(t);
    TrimEndKeeps(t);
    assert RadixPrefixed(t) && RadixOf(t[1]) == 16;
    var d := t[2..];
    assert d == "1F" && d[..1] == "1" && "1"[..0] == [];
    assert RadixValue("1", 16) == 1;
    assert RadixValue(d, 16) == 31;
  }

  /** Blank text is 0. */
  lemma BlankExample()
    ensures StringToNumber(" \t") == Some(0.0)
  {
    assert " " + "" + "\t" == " \t";
    StringToNumberPadded(" ", "", "\t");
  }

  /** Infinity is not a finite number. */
  lemma InfinityExample()
    ensures StringToNumber("-Infinity") == None
  {
    var t := "-Infinity";
    TrimStartKeeps(t);
    TrimEndKeeps(t);
    assert t[1..] == "Infinity";
  }

  /** Trailing characters that are not part of a literal give NaN. */
  lemma TrailingTextExample()
    ensures StringToNumber("12px") == None
  {
    var t := "12px";
    TrimStartKeeps(t);
    TrimEndKeeps(t);
    assert !RadixPrefixed(t);
    assert t != "Infinity";
    assert ExponentMark(t) == 4;
    assert t[..4] == t;
    assert DigitPrefix(t) == "12";
    assert t[2..] == "px";
  }

  /** A radix literal takes no sign. */
  lemma SignedRadixExample()
    ensures StringToNumber("-0x10") == None
  {
    var t := "-0x10";
    TrimStartKeeps(t);
    TrimEndKeeps(t);
    var b := t[1..];
    assert b == "0x10";
    assert ExponentMark(b) == 4;
    assert b[..4] == b;
    assert DigitPrefix(b) == "0";
    assert b[1..] == "x10";
  }

  /** An object's own enumerable properties, in insertion order
      (Object.entries); property names are distinct. */
  predicate DistinctKeys(entries: seq<(string, Value)>) {
    forall i, j :: 0 <= i < j < |entries| ==> entries[i].0 != entries[j].0
  }

  type Record = entries: seq<(string, Value)> | DistinctKeys(entries) witness []

  /** Property access `o[key]`: the value stored under `key`, or undefined. */
  function Get(o: seq<(string, Value)>, key: string): Value {
    if o == [] then Undefined
    else if o[0].0 == key then o[0].1
    else Get(o[1..], key)
  }

  predicate HasKey(o: seq<(string, Value)>, key: string) {
    exists i :: 0 <= i < |o| && o[i].0 == key
  }

  /** The rest object of `const { key, ...rest } = o`. */
  function Without(o: Record, key: string): (r: Record)
    ensures |r| <= |o|
    ensures forall k :: k != key ==> Get(r, k) == Get(o, k)
    ensures !HasKey(r, key)
    ensures forall i :: 0 <= i < |r| ==> r[i] in o
  {
    if o == [] then []
    else
      var rest := Without(o[1..], key);
      if o[0].0 == key then rest
      else
        assert forall i :: 0 <= i < |rest| ==> rest[i].0 != o[0].0 by {
          forall i | 0 <= i < |rest| ensures rest[i].0 != o[0].0 {
            assert rest[i] in o[1..];
          }
        }
        [o[0]] + rest
  }

  lemma {:induction false} GetIndex(o: Record, i: nat)
    requires i < |o|
    ensures Get(o, o[i].0) == o[i].1
  {
    if i > 0 {
      GetIndex(o[1..], i - 1);
    }
  }

  lemma {:induction false} GetAbsent(o: seq<(string, Value)>, key: string)
    requires !HasKey(o, key)
    ensures Get(o, key) == Undefined
  {
    if o != [] {
      forall i | 0 <= i < |o[1..]| ensures o[1..][i].0 != key {
        assert o[1..][i] == o[i + 1];
      }
      GetAbsent(o[1..], key);
    }
  }
  /** The keys of a non-empty object are its first key and those of its
      tail, which does not repeat the first. */
  lemma TailKeys(o: Record)
    requires o != []
    ensures DistinctKeys(o[1..]) && !HasKey(o[1..], o[0].0)
    ensures forall k :: HasKey(o, k) <==> k == o[0].0 || HasKey(o[1..], k)
  {
    forall k ensures HasKey(o, k) <==> k == o[0].0 || HasKey(o[1..], k) {
      if HasKey(o[1..], k) {
        var j :| 0 <= j < |o[1..]| && o[1..][j].0 == k;
        assert o[j + 1].0 == k;
      }
      if HasKey(o, k) && k != o[0].0 {
        var j :| 0 <= j < |o| && o[j].0 == k;
        assert o[1..][j - 1].0 == k;
      }
    }
  }

  /** An entry put in front of an object without its key keeps the keys
      distinct. */
  lemma ConsKeys(x: (string, Value), o: Record)
    requires !HasKey(o, x.0)
    ensures DistinctKeys([x] + o)
    ensures forall k :: HasKey([x] + o, k) <==> k == x.0 || HasKey(o, k)
  {
    var r := [x] + o;
    forall i, j | 0 <= i < j < |r| ensures r[i].0 != r[j].0 {
      if i == 0 {
        assert r[0] == x && r[j] == o[j - 1];
        assert !(o[j - 1].0 == x.0);
      } else {
        assert r[i] == o[i - 1] && r[j] == o[j - 1];
        assert o[i - 1].0 != o[j - 1].0;
      }
    }
    forall k ensures HasKey(r, k) <==> k == x.0 || HasKey(o, k) {
      if HasKey(o, k) {
        var j :| 0 <= j < |o| && o[j].0 == k;
        assert r[j + 1].0 == k;
      }
      if HasKey(r, k) && k != x.0 {
        var j :| 0 <= j < |r| && r[j].0 == k;
        assert o[j - 1].0 == k;
      }
    }
  }

  /** The assignment `o[key] = v`: an existing entry keeps its place and
      takes the new value; a new key is added at the end. */
  function Put(o: Record, key: string, v: Value): (r: Record)
    ensures Get(r, key) == v
    ensures forall k :: k != key ==> Get(r, k) == Get(o, k)
    ensures forall k :: HasKey(r, k) <==> HasKey(o, k) || k == key
    ensures HasKey(o, key) ==> |r| == |o|
  {
    if o == [] then
      assert forall k :: HasKey([(key, v)], k) <==> k == key by {
        forall k ensures HasKey([(key, v)], k) <==> k == key {
          assert [(key, v)][0].0 == key;
        }
      }
      [(key, v)]
    else
      TailKeys(o);
      if o[0].0 == key then
        ConsKeys((key, v), o[1..]);
        [(key, v)] + o[1..]
      else
        var rest := Put(o[1..], key, v);
        ConsKeys(o[0], rest);
        [o[0]] + rest
  }

  /** Reading a key of an object extended at the end. */
  lemma {:induction false} GetAppend(o: seq<(string, Value)>, key: string, v: Value, k: string)
    ensures Get(o + [(key, v)], k) == if HasKey(o, k) then Get(o, k) else if k == key then v else Undefined
  {
    if o == [] {
      assert [(key, v)][1..] == [];
    } else {
      assert (o + [(key, v)])[1..] == o[1..] + [(key, v)];
      GetAppend(o[1..], key, v, k);
      if HasKey(o[1..], k) {
        var j :| 0 <= j < |o[1..]| && o[1..][j].0 == k;
        assert o[j + 1].0 == k;
      }
      if HasKey(o, k) && k != o[0].0 {
        var j :| 0 <= j < |o| && o[j].0 == k;
        assert o[1..][j - 1].0 == k;
      }
    }
  }
}
