/** Decimal digits and the small string operations the converters rely on. */
module Text {

  predicate IsDigit(c: char) {
    '0' <= c <= '9'
  }

  predicate AllDigits(s: string) {
    forall i :: 0 <= i < |s| ==> IsDigit(s[i])
  }

  function DigitValue(c: char): nat
    requires IsDigit(c)
  {
    c as int - '0' as int
  }

  /** The decimal digit of the units place of `n`. */
  function DigitChar(n: nat): (c: char)
    ensures IsDigit(c) && DigitValue(c) == n % 10
  {
    ('0' as int + n % 10) as char
  }

  /** The number a digit string denotes. */
  function DigitsValue(s: string): nat
    requires AllDigits(s)
  {
    if s == [] then 0 else DigitsValue(s[..|s| - 1]) * 10 + DigitValue(s[|s| - 1])
  }

  /** Shortest decimal text of a natural number (String(n) in JavaScript). */
  function NatText(n: nat): (s: string)
    ensures |s| >= 1 && AllDigits(s)
  {
    if n < 10 then [DigitChar(n)] else NatText(n / 10) + [DigitChar(n)]
  }

  /** Decimal text of an integer, with a leading minus sign when negative. */
  function IntText(n: int): string {
    if n < 0 then "-" + NatText(-n) else NatText(n)
  }

  lemma {:induction false} NatTextValue(n: nat)
    ensures DigitsValue(NatText(n)) == n
  {
    if n >= 10 {
      var s := NatText(n);
      assert s[..|s| - 1] == NatText(n / 10);
      NatTextValue(n / 10);
    }
  }

  /** NatText has no leading zero and is as long as the number needs. */
  lemma {:induction false} NatTextLength(n: nat)
    ensures (|NatText(n)| == 1) == (n < 10)
    ensures n >= 10 ==> NatText(n)[0] != '0'
    ensures n >= 100 ==> |NatText(n)| >= 3
  {
    if n >= 10 {
      NatTextLength(n / 10);
    }
  }

  // Fixed-width zero-padded digit strings (padStart with "0").

  function Fixed2(n: nat): string {
    [DigitChar(n / 10), DigitChar(n)]
  }

  function Fixed3(n: nat): string {
    [DigitChar(n / 100), DigitChar(n / 10), DigitChar(n)]
  }

  function Fixed4(n: nat): string {
    [DigitChar(n / 1000), DigitChar(n / 100), DigitChar(n / 10), DigitChar(n)]
  }

  function Fixed6(n: nat): string {
    [DigitChar(n / 100000), DigitChar(n / 10000), DigitChar(n / 1000),
     DigitChar(n / 100), DigitChar(n / 10), DigitChar(n)]
  }

  /** Value of two digit characters read as a decimal number. */
  function Value2(a: char, b: char): nat
    requires IsDigit(a) && IsDigit(b)
  {
    DigitValue(a) * 10 + DigitValue(b)
  }

  function Value3(a: char, b: char, c: char): nat
    requires IsDigit(a) && IsDigit(b) && IsDigit(c)
  {
    DigitValue(a) * 100 + DigitValue(b) * 10 + DigitValue(c)
  }

  function Value4(a: char, b: char, c: char, d: char): nat
    requires IsDigit(a) && IsDigit(b) && IsDigit(c) && IsDigit(d)
  {
    DigitValue(a) * 1000 + DigitValue(b) * 100 + DigitValue(c) * 10 + DigitValue(d)
  }

  lemma Fixed2Value(n: nat)
    requires n < 100
    ensures |Fixed2(n)| == 2 && Value2(Fixed2(n)[0], Fixed2(n)[1]) == n
  {
  }

  lemma Fixed3Value(n: nat)
    requires n < 1000
    ensures |Fixed3(n)| == 3 && Value3(Fixed3(n)[0], Fixed3(n)[1], Fixed3(n)[2]) == n
  {
    assert n == (n / 10) * 10 + n % 10;
    assert n / 10 == (n / 100) * 10 + (n / 10) % 10;
    assert (n / 100) % 10 == n / 100;
  }

  lemma Fixed4Value(n: nat)
    requires n < 10000
    ensures |Fixed4(n)| == 4 && Value4(Fixed4(n)[0], Fixed4(n)[1], Fixed4(n)[2], Fixed4(n)[3]) == n
  {
    assert n == (n / 10) * 10 + n % 10;
    assert n / 10 == (n / 100) * 10 + (n / 10) % 10;
    assert n / 100 == (n / 1000) * 10 + (n / 100) % 10;
    assert (n / 1000) % 10 == n / 1000;
  }

  /** For four-digit numbers String(n) and padStart(4, "0") agree. */
  lemma NatTextFourDigits(n: nat)
    requires 1000 <= n < 10000
    ensures NatText(n) == Fixed4(n)
  {
    assert NatText(n / 1000) == [DigitChar(n / 1000)];
    assert NatText(n / 100) == NatText(n / 1000) + [DigitChar(n / 100)];
    assert NatText(n / 10) == NatText(n / 100) + [DigitChar(n / 10)];
  }

  /** For numbers below 100, padStart(2, "0") of the decimal text is Fixed2. */
  lemma NatTextTwoDigits(n: nat)
    requires n < 100
    ensures (if n < 10 then "0" + NatText(n) else NatText(n)) == Fixed2(n)
  {
  }

  /** String.prototype.replace with a one-character string pattern:
      replaces the first occurrence only, if any. */
  function ReplaceFirst(s: string, c: char, r: string): string {
    if s == [] then []
    else if s[0] == c then r + s[1..]
    else [s[0]] + ReplaceFirst(s[1..], c, r)
  }

  lemma {:induction false} ReplaceFirstAt(s: string, c: char, r: string, i: nat)
    requires i < |s| && s[i] == c
    requires forall k :: 0 <= k < i ==> s[k] != c
    ensures ReplaceFirst(s, c, r) == s[..i] + r + s[i + 1..]
  {
    if i > 0 {
      ReplaceFirstAt(s[1..], c, r, i - 1);
      assert s[1..][..i - 1] == s[1..i];
      assert s[1..][i..] == s[i + 1..];
      assert s[..i] == [s[0]] + s[1..i];
    }
  }

  lemma {:induction false} ReplaceFirstAbsent(s: string, c: char, r: string)
    requires forall k :: 0 <= k < |s| ==> s[k] != c
    ensures ReplaceFirst(s, c, r) == s
  {
    if s != [] {
      ReplaceFirstAbsent(s[1..], c, r);
    }
  }

  /** Replacing in a concatenation whose first part lacks the character
      leaves that part alone. */
  lemma {:induction false} ReplaceFirstAfter(p: string, q: string, c: char, r: string)
    requires forall k :: 0 <= k < |p| ==> p[k] != c
    ensures ReplaceFirst(p + q, c, r) == p + ReplaceFirst(q, c, r)
  {
    if p != [] {
      assert (p + q)[0] == p[0];
      assert (p + q)[1..] == p[1..] + q;
      forall k | 0 <= k < |p[1..]| ensures p[1..][k] != c {
        assert p[1..][k] == p[k + 1];
      }
      ReplaceFirstAfter(p[1..], q, c, r);
      assert [p[0]] + p[1..] == p;
    } else {
      assert p + q == q;
    }
  }
}
