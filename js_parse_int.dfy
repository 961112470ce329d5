/**
  The global `parseInt(string, 10)` of ECMAScript (section 19.2.5 of ECMA-262),
  which the list handlers use to read the `page` and `limit` query parameters.

  NaN is `None`; a numeric result is `Some(n)`. Negative zero and positive
  zero are both `Some(0)`: the handlers only test the result for falsiness,
  and both zeros are falsy.
*/
module JsParseInt {
  import opened Wrappers
  import opened Strings

  /** StrWhiteSpaceChar: the WhiteSpace and LineTerminator code points. */
  predicate IsStrWhiteSpace(c: char) {
    c == '\t' || c == '\n' || c == '\U{000B}' || c == '\U{000C}' || c == '\r' || c == ' ' ||
    c == '\U{00A0}' || c == '\U{1680}' || ('\U{2000}' <= c <= '\U{200A}') ||
    c == '\U{2028}' || c == '\U{2029}' || c == '\U{202F}' || c == '\U{205F}' ||
    c == '\U{3000}' || c == '\U{FEFF}'
  }

  predicate IsDigit(c: char) {
    '0' <= c <= '9'
  }

  function DigitValue(c: char): (d: nat)
    requires IsDigit(c)
    ensures d < 10
  {
    (c as int) - ('0' as int)
  }

  /** Length of the longest prefix of white space. */
  function LeadingSpaceLength(s: string): (n: nat)
    ensures n <= |s|
    ensures forall i :: 0 <= i < n ==> IsStrWhiteSpace(s[i])
    ensures n == |s| || !IsStrWhiteSpace(s[n])
  {
    if s != [] && IsStrWhiteSpace(s[0]) then 1 + LeadingSpaceLength(s[1..]) else 0
  }

  /** The input without its leading white space. */
  function TrimStart(s: string): (r: string)
    ensures |r| <= |s| && r == s[|s| - |r|..]
    ensures r == [] || !IsStrWhiteSpace(r[0])
    ensures forall i :: 0 <= i < |s| - |r| ==> IsStrWhiteSpace(s[i])
  {
    s[LeadingSpaceLength(s)..]
  }

  /** Length of the longest prefix of decimal digits. */
  function DigitPrefixLength(s: string): (n: nat)
    ensures n <= |s|
    ensures forall i :: 0 <= i < n ==> IsDigit(s[i])
    ensures n == |s| || !IsDigit(s[n])
  {
    if s != [] && IsDigit(s[0]) then 1 + DigitPrefixLength(s[1..]) else 0
  }

  /** The number a string of decimal digits denotes, most significant first. */
  function DigitsValue(ds: string): nat
    requires forall i :: 0 <= i < |ds| ==> IsDigit(ds[i])
  {
    if ds == [] then 0 else 10 * DigitsValue(ds[..|ds| - 1]) + DigitValue(ds[|ds| - 1])
  }

  /** parseInt(s, 10): skip leading white space, read an optional sign, then the longest run
      of decimal digits; no digits at all gives NaN. */
  function ParseInt(s: string): (r: Option<int>)
  {
    ParseTrimmed(TrimStart(s))
  }

  /** parseInt once the leading white space is gone. */
  function ParseTrimmed(t: string): Option<int> {
    if t != [] && t[0] == '-' then Negate(ParseUnsigned(t[1..]))
    else if t != [] && t[0] == '+' then ParseUnsigned(t[1..])
    else ParseUnsigned(t)
  }

  function Negate(r: Option<int>): Option<int> {
    if r.Some? then Some(-r.value) else None
  }

  /** The value of the leading digit run, or NaN when there is none. */
  function ParseUnsigned(u: string): Option<int> {
    var n := DigitPrefixLength(u);
    if n == 0 then None else Some(DigitsValue(u[..n]))
  }

  /** The decimal text of a natural number, without leading zeros. */
  function DecimalString(n: nat): (s: string)
    ensures s != []
    ensures forall i :: 0 <= i < |s| ==> IsDigit(s[i])
  {
    if n < 10 then [('0' as int + n) as char]
    else DecimalString(n / 10) + [('0' as int + n % 10) as char]
  }

  lemma {:induction false} DecimalStringValue(n: nat)
    ensures DigitsValue(DecimalString(n)) == n
  {
    if n >= 10 {
      var s := DecimalString(n);
      assert s[..|s| - 1] == DecimalString(n / 10);
      DecimalStringValue(n / 10);
    }
  }

  /** Text that starts with a digit string and continues with anything that is not a digit
      parses to the value of the digits: the trailing text is ignored. */
  lemma {:induction false} DigitsThenRest(ds: string, rest: string)
    requires ds != [] && forall i :: 0 <= i < |ds| ==> IsDigit(ds[i])
    requires rest == [] || !IsDigit(rest[0])
    ensures DigitPrefixLength(ds + rest) == |ds|
  {
    var s := ds + rest;
    assert s[0] == ds[0];
    if |ds| > 1 {
      assert s[1..] == ds[1..] + rest;
      DigitsThenRest(ds[1..], rest);
    } else {
      assert s[1..] == rest;
    }
    assert DigitPrefixLength(s) == 1 + DigitPrefixLength(s[1..]);
  }

  /** Text that does not start with white space is its own trimmed form. */
  lemma TrimStartNoSpace(s: string)
    requires s != [] && !IsStrWhiteSpace(s[0])
    ensures TrimStart(s) == s
  {
    assert LeadingSpaceLength(s) == 0;
    assert s[0..] == s;
  }

  /** A leading minus sign negates what follows it. */
  lemma ParseMinus(u: string)
    ensures ParseInt("-" + u) == Negate(ParseUnsigned(u))
  {
    var s := "-" + u;
    TrimStartNoSpace(s);
    assert s[1..] == u;
  }

  /** Text that starts with a digit has no white space or sign to skip. */
  lemma ParseLeadingDigit(u: string)
    requires u != [] && IsDigit(u[0])
    ensures ParseInt(u) == ParseUnsigned(u)
  {
    TrimStartNoSpace(u);
  }

  /** A digit string followed by non-digit text is read whole. */
  lemma ParseDigits(ds: string, rest: string)
    requires ds != [] && forall i :: 0 <= i < |ds| ==> IsDigit(ds[i])
    requires rest == [] || !IsDigit(rest[0])
    ensures ParseUnsigned(ds + rest) == Some(DigitsValue(ds) as int)
  {
    DigitsThenRest(ds, rest);
    assert (ds + rest)[..|ds|] == ds;
  }

  /** The digits of the decimal text, followed by non-digit text, read back as the number. */
  lemma UnsignedDecimal(m: nat, rest: string)
    requires rest == [] || !IsDigit(rest[0])
    ensures ParseUnsigned(DecimalString(m) + rest) == Some(m)
  {
    DecimalStringValue(m);
    ParseDigits(DecimalString(m), rest);
  }

  /** The decimal text of a natural number, followed by non-digit text, reads back as
      that number. */
  lemma ParseNatural(m: nat, rest: string)
    requires rest == [] || !IsDigit(rest[0])
    ensures ParseInt(DecimalString(m) + rest) == Some(m)
  {
    UnsignedDecimal(m, rest);
    ParseLeadingDigit(DecimalString(m) + rest);
  }

  /** With a minus sign in front, it reads back as the negated number. */
  lemma ParseNegative(m: nat, rest: string)
    requires rest == [] || !IsDigit(rest[0])
    ensures ParseInt("-" + (DecimalString(m) + rest)) == Some(-(m as int))
  {
    UnsignedDecimal(m, rest);
    ParseMinusDigits(DecimalString(m) + rest, m);
  }

  lemma ParseMinusDigits(u: string, v: int)
    requires ParseUnsigned(u) == Some(v)
    ensures ParseInt("-" + u) == Some(-v)
  {
    ParseMinus(u);
  }

  /** The decimal text of an integer: a minus sign when it is negative, then the digits
      of its absolute value. */
  function IntString(n: int): (s: string)
    ensures s != [] && (s[0] == '-' <==> n < 0)
  {
    if n < 0 then "-" + DecimalString(-n) else DecimalString(n)
  }

  /** Round trip: parseInt reads back the decimal text of any integer, also when
      non-digit text follows it. */
  lemma ParseDecimal(n: int, rest: string)
    requires rest == [] || !IsDigit(rest[0])
    ensures ParseInt(IntString(n) + rest) == Some(n)
  {
    if n < 0 {
      ParseNegative(-n, rest);
      Regroup("-", DecimalString(-n), rest);
    } else {
      ParseNatural(n, rest);
    }
  }

  /** Non-numeric and absent-looking text is NaN. */
  lemma ParseIntNaN()
    ensures ParseInt("abc") == None
    ensures ParseInt("") == None
  {
    TrimStartNoSpace("abc");
  }

  lemma ParseIntTwo()
    ensures ParseInt("2") == Some(2)
  {
    assert "2" + "" == "2";
    ParseDigits("2", "");
    ParseLeadingDigit("2");
  }

  lemma ParseIntTen()
    ensures ParseInt("10") == Some(10)
  {
    assert "10" + "" == "10";
    assert DigitsValue("10") == 10 by {
      assert "10"[..1] == "1";
    }
    ParseDigits("10", "");
    ParseLeadingDigit("10");
  }

  /** "-0" is negative zero, which the model (like the handlers' falsiness test) treats as 0. */
  lemma ParseIntMinusZero()
    ensures ParseInt("-0") == Some(0)
  {
    assert "0" + "" == "0";
    ParseDigits("0", "");
    ParseMinus("0");
  }

  /** A white-space character in front does not change the result. */
  lemma ParseSkipsSpace(c: char, t: string)
    requires IsStrWhiteSpace(c)
    ensures ParseInt([c] + t) == ParseInt(t)
  {
    var s := [c] + t;
    assert s[1..] == t;
    assert LeadingSpaceLength(s) == 1 + LeadingSpaceLength(t);
    assert s[LeadingSpaceLength(s)..] == t[LeadingSpaceLength(t)..];
  }
}
