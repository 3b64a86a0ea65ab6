/** Decimal text: the digits of a natural number, and the prefix parser
    `parseFloat` applies to a price field (leading white space, an optional
    sign, digits with an optional fractional part, anything after that
    ignored). */
module NumberText {
  import opened Wrappers

  predicate IsDigit(c: char) {
    '0' <= c <= '9'
  }

  predicate IsSpace(c: char) {
    c == ' ' || c == '\t' || c == '\n' || c == '\r' || c == '\U{000B}' || c == '\U{000C}'
  }

  function DigitValue(c: char): (v: nat)
    requires IsDigit(c)
    ensures v < 10
  {
    c as int - '0' as int
  }

  function DigitChar(v: nat): (c: char)
    requires v < 10
    ensures IsDigit(c) && DigitValue(c) == v
  {
    ('0' as int + v) as char
  }

  predicate AllDigits(s: string) {
    forall i :: 0 <= i < |s| ==> IsDigit(s[i])
  }

  /** The decimal digits of `n`, most significant first, without leading
      zeros. */
  function NatToDigits(n: nat): (s: string)
    ensures |s| >= 1 && AllDigits(s)
    ensures s[0] == '0' ==> n == 0
  {
    if n < 10 then [DigitChar(n)]
    else NatToDigits(n / 10) + [DigitChar(n % 10)]
  }

  /** The number a string of digits denotes. */
  function DigitsValue(s: string): nat
    requires AllDigits(s)
  {
    if |s| == 0 then 0
    else DigitsValue(s[..|s| - 1]) * 10 + DigitValue(s[|s| - 1])
  }

  function Pow10(k: nat): (p: nat)
    ensures p >= 1
  {
    if k == 0 then 1 else 10 * Pow10(k - 1)
  }

  /** Length of the run of digits `s` starts with. */
  function DigitRun(s: string): (n: nat)
    ensures n <= |s| && AllDigits(s[..n])
    ensures n < |s| ==> !IsDigit(s[n])
  {
    if |s| == 0 || !IsDigit(s[0]) then 0
    else
      var n := 1 + DigitRun(s[1..]);
      assert s[..n] == [s[0]] + s[1..][..n - 1];
      n
  }

  /** `s` without its leading white space. */
  function TrimStart(s: string): (t: string)
    ensures |t| <= |s| && t == s[|s| - |t|..]
    ensures |t| > 0 ==> !IsSpace(t[0])
  {
    if |s| > 0 && IsSpace(s[0]) then TrimStart(s[1..]) else s
  }

  /** `parseFloat` on decimal text: no value (`NaN`) unless at least one
      digit is found before or after the point. */
  function ParseFloat(s: string): Option<real> {
    ParseSigned(TrimStart(s))
  }

  /** An optional sign, then an unsigned decimal. */
  function ParseSigned(t: string): Option<real> {
    if |t| > 0 && t[0] == '-' then
      match ParseUnsigned(t[1..])
      case None => None
      case Some(v) => Some(-v)
    else if |t| > 0 && t[0] == '+' then ParseUnsigned(t[1..])
    else ParseUnsigned(t)
  }

  /** Digits, optionally a point and more digits; the text after them is
      ignored. */
  function ParseUnsigned(body: string): Option<real> {
    var i := DigitRun(body);
    var frac := if i < |body| && body[i] == '.' then body[i + 1..] else "";
    var f := DigitRun(frac);
    if i + f == 0 then None
    else Some(DigitsValue(body[..i]) as real + DigitsValue(frac[..f]) as real / Pow10(f) as real)
  }

  // ---------------------------------------------------------------------
  // Properties

  /** Reading the digits of `n` gives back `n`. */
  lemma {:induction false} DigitsRoundTrip(n: nat)
    ensures DigitsValue(NatToDigits(n)) == n
  {
    var s := NatToDigits(n);
    if n >= 10 {
      DigitsRoundTrip(n / 10);
      assert s[..|s| - 1] == NatToDigits(n / 10);
    }
  }

  /** A run of digits followed by a non-digit is read up to that
      non-digit. */
  lemma {:induction false} DigitRunOfDigits(d: string, rest: string)
    requires AllDigits(d)
    requires |rest| == 0 || !IsDigit(rest[0])
    ensures DigitRun(d + rest) == |d|
  {
    if |d| > 0 {
      assert (d + rest)[1..] == d[1..] + rest;
      DigitRunOfDigits(d[1..], rest);
    }
  }

  /** An unsigned read of the digits of `n` followed by text that cannot
      continue a number gives back `n`. */
  lemma ParseUnsignedNat(n: nat, rest: string)
    requires |rest| == 0 || (!IsDigit(rest[0]) && rest[0] != '.')
    ensures ParseUnsigned(NatToDigits(n) + rest) == Some(n as real)
  {
    var d := NatToDigits(n);
    var s := d + rest;
    DigitRunOfDigits(d, rest);
    assert s[..|d|] == d;
    assert !(|d| < |s| && s[|d|] == '.');
    DigitsRoundTrip(n);
  }

  /** `parseFloat` reads the digits of a natural number back, whatever
      non-numeric text follows them. */
  lemma ParseNatPrefix(n: nat, rest: string)
    requires |rest| == 0 || (!IsDigit(rest[0]) && rest[0] != '.')
    ensures ParseFloat(NatToDigits(n) + rest) == Some(n as real)
  {
    var d := NatToDigits(n);
    var s := d + rest;
    assert s[0] == d[0] && IsDigit(s[0]);
    assert TrimStart(s) == s;
    ParseUnsignedNat(n, rest);
  }

  /** Text without a digit is not a number. */
  lemma NoDigitNoNumber(s: string)
    requires forall i :: 0 <= i < |s| ==> !IsDigit(s[i])
    ensures ParseFloat(s) == None
  {
    var t := TrimStart(s);
    assert forall i :: 0 <= i < |t| ==> !IsDigit(t[i]) by {
      forall i | 0 <= i < |t| ensures !IsDigit(t[i]) {
        assert t[i] == s[|s| - |t| + i];
      }
    }
    if |t| > 0 && (t[0] == '-' || t[0] == '+') {
      NoDigitUnsigned(t[1..]);
    } else {
      NoDigitUnsigned(t);
    }
  }

  lemma NoDigitUnsigned(body: string)
    requires forall i :: 0 <= i < |body| ==> !IsDigit(body[i])
    ensures ParseUnsigned(body) == None
  {
    var i := DigitRun(body);
    assert i == 0;
    if |body| > 1 && body[0] == '.' {
      assert body[1..][0] == body[1];
    }
  }

  /** Leading white space is skipped. */
  lemma LeadingSpaceIgnored(c: char, s: string)
    requires IsSpace(c)
    ensures ParseFloat([c] + s) == ParseFloat(s)
  {
    assert ([c] + s)[1..] == s;
  }

  /** A minus sign negates what follows it. */
  lemma ParseNegativeNat(n: nat)
    ensures ParseFloat("-" + NatToDigits(n)) == Some(-(n as real))
  {
    var s := "-" + NatToDigits(n);
    assert s[0] == '-' && !IsSpace(s[0]);
    assert s[1..] == NatToDigits(n) + "";
    ParseUnsignedNat(n, "");
  }

  /** The empty field is not a number. */
  lemma EmptyIsNotANumber()
    ensures ParseFloat("") == None
  {
  }
}
