/** String(n) and Number.parseInt(s, 10) on whole numbers. */
module Decimal {
  import opened Options
  import opened Text

  /** From here on String(n) uses the exponent form. */
  const EXPONENT_FROM := 1_000_000_000_000_000_000_000

  function DigitValue(c: char): (d: nat)
    requires IsDigit(c)
    ensures d < 10
  {
    c as int - '0' as int
  }

  function Digit(d: nat): (c: char)
    requires d < 10
    ensures IsDigit(c) && DigitValue(c) == d
  {
    ('0' as int + d) as char
  }

  predicate AllDigits(s: string) {
    forall i :: 0 <= i < |s| ==> IsDigit(s[i])
  }

  function Digits(n: nat): (s: string)
    ensures s != "" && AllDigits(s)
    ensures n > 0 ==> s[0] != '0'
  {
    if n < 10 then [Digit(n)] else Digits(n / 10) + [Digit(n % 10)]
  }

  function Value(s: string): nat
    requires AllDigits(s)
  {
    if s == "" then 0 else Value(s[..|s| - 1]) * 10 + DigitValue(s[|s| - 1])
  }

  function WithoutTrailingZeros(s: string): (r: string)
    ensures |r| <= |s| && r == s[..|r|]
    ensures s != "" && s[0] != '0' ==> r != ""
  {
    if s != "" && s[|s| - 1] == '0' then WithoutTrailingZeros(s[..|s| - 1]) else s
  }

  function ExponentText(n: nat): string
    requires n > 0
  {
    var digits := Digits(n);
    var m := WithoutTrailingZeros(digits);
    [m[0]] + (if |m| > 1 then "." + m[1..] else "") + "e+" + Digits(|digits| - 1)
  }

  /** String(n). */
  function NumberText(n: int): string {
    if n < 0 then "-" + NaturalText(-n) else NaturalText(n)
  }

  function NaturalText(n: nat): string {
    if n < EXPONENT_FROM then Digits(n) else ExponentText(n)
  }

  function DigitPrefix(s: string): (p: string)
    ensures AllDigits(p) && p <= s
    ensures |p| < |s| ==> !IsDigit(s[|p|])
  {
    if s == "" || !IsDigit(s[0]) then "" else [s[0]] + DigitPrefix(s[1..])
  }

  function ParseUnsigned(s: string): Option<nat> {
    var p := DigitPrefix(s);
    if p == "" then None else Some(Value(p))
  }

  function ParseSigned(t: string): Option<int> {
    if t == "" then None
    else if t[0] == '-' then
      var n := ParseUnsigned(t[1..]);
      if n.None? then None else Some(0 - n.value)
    else
      var n := ParseUnsigned(if t[0] == '+' then t[1..] else t);
      if n.None? then None else Some(n.value)
  }

  /** Number.parseInt(s, 10); None for NaN. */
  function ParseInt(s: string): Option<int> {
    ParseSigned(TrimStart(s))
  }

  lemma {:induction false} ValueOfDigits(n: nat)
    ensures Value(Digits(n)) == n
  {
    if n < 10 {
      assert Digits(n)[..0] == "";
    } else {
      ValueOfDigits(n / 10);
      assert Digits(n)[..|Digits(n)| - 1] == Digits(n / 10);
    }
  }

  /** The digits at the front are what is read, whatever follows them. */
  lemma {:induction false} PrefixIs(digits: string, rest: string)
    requires AllDigits(digits) && (rest == "" || !IsDigit(rest[0]))
    ensures DigitPrefix(digits + rest) == digits
  {
    if digits == "" {
      assert digits + rest == rest;
    } else {
      PrefixIs(digits[1..], rest);
      assert (digits + rest)[1..] == digits[1..] + rest;
    }
  }

  lemma ExponentReadsOneDigit(n: nat)
    requires n >= EXPONENT_FROM
    ensures var t := ExponentText(n);
            t != "" && IsDigit(t[0]) && DigitPrefix(t) == [t[0]] && 1 <= Value([t[0]]) < 10
  {
    var t, m := ExponentText(n), WithoutTrailingZeros(Digits(n));
    var rest := (if |m| > 1 then "." + m[1..] else "") + "e+" + Digits(|Digits(n)| - 1);
    assert t == [m[0]] + rest;
    assert rest[0] == '.' || rest[0] == 'e';
    PrefixIs([m[0]], rest);
    assert m[0] == Digits(n)[0];
  }

  /** A printed whole number reads back, exactly below the exponent form. */
  lemma NaturalReadsBack(n: nat)
    ensures var t := NaturalText(n);
            && t != "" && IsDigit(t[0]) && ParseUnsigned(t).Some?
            && (ParseUnsigned(t) == Some(n) <==> n < EXPONENT_FROM)
            && (n >= EXPONENT_FROM ==> 1 <= ParseUnsigned(t).value < 10)
  {
    var t := NaturalText(n);
    if n < EXPONENT_FROM {
      ValueOfDigits(n);
      PrefixIs(t, "");
      assert t + "" == t;
    } else {
      ExponentReadsOneDigit(n);
    }
  }

  lemma NotSpace(c: char)
    requires IsDigit(c) || c == '-'
    ensures !IsSpace(c)
  {
  }

  /** parseInt(String(n)) is n exactly while String(n) is not in exponent form. */
  lemma ParseIntOfText(n: int)
    ensures ParseInt(NumberText(n)).Some?
    ensures ParseInt(NumberText(n)) == Some(n) <==> -EXPONENT_FROM < n < EXPONENT_FROM
    ensures n >= EXPONENT_FROM ==> 1 <= ParseInt(NumberText(n)).value < 10
    ensures n <= 0 ==> ParseInt(NumberText(n)).value <= 0
  {
    var t := NumberText(n);
    if n >= 0 {
      NaturalReadsBack(n);
    } else {
      NaturalReadsBack(-n);
      assert t[1..] == NaturalText(-n);
    }
    NotSpace(t[0]);
    assert TrimStart(t) == t;
    assert ParseInt(t) == ParseSigned(t);
  }
}
