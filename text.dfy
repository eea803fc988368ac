/** String helpers: ASCII case folding and Python's `str` of integers and two-place decimals. */
module Text {
  import opened Wrappers


  /** Python's `str.lower` on one character, for the ASCII range. */
  function LowerChar(c: char): char
  {
    if 'A' <= c <= 'Z' then (c as int + 32) as char else c
  }

  /** Python's `str.lower`, character by character. */
  function Lower(s: string): (r: string)
    ensures |r| == |s|
    ensures forall i :: 0 <= i < |s| ==> r[i] == LowerChar(s[i])
  {
    if s == [] then [] else [LowerChar(s[0])] + Lower(s[1..])
  }

  lemma LowerSuffix(s: string, k: int)
    requires 0 <= k <= |s|
    ensures Lower(s[k..]) == Lower(s)[k..]
  {
  }

  predicate IsDigit(c: char)
  {
    '0' <= c <= '9'
  }

  function DigitChar(d: nat): (c: char)
    requires d < 10
    ensures IsDigit(c)
  {
    ('0' as int + d) as char
  }

  predicate AllDigits(s: string)
  {
    forall i :: 0 <= i < |s| ==> IsDigit(s[i])
  }

  /** The decimal digits of a natural number, most significant first, as `str(n)` writes them. */
  function NatToString(n: nat): (s: string)
    ensures |s| > 0
    ensures forall i :: 0 <= i < |s| ==> IsDigit(s[i])
    decreases n
  {
    if n < 10 then [DigitChar(n)] else NatToString(n / 10) + [DigitChar(n % 10)]
  }

  /** The value of a string of decimal digits; the inverse of `NatToString`. */
  function DigitsValue(s: string): nat
    requires AllDigits(s)
  {
    if s == [] then 0
    else
      assert IsDigit(s[|s| - 1]);
      10 * DigitsValue(s[..|s| - 1]) + (s[|s| - 1] as int - '0' as int)
  }

  /** Reading back the digits `str(n)` wrote gives `n`. */
  lemma {:induction false} NatToStringRoundTrip(n: nat)
    ensures DigitsValue(NatToString(n)) == n
    decreases n
  {
    if n >= 10 {
      var s := NatToString(n / 10);
      NatToStringRoundTrip(n / 10);
      assert (s + [DigitChar(n % 10)])[..|s|] == s;
    }
  }

  /** No leading zero: `str(n)` starts with `0` only when it is `"0"`. */
  lemma {:induction false} NatToStringNoLeadingZero(n: nat)
    ensures NatToString(n)[0] == '0' <==> n == 0
    decreases n
  {
    if n >= 10 {
      NatToStringNoLeadingZero(n / 10);
    }
  }

  /** Reading an optionally signed decimal integer, as `int(s)` does for such text. */
  function ParseInt(s: string): Option<int>
  {
    if |s| > 1 && s[0] == '-' && AllDigits(s[1..]) then Some(-(DigitsValue(s[1..]) as int))
    else if |s| > 0 && AllDigits(s) then Some(DigitsValue(s))
    else None
  }

  /** Python's `str(i)` for an integer: a minus sign before the digits of a negative value.
      The text reads back as the same integer. */
  function IntToString(i: int): (s: string)
    ensures ParseInt(s) == Some(i)
    ensures (s[0] == '-') <==> i < 0
  {
    if i < 0 then
      NatToStringRoundTrip(-i);
      var digits := NatToString(-i);
      assert ("-" + digits)[1..] == digits;
      "-" + digits
    else
      NatToStringRoundTrip(i);
      NatToString(i)
  }

  /** `str(d)` of a `Decimal` with two decimal places, given as a whole number of cents. */
  function PriceToString(cents: int): (s: string)
    ensures |s| >= 4 && s[|s| - 3] == '.'
    ensures IsDigit(s[|s| - 2]) && IsDigit(s[|s| - 1])
    ensures (s[0] == '-') <==> cents < 0
  {
    var a := if cents < 0 then -cents else cents;
    var whole := NatToString(a / 100);
    (if cents < 0 then "-" else "") + whole + "." + [DigitChar(a % 100 / 10), DigitChar(a % 10)]
  }

  /** The rendering of a price reads back as the same number of cents:
      the whole part before the point, then exactly two fraction digits. */
  lemma PriceToStringRoundTrip(cents: int)
    ensures var s := PriceToString(cents);
            var unsigned := if cents < 0 then s[1..] else s;
            var whole := unsigned[..|unsigned| - 3];
            var frac := unsigned[|unsigned| - 2..];
            && |unsigned| >= 4
            && (forall i :: 0 <= i < |whole| ==> IsDigit(whole[i]))
            && (forall i :: 0 <= i < |frac| ==> IsDigit(frac[i]))
            && 100 * DigitsValue(whole) + DigitsValue(frac) == (if cents < 0 then -cents else cents)
  {
    var a := if cents < 0 then -cents else cents;
    var whole := NatToString(a / 100);
    var frac := [DigitChar(a % 100 / 10), DigitChar(a % 10)];
    var s := PriceToString(cents);
    var unsigned := if cents < 0 then s[1..] else s;
    assert unsigned == whole + "." + frac;
    assert unsigned[..|unsigned| - 3] == whole;
    assert unsigned[|unsigned| - 2..] == frac;
    NatToStringRoundTrip(a / 100);
    assert frac[..1] == [frac[0]] && frac[..1][..0] == [];
    assert DigitsValue(frac[..1]) == a % 100 / 10;
  }
}
