/**
 * The integer reading of a cell's text, the part of `pd.to_numeric(...,
 * errors="coerce")` that the model keeps: an optional sign followed by
 * decimal digits; anything else reads as "no number".
 */
module Numeric {
  import opened Wrappers

  predicate IsDigit(c: char) {
    '0' <= c <= '9'
  }

  predicate AllDigits(s: string) {
    forall i :: 0 <= i < |s| ==> IsDigit(s[i])
  }

  function DigitValue(c: char): (d: nat)
    requires IsDigit(c)
    ensures d < 10
  {
    c as int - '0' as int
  }

  function DigitChar(d: nat): (c: char)
    requires d < 10
    ensures IsDigit(c) && DigitValue(c) == d
  {
    ('0' as int + d) as char
  }

  function Pow10(n: nat): (p: nat)
    ensures p >= 1
  {
    if n == 0 then 1 else 10 * Pow10(n - 1)
  }

  /** The text the model accepts as an integer: `[+-]?[0-9]+`. */
  predicate IsIntegerText(s: string) {
    (|s| > 0 && AllDigits(s))
    || (|s| > 1 && (s[0] == '-' || s[0] == '+') && AllDigits(s[1..]))
  }

  /** The value of a non-empty run of decimal digits, read most significant first. */
  function ParseDigits(s: string): (r: Option<nat>)
    ensures r.Some? <==> |s| > 0 && AllDigits(s)
    ensures r.Some? ==> r.value < Pow10(|s|)
  {
    if |s| == 0 || !IsDigit(s[|s| - 1]) then None
    else if |s| == 1 then Some(DigitValue(s[0]))
    else match ParseDigits(s[..|s| - 1])
      case None => None
      case Some(v) => Some(10 * v + DigitValue(s[|s| - 1]))
  }

  /** The integer value of `s`, or None where `s` is not an integer text. */
  function ParseInt(s: string): (r: Option<int>)
    ensures r.Some? <==> IsIntegerText(s)
    ensures r.Some? && s[0] == '-' ==> r.value <= 0
    ensures r.Some? && s[0] != '-' ==> r.value >= 0
  {
    if |s| > 0 && (s[0] == '-' || s[0] == '+') then
      match ParseDigits(s[1..])
      case None => None
      case Some(v) => Some(if s[0] == '-' then -(v as int) else v as int)
    else
      ParseDigits(s)
  }

  /** The shortest decimal text of `n`: no leading zero unless `n` is 0. */
  function FormatNat(n: nat): (s: string)
    ensures |s| > 0 && AllDigits(s)
    ensures |s| > 1 ==> s[0] != '0'
  {
    if n < 10 then [DigitChar(n)] else FormatNat(n / 10) + [DigitChar(n % 10)]
  }

  /** The canonical text of `n`, with a `-` in front when it is negative. */
  function FormatInt(n: int): (s: string)
    ensures IsIntegerText(s)
    ensures (s[0] == '-') <==> n < 0
  {
    if n < 0 then "-" + FormatNat(-n) else FormatNat(n)
  }

  /** `n` written with exactly `width` digits, zeros in front. */
  function Padded(n: nat, width: nat): (s: string)
    requires n < Pow10(width)
    ensures |s| == width && AllDigits(s)
  {
    if width == 0 then []
    else Padded(n / 10, width - 1) + [DigitChar(n % 10)]
  }

  lemma {:induction false} ParseFormatNat(n: nat)
    ensures ParseDigits(FormatNat(n)) == Some(n)
  {
    if n >= 10 {
      var s := FormatNat(n);
      assert s[..|s| - 1] == FormatNat(n / 10);
      ParseFormatNat(n / 10);
    }
  }

  /** Reading back the canonical text of an integer gives that integer. */
  lemma ParseFormatInt(n: int)
    ensures ParseInt(FormatInt(n)) == Some(n)
  {
    if n < 0 {
      assert FormatInt(n)[1..] == FormatNat(-n);
      ParseFormatNat(-n);
    } else {
      ParseFormatNat(n);
    }
  }

  /** Leading zeros do not change the value: "007" reads as 7. */
  lemma {:induction false} ParseDigitsLeadingZero(s: string)
    requires |s| > 0 && AllDigits(s)
    ensures ParseDigits("0" + s) == ParseDigits(s)
  {
    var z := "0" + s;
    assert z[|z| - 1] == s[|s| - 1];
    if |s| > 1 {
      assert z[..|z| - 1] == "0" + s[..|s| - 1];
      ParseDigitsLeadingZero(s[..|s| - 1]);
    }
  }

  lemma {:induction false} ParsePadded(n: nat, width: nat)
    requires 0 < width && n < Pow10(width)
    ensures ParseDigits(Padded(n, width)) == Some(n)
  {
    var s := Padded(n, width);
    assert s[..|s| - 1] == Padded(n / 10, width - 1);
    if width > 1 {
      ParsePadded(n / 10, width - 1);
    }
  }

  /**
   * The value of any integer text: digits, possibly zero-led, read as their
   * number, with a `+` in front as the same number and a `-` as its negation.
   */
  lemma ParseSignedPadded(n: nat, w: nat)
    requires 0 < w && n < Pow10(w)
    ensures ParseInt(Padded(n, w)) == Some(n)
    ensures ParseInt("+" + Padded(n, w)) == Some(n)
    ensures ParseInt("-" + Padded(n, w)) == Some(-(n as int))
  {
    ParsePadded(n, w);
    var s := Padded(n, w);
    assert ("+" + s)[1..] == s;
    assert ("-" + s)[1..] == s;
  }

  lemma {:induction false} PaddedParse(s: string)
    requires |s| > 0 && AllDigits(s)
    ensures Padded(ParseDigits(s).value, |s|) == s
  {
    var v := ParseDigits(s).value;
    if |s| > 1 {
      PaddedParse(s[..|s| - 1]);
      assert s == s[..|s| - 1] + [s[|s| - 1]];
    }
  }
}
