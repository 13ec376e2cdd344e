/** The string operations the processor relies on: lower-casing and the
    substring test used to pick a worksheet by keyword, and the decimal
    rendering with zero padding (`str(i).zfill(3)`) used to build fund
    pseudonyms, together with a parser that inverts it. */
module Text {

  /** `str.lower` on one character (ASCII letters only). */
  function LowerChar(c: char): char {
    if 'A' <= c <= 'Z' then (c as int - 'A' as int + 'a' as int) as char else c
  }

  function Lower(s: string): (r: string)
    ensures |r| == |s|
    ensures forall i :: 0 <= i < |s| ==> r[i] == LowerChar(s[i])
  {
    if s == [] then [] else [LowerChar(s[0])] + Lower(s[1..])
  }

  /** `pat` occurs in `s` starting at index `i`. */
  predicate OccursAt(pat: string, s: string, i: nat) {
    i + |pat| <= |s| && s[i..i + |pat|] == pat
  }

  function OccursFrom(pat: string, s: string, start: nat): (b: bool)
    ensures b <==> exists i :: start <= i && OccursAt(pat, s, i)
    decreases |s| - start
  {
    if start + |pat| > |s| then false
    else if s[start..start + |pat|] == pat then assert OccursAt(pat, s, start); true
    else OccursFrom(pat, s, start + 1)
  }

  /** Python's `pat in s` on strings: `pat` is a contiguous substring of `s`
      (the empty string is a substring of every string). */
  function Contains(s: string, pat: string): (b: bool)
    ensures b <==> exists i :: 0 <= i && OccursAt(pat, s, i)
  {
    OccursFrom(pat, s, 0)
  }

  /** Every string contains itself, and no string contains a longer one. */
  lemma ContainsLength(s: string, pat: string)
    ensures s == pat ==> Contains(s, pat)
    ensures |pat| > |s| ==> !Contains(s, pat)
  {
    if s == pat {
      assert OccursAt(pat, s, 0);
    }
    if Contains(s, pat) {
      var i :| 0 <= i && OccursAt(pat, s, i);
    }
  }

  predicate IsDigit(c: char) {
    '0' <= c <= '9'
  }

  predicate AllDigits(s: string) {
    forall i :: 0 <= i < |s| ==> IsDigit(s[i])
  }

  function DigitChar(d: nat): (c: char)
    requires d < 10
    ensures IsDigit(c)
  {
    ('0' as int + d) as char
  }

  /** `str(n)` for a natural number. */
  function Decimal(n: nat): (s: string)
    ensures |s| >= 1 && AllDigits(s)
    ensures n > 0 ==> s[0] != '0'
  {
    if n < 10 then [DigitChar(n)] else Decimal(n / 10) + [DigitChar(n % 10)]
  }

  /** 10 to the power `k`. */
  function Pow10(k: nat): (p: nat)
    ensures p >= 1
  {
    if k == 0 then 1 else 10 * Pow10(k - 1)
  }

  /** `str(n)` has at most `k` digits exactly when `n < 10^k`. */
  lemma {:induction false} DecimalLength(n: nat, k: nat)
    requires k >= 1
    ensures |Decimal(n)| <= k <==> n < Pow10(k)
  {
    if n >= 10 {
      assert |Decimal(n)| == |Decimal(n / 10)| + 1;
      if k > 1 {
        DecimalLength(n / 10, k - 1);
      }
    } else if k > 1 {
      assert Pow10(k) == 10 * Pow10(k - 1);
    }
  }

  /** The number a string of decimal digits denotes (leading zeros allowed). */
  function DigitsValue(s: string): nat
    requires AllDigits(s)
  {
    if s == [] then 0
    else DigitsValue(s[..|s| - 1]) * 10 + (s[|s| - 1] as int - '0' as int)
  }

  lemma {:induction false} DecimalValue(n: nat)
    ensures DigitsValue(Decimal(n)) == n
  {
    if n >= 10 {
      DecimalValue(n / 10);
      var s := Decimal(n);
      assert s[..|s| - 1] == Decimal(n / 10);
    }
  }

  function Zeros(k: nat): (z: string)
    ensures |z| == k && forall i :: 0 <= i < k ==> z[i] == '0'
  {
    if k == 0 then [] else ['0'] + Zeros(k - 1)
  }

  /** `str.zfill(width)`: pads with '0' on the left up to `width` characters,
      after a leading sign if there is one; never shortens. */
  function ZFill(s: string, width: nat): (r: string)
    ensures |r| == if |s| >= width then |s| else width
  {
    if |s| >= width then s
    else if |s| > 0 && (s[0] == '+' || s[0] == '-') then [s[0]] + Zeros(width - |s|) + s[1..]
    else Zeros(width - |s|) + s
  }

  lemma {:induction false} ZerosValue(k: nat)
    ensures DigitsValue(Zeros(k)) == 0
  {
    if k > 0 {
      var z := Zeros(k);
      assert z[..k - 1] == Zeros(k - 1);
      ZerosValue(k - 1);
    }
  }

  lemma {:induction false} LeadingZerosValue(k: nat, s: string)
    requires AllDigits(s)
    ensures AllDigits(Zeros(k) + s)
    ensures DigitsValue(Zeros(k) + s) == DigitsValue(s)
    decreases |s|
  {
    var t := Zeros(k) + s;
    if s == [] {
      assert t == Zeros(k);
      ZerosValue(k);
    } else {
      assert t[..|t| - 1] == Zeros(k) + s[..|s| - 1];
      LeadingZerosValue(k, s[..|s| - 1]);
    }
  }

  /** Padding a number's decimal rendering keeps its value, so the padded
      form can be parsed back. */
  lemma ZFillDecimalValue(n: nat, width: nat)
    ensures AllDigits(ZFill(Decimal(n), width))
    ensures DigitsValue(ZFill(Decimal(n), width)) == n
  {
    var s := Decimal(n);
    DecimalValue(n);
    if |s| < width {
      LeadingZerosValue(width - |s|, s);
    }
  }
}
