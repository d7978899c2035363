/**
 * Decimal text of integers as Python writes it: `str(n)` (no padding, a
 * leading `-` for negatives) and `format(n, "0w")` (zero-padded on the left
 * to at least `w` characters). Each rendering is tied to its reading back by
 * `DigitsValue` / `SignedValue`.
 */
module Decimal {

  predicate IsDigit(c: char) {
    '0' <= c <= '9'
  }

  predicate IsDigits(s: string) {
    forall i :: 0 <= i < |s| ==> IsDigit(s[i])
  }

  function DigitChar(d: nat): (c: char)
    requires d < 10
    ensures IsDigit(c) && c as int - '0' as int == d
  {
    ('0' as int + d) as char
  }

  function DigitValue(c: char): nat
    requires IsDigit(c)
  {
    c as int - '0' as int
  }

  /** The number a string of decimal digits denotes (most significant first). */
  function DigitsValue(s: string): nat
    requires IsDigits(s)
  {
    if s == [] then 0 else DigitsValue(s[..|s| - 1]) * 10 + DigitValue(s[|s| - 1])
  }

  /** Text for an optionally negative integer: digits, or `-` then digits. */
  predicate IsIntText(s: string) {
    (|s| >= 1 && IsDigits(s)) || (|s| >= 2 && s[0] == '-' && IsDigits(s[1..]))
  }

  function SignedValue(s: string): int
    requires IsIntText(s)
  {
    if s[0] == '-' then -(DigitsValue(s[1..]) as int) else DigitsValue(s)
  }

  /** `str(n)` for `n >= 0`: the digits of `n`, most significant first. */
  function NatToString(n: nat): string
    decreases n
  {
    if n < 10 then [DigitChar(n)] else NatToString(n / 10) + [DigitChar(n % 10)]
  }

  /** `str(n)` is nonempty, all digits, without leading zeros, and reads back as `n`. */
  lemma {:induction false} NatToStringSpec(n: nat)
    ensures var s := NatToString(n);
      && |s| >= 1 && IsDigits(s) && DigitsValue(s) == n
      && (|s| > 1 ==> s[0] != '0')
    decreases n
  {
    if n >= 10 {
      var prefix := NatToString(n / 10);
      NatToStringSpec(n / 10);
      assert (prefix + [DigitChar(n % 10)])[..|prefix|] == prefix;
    }
  }

  /** A number below 10, 100 or 1000 has at most 1, 2 or 3 digits. */
  lemma {:induction false} NatToStringLength(n: nat)
    ensures n < 10 ==> |NatToString(n)| == 1
    ensures n < 100 ==> |NatToString(n)| <= 2
    ensures n < 1000 ==> |NatToString(n)| <= 3
    decreases n
  {
    if n >= 10 {
      NatToStringLength(n / 10);
    }
  }

  lemma {:induction false} LeadingZero(s: string)
    requires IsDigits(s)
    ensures IsDigits("0" + s) && DigitsValue("0" + s) == DigitsValue(s)
    decreases |s|
  {
    if s != [] {
      var init := s[..|s| - 1];
      LeadingZero(init);
      assert ("0" + s)[..|s|] == "0" + init;
    }
  }

  function Max(a: int, b: int): int {
    if a < b then b else a
  }

  /**
   * `format(n, "0w")`: the digits of `n` with zeros in front, up to
   * `width` characters; a longer number is not cut.
   */
  function ZeroPad(n: nat, width: nat): string
    decreases width
  {
    if width <= |NatToString(n)| then NatToString(n) else "0" + ZeroPad(n, width - 1)
  }

  /**
   * The padded text is all digits, reads back as `n`, and is exactly `width`
   * long unless the digits of `n` are longer.
   */
  lemma {:induction false} ZeroPadSpec(n: nat, width: nat)
    ensures IsDigits(ZeroPad(n, width)) && DigitsValue(ZeroPad(n, width)) == n
    ensures |ZeroPad(n, width)| == Max(width, |NatToString(n)|)
    decreases width
  {
    NatToStringSpec(n);
    if width > |NatToString(n)| {
      ZeroPadSpec(n, width - 1);
      LeadingZero(ZeroPad(n, width - 1));
    }
  }

  /** `str(i)` for any integer `i`. */
  function IntToString(i: int): string {
    if i < 0 then "-" + NatToString(-i) else NatToString(i)
  }

  /** `str(i)` is integer text that reads back as `i`. */
  lemma IntToStringSpec(i: int)
    ensures IsIntText(IntToString(i)) && SignedValue(IntToString(i)) == i
  {
    if i < 0 {
      var digits := NatToString(-i);
      NatToStringSpec(-i);
      assert ("-" + digits)[1..] == digits;
    } else {
      NatToStringSpec(i);
    }
  }
}
