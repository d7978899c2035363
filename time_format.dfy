/**
 * The stopwatch display format `M:SS:mmm` (`format_time`): two `divmod`
 * steps on integer milliseconds, then minutes unpadded, seconds padded to
 * two digits and milliseconds padded to three.
 *
 * Python's `divmod` floors; Dafny's `/` and `%` agree with it whenever the
 * divisor is positive, as both divisors here are, so the function is total
 * on all integers as the original is.
 */
module TimeFormat {
  import opened Decimal

  /** The label text of a freshly created window. */
  const InitialLabel: string := "0:00:000"

  /** The text `format_time` returns for `milliseconds`. */
  function FormatTime(milliseconds: int): string
  {
    var totalSeconds, ms := milliseconds / 1000, milliseconds % 1000;
    var minutes, seconds := totalSeconds / 60, totalSeconds % 60;
    Layout(minutes, seconds, ms)
  }

  /** The f-string `f"{minutes}:{seconds:02}:{ms:03}"`. */
  function Layout(minutes: int, seconds: nat, ms: nat): string {
    IntToString(minutes) + ":" + ZeroPad(seconds, 2) + ":" + ZeroPad(ms, 3)
  }

  /**
   * The shape of a duration text: an integer, `:`, exactly two digits, `:`,
   * exactly three digits.
   */
  predicate IsDuration(r: string) {
    && |r| >= 8
    && r[|r| - 7] == ':' && r[|r| - 4] == ':'
    && IsIntText(MinutesText(r))
    && IsDigits(SecondsText(r))
    && IsDigits(MillisText(r))
  }

  function MinutesText(r: string): string
    requires |r| >= 7
  {
    r[..|r| - 7]
  }

  function SecondsText(r: string): string
    requires |r| >= 7
  {
    r[|r| - 6..|r| - 4]
  }

  function MillisText(r: string): string
    requires |r| >= 3
  {
    r[|r| - 3..]
  }

  lemma DurationParts(m: string, s: string, ms: string)
    requires IsIntText(m) && IsDigits(s) && IsDigits(ms) && |s| == 2 && |ms| == 3
    ensures var r := m + ":" + s + ":" + ms;
      |r| >= 8 && r[|r| - 7] == ':' && r[|r| - 4] == ':'
      && MinutesText(r) == m && SecondsText(r) == s && MillisText(r) == ms
  {
    var r := m + ":" + s + ":" + ms;
    assert r[..|m|] == m;
    assert r[|m| + 1..|m| + 3] == s;
    assert r[|m| + 4..] == ms;
  }

  /**
   * Every display has the `M:SS:mmm` shape, whose three fields are exactly
   * the three rendered numbers.
   */
  lemma FormatTimeShape(m: int)
    ensures IsDuration(FormatTime(m))
    ensures var r := FormatTime(m);
      && MinutesText(r) == IntToString((m / 1000) / 60)
      && SecondsText(r) == ZeroPad((m / 1000) % 60, 2)
      && MillisText(r) == ZeroPad(m % 1000, 3)
  {
    var seconds, ms := (m / 1000) % 60, m % 1000;
    IntToStringSpec((m / 1000) / 60);
    ZeroPadSpec(seconds, 2);
    ZeroPadSpec(ms, 3);
    NatToStringLength(seconds);
    NatToStringLength(ms);
    DurationParts(IntToString((m / 1000) / 60), ZeroPad(seconds, 2), ZeroPad(ms, 3));
  }

  /** `a / b / c == a / (b * c)` for floor division by positive divisors. */
  lemma NestedDivision(m: int)
    ensures (m / 1000) / 60 == m / 60000
    ensures m == ((m / 1000) / 60) * 60000 + ((m / 1000) % 60) * 1000 + m % 1000
  {
    var q, r := m / 1000, m % 1000;
    var q2, r2 := q / 60, q % 60;
    assert m == q * 1000 + r;
    assert q == q2 * 60 + r2;
    assert m == q2 * 60000 + (r2 * 1000 + r);
    assert 0 <= r2 * 1000 + r < 60000;
  }

  /**
   * The three fields of `format_time(m)` read back as minutes `m // 60000`,
   * seconds `(m // 1000) % 60` in [0, 59] and milliseconds `m % 1000` in
   * [0, 999], and they add back up to `m`.
   */
  lemma FormatTimeFields(m: int)
    ensures IsDuration(FormatTime(m))
    ensures var r := FormatTime(m);
      && SignedValue(MinutesText(r)) == m / 60000
      && DigitsValue(SecondsText(r)) == (m / 1000) % 60 < 60
      && DigitsValue(MillisText(r)) == m % 1000 < 1000
      && SignedValue(MinutesText(r)) * 60000 + DigitsValue(SecondsText(r)) * 1000
         + DigitsValue(MillisText(r)) == m
  {
    FormatTimeShape(m);
    NestedDivision(m);
    IntToStringSpec(m / 60000);
    ZeroPadSpec((m / 1000) % 60, 2);
    ZeroPadSpec(m % 1000, 3);
  }

  /** For a non-negative duration the minutes are plain digits without leading zeros. */
  lemma FormatTimeMinutesUnpadded(m: int)
    requires m >= 0
    ensures IsDuration(FormatTime(m))
    ensures var minutes := MinutesText(FormatTime(m));
      IsDigits(minutes) && (|minutes| > 1 ==> minutes[0] != '0')
  {
    FormatTimeShape(m);
    NatToStringSpec((m / 1000) / 60);
  }

  /** Different durations are displayed differently. */
  lemma FormatTimeInjective(m1: int, m2: int)
    requires FormatTime(m1) == FormatTime(m2)
    ensures m1 == m2
  {
    FormatTimeFields(m1);
    FormatTimeFields(m2);
  }

  /** The window's initial label is the display of zero elapsed time. */
  lemma InitialLabelIsZero()
    ensures FormatTime(0) == InitialLabel
  {
    assert NatToString(0) == "0";
    assert ZeroPad(0, 2) == "00";
    assert ZeroPad(0, 3) == "000";
  }

  lemma DivisionFacts()
    ensures 61234 / 60000 == 1 && (61234 / 1000) % 60 == 1 && 61234 % 1000 == 234
    ensures 999 / 60000 == 0 && (999 / 1000) % 60 == 0 && 999 % 1000 == 999
    ensures 3600000 / 60000 == 60 && (3600000 / 1000) % 60 == 0 && 3600000 % 1000 == 0
    ensures 61500 / 60000 == 1 && (61500 / 1000) % 60 == 1 && 61500 % 1000 == 500
  {
  }

  lemma LayoutExamples()
    ensures Layout(1, 1, 234) == "1:01:234"
    ensures Layout(0, 0, 999) == "0:00:999"
    ensures Layout(60, 0, 0) == "60:00:000"
    ensures Layout(1, 1, 500) == "1:01:500"
  {
    NumberTexts();
    assert Layout(1, 1, 234) == "1" + ":" + "01" + ":" + "234";
    assert Layout(0, 0, 999) == "0" + ":" + "00" + ":" + "999";
    assert Layout(60, 0, 0) == "60" + ":" + "00" + ":" + "000";
    assert Layout(1, 1, 500) == "1" + ":" + "01" + ":" + "500";
  }

  lemma NumberTexts()
    ensures IntToString(0) == "0" && IntToString(1) == "1" && IntToString(60) == "60"
    ensures ZeroPad(0, 2) == "00" && ZeroPad(1, 2) == "01" && ZeroPad(0, 3) == "000"
    ensures ZeroPad(234, 3) == "234" && ZeroPad(500, 3) == "500" && ZeroPad(999, 3) == "999"
  {
  }

  /** Worked values of the display format. */
  lemma FormatTimeExamples()
    ensures FormatTime(61234) == "1:01:234"
    ensures FormatTime(999) == "0:00:999"
    ensures FormatTime(3600000) == "60:00:000"
    ensures FormatTime(61500) == "1:01:500"
  {
    DivisionFacts();
    LayoutExamples();
    NestedDivision(61234);
    NestedDivision(999);
    NestedDivision(3600000);
    NestedDivision(61500);
  }
}
