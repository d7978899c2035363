/**
 * The record timestamp, `datetime.now().strftime("%Y-%m-%d %H:%M:%S")`.
 * The clock reading itself is an input; only its rendering is modelled.
 */
module Timestamps {
  import opened Decimal
  import opened Text

  datatype DateTime = DateTime(year: nat, month: nat, day: nat, hour: nat, minute: nat, second: nat)

  /** The `"%Y-%m-%d %H:%M:%S"` rendering: every field zero-padded, the year to four digits. */
  function Strftime(t: DateTime): string {
    DatePart(t) + " " + TimePart(t)
  }

  function DatePart(t: DateTime): string {
    ZeroPad(t.year, 4) + "-" + ZeroPad(t.month, 2) + "-" + ZeroPad(t.day, 2)
  }

  function TimePart(t: DateTime): string {
    ZeroPad(t.hour, 2) + ":" + ZeroPad(t.minute, 2) + ":" + ZeroPad(t.second, 2)
  }

  ghost predicate SpaceFree(s: string) {
    forall i :: 0 <= i < |s| ==> s[i] != ' '
  }

  lemma DigitsAreSpaceFree(s: string)
    requires IsDigits(s)
    ensures SpaceFree(s)
  {
    forall i | 0 <= i < |s|
      ensures s[i] != ' '
    {
      assert IsDigit(s[i]);
    }
  }

  lemma PartsAreSpaceFree(t: DateTime)
    ensures SpaceFree(DatePart(t)) && SpaceFree(TimePart(t))
    ensures |TimePart(t)| >= 1 && IsDigit(TimePart(t)[0])
  {
    ZeroPadSpec(t.year, 4);
    ZeroPadSpec(t.month, 2);
    ZeroPadSpec(t.day, 2);
    ZeroPadSpec(t.hour, 2);
    ZeroPadSpec(t.minute, 2);
    ZeroPadSpec(t.second, 2);
    DigitsAreSpaceFree(ZeroPad(t.year, 4));
    DigitsAreSpaceFree(ZeroPad(t.month, 2));
    DigitsAreSpaceFree(ZeroPad(t.day, 2));
    DigitsAreSpaceFree(ZeroPad(t.hour, 2));
    DigitsAreSpaceFree(ZeroPad(t.minute, 2));
    DigitsAreSpaceFree(ZeroPad(t.second, 2));
    assert TimePart(t)[0] == ZeroPad(t.hour, 2)[0];
  }

  /**
   * A rendered timestamp can stand before the `" - "` separator: its only
   * space is followed by a digit, so it neither contains `" - "` nor ends
   * in `" -"`.
   */
  lemma StrftimeIsDashSafe(t: DateTime)
    ensures DashSafe(Strftime(t))
  {
    var date, time := DatePart(t), TimePart(t);
    var s := Strftime(t);
    PartsAreSpaceFree(t);
    forall i | 0 <= i < |s| - 1
      ensures s[i] == ' ' ==> s[i + 1] != '-'
    {
      if i < |date| {
        assert s[i] == date[i];
      } else if i > |date| {
        assert s[i] == time[i - |date| - 1];
      } else {
        assert s[i + 1] == time[0];
      }
    }
    NoSpaceHyphenIsDashSafe(s);
  }
}
