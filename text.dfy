/**
 * Python's `str.split(sep, 1)` on the separators the record format uses.
 *
 * `s.split(sep, 1)` cuts `s` at the FIRST (leftmost) occurrence of `sep`
 * and returns the two pieces; when `sep` does not occur it returns `[s]`,
 * and unpacking that one-element list into two names raises `ValueError`.
 * `SplitOnce` models both outcomes with an `Option`.
 */
module Text {
  import opened Wrappers

  /** `sep` occurs in `s` starting at index `i`. */
  predicate OccursAt(s: string, sep: string, i: int) {
    0 <= i && i + |sep| <= |s| && s[i..i + |sep|] == sep
  }

  ghost predicate Contains(s: string, sep: string) {
    exists i :: OccursAt(s, sep, i)
  }

  ghost predicate EndsWith(s: string, suffix: string) {
    |suffix| <= |s| && s[|s| - |suffix|..] == suffix
  }

  /** No occurrence of `sep` in `s` starts before index `n`. */
  ghost predicate NoOccurrenceBefore(s: string, sep: string, n: int) {
    forall i :: 0 <= i < n ==> !OccursAt(s, sep, i)
  }

  lemma OccursInTail(s: string, sep: string)
    requires |s| >= 1
    ensures forall i :: 1 <= i ==> (OccursAt(s, sep, i) <==> OccursAt(s[1..], sep, i - 1))
  {
    forall i | 1 <= i
      ensures OccursAt(s, sep, i) <==> OccursAt(s[1..], sep, i - 1)
    {
      if i + |sep| <= |s| {
        assert s[1..][i - 1..i - 1 + |sep|] == s[i..i + |sep|];
      }
    }
  }

  /** The index of the leftmost occurrence of `sep` in `s`, if any. */
  function FindFirst(s: string, sep: string): (r: Option<nat>)
    ensures r.Some? ==> OccursAt(s, sep, r.value) && NoOccurrenceBefore(s, sep, r.value)
    ensures r.None? ==> !Contains(s, sep)
    decreases |s|
  {
    if |s| < |sep| then None
    else if s[..|sep|] == sep then Some(0)
    else
      OccursInTail(s, sep);
      match FindFirst(s[1..], sep)
      case None => None
      case Some(j) => Some(j + 1)
  }

  /** `s.split(sep, 1)` unpacked into two names: `None` is the `ValueError`. */
  function SplitOnce(s: string, sep: string): (r: Option<(string, string)>)
    ensures r.None? <==> !Contains(s, sep)
    ensures r.Some? ==> r.value.0 + sep + r.value.1 == s
    ensures r.Some? ==> NoOccurrenceBefore(s, sep, |r.value.0|)
  {
    match FindFirst(s, sep)
    case None => None
    case Some(i) =>
      assert s[..i] + sep + s[i + |sep|..] == s by {
        assert s[i..i + |sep|] == sep;
        assert s == s[..i] + s[i..i + |sep|] + s[i + |sep|..];
      }
      Some((s[..i], s[i + |sep|..]))
  }

  /**
   * Splitting `a + sep + b` at `sep` always succeeds, and it gives back
   * exactly `(a, b)` if and only if no occurrence of `sep` starts inside `a`.
   */
  lemma SplitOnceJoined(a: string, sep: string, b: string)
    ensures SplitOnce(a + sep + b, sep).Some?
    ensures SplitOnce(a + sep + b, sep) == Some((a, b)) <==> NoOccurrenceBefore(a + sep + b, sep, |a|)
  {
    var s := a + sep + b;
    assert s[|a|..|a| + |sep|] == sep;
    assert OccursAt(s, sep, |a|);
    var r := SplitOnce(s, sep);
    if NoOccurrenceBefore(s, sep, |a|) {
      var i := FindFirst(s, sep).value;
      assert i == |a|;
      assert s[..i] == a;
      assert s[i + |sep|..] == b;
    }
    if r == Some((a, b)) {
      assert NoOccurrenceBefore(s, sep, |a|);
    }
  }

  lemma OccursJoined(a: string, sep: string, b: string)
    ensures OccursAt(a + sep + b, sep, |a|)
  {
    assert (a + sep + b)[|a|..|a| + |sep|] == sep;
  }

  lemma OccursInSuffix(a: string, b: string, sep: string, k: int)
    requires OccursAt(b, sep, k)
    ensures OccursAt(a + b, sep, |a| + k)
  {
    assert (a + b)[|a| + k..|a| + k + |sep|] == b[k..k + |sep|];
  }

  /** The piece before the cut ends no later than any occurrence of `sep`. */
  lemma SplitOnceFirst(s: string, sep: string, k: int)
    requires OccursAt(s, sep, k)
    ensures SplitOnce(s, sep).Some? && |SplitOnce(s, sep).value.0| <= k
  {
  }

  /** An occurrence of `sep2` after the cut is still in the remainder. */
  lemma SplitOnceKeepsLater(s: string, sep: string, sep2: string, k: int)
    requires SplitOnce(s, sep).Some?
    requires OccursAt(s, sep2, k) && k >= |SplitOnce(s, sep).value.0| + |sep|
    ensures OccursAt(SplitOnce(s, sep).value.1, sep2, k - |SplitOnce(s, sep).value.0| - |sep|)
  {
    var (a, b) := SplitOnce(s, sep).value;
    var off := |a| + |sep|;
    assert b == s[off..];
    assert b[k - off..k - off + |sep2|] == s[k..k + |sep2|];
  }

  /**
   * A field is safe before the `" - "` separator when it neither contains
   * `" - "` nor ends in `" -"` (which would form `" - "` with the separator's
   * first space).
   */
  ghost predicate DashSafe(a: string) {
    !Contains(a, " - ") && !EndsWith(a, " -")
  }

  /** A field is safe before the `": "` separator when it does not contain `": "`. */
  ghost predicate ColonSafe(a: string) {
    !Contains(a, ": ")
  }

  lemma OccursInPrefix(a: string, sep: string, b: string, i: int)
    requires 0 <= i && i + |sep| <= |a|
    ensures OccursAt(a + b, sep, i) <==> OccursAt(a, sep, i)
  {
    assert (a + b)[i..i + |sep|] == a[i..i + |sep|];
  }

  lemma EndsWithDashOccurs(a: string, b: string)
    requires EndsWith(a, " -")
    ensures OccursAt(a + " - " + b, " - ", |a| - 2)
  {
    var s, i := a + " - " + b, |a| - 2;
    assert a[i..] == " -";
    assert s[i..i + 3] == [a[i], a[i + 1], ' '];
  }

  lemma DashSafeIff(a: string, b: string)
    ensures NoOccurrenceBefore(a + " - " + b, " - ", |a|) <==> DashSafe(a)
  {
    var s := a + " - " + b;
    assert s == a + (" - " + b);
    if Contains(a, " - ") {
      var i :| OccursAt(a, " - ", i);
      OccursInPrefix(a, " - ", " - " + b, i);
    }
    if EndsWith(a, " -") {
      EndsWithDashOccurs(a, b);
    }
    if DashSafe(a) {
      forall i | 0 <= i < |a|
        ensures !OccursAt(s, " - ", i)
      {
        if i + 3 <= |a| {
          OccursInPrefix(a, " - ", " - " + b, i);
        } else if i == |a| - 2 {
          assert a[i..] == [a[i], a[i + 1]];
          assert s[i..i + 3] == [a[i], a[i + 1], ' '];
        } else {
          assert i == |a| - 1;
          assert s[i + 1] == ' ';
        }
      }
    }
  }

  lemma ColonSafeIff(a: string, b: string)
    ensures NoOccurrenceBefore(a + ": " + b, ": ", |a|) <==> ColonSafe(a)
  {
    var s := a + ": " + b;
    assert s == a + (": " + b);
    if Contains(a, ": ") {
      var i :| OccursAt(a, ": ", i);
      OccursInPrefix(a, ": ", ": " + b, i);
    }
    if ColonSafe(a) {
      forall i | 0 <= i < |a|
        ensures !OccursAt(s, ": ", i)
      {
        if i + 2 <= |a| {
          OccursInPrefix(a, ": ", ": " + b, i);
        } else {
          assert i == |a| - 1;
          assert s[i + 1] == ':';
        }
      }
    }
  }

  /** A field without any `'-'` is safe before `" - "`. */
  lemma NoHyphenIsDashSafe(a: string)
    requires '-' !in a
    ensures DashSafe(a)
  {
    forall i | 0 <= i && i + 3 <= |a|
      ensures !OccursAt(a, " - ", i)
    {
      assert a[i..i + 3][1] == a[i + 1];
    }
    if |a| >= 2 {
      assert a[|a| - 2..][1] == a[|a| - 1];
    }
  }

  /** A field without any `':'` is safe before `": "`. */
  lemma NoColonIsColonSafe(a: string)
    requires ':' !in a
    ensures ColonSafe(a)
  {
    forall i | 0 <= i && i + 2 <= |a|
      ensures !OccursAt(a, ": ", i)
    {
      assert a[i..i + 2][0] == a[i];
    }
  }

  /**
   * A field in which no space is directly followed by a hyphen is safe
   * before `" - "`.
   */
  lemma NoSpaceHyphenIsDashSafe(a: string)
    requires forall i :: 0 <= i < |a| - 1 && a[i] == ' ' ==> a[i + 1] != '-'
    ensures DashSafe(a)
  {
    forall i | 0 <= i && i + 3 <= |a|
      ensures !OccursAt(a, " - ", i)
    {
      assert a[i..i + 3][0] == a[i] && a[i..i + 3][1] == a[i + 1];
    }
    if |a| >= 2 {
      var i := |a| - 2;
      assert a[i..][0] == a[i] && a[i..][1] == a[i + 1];
    }
  }
}
