/**
 * Citation markers such as "[12]" or "[a]" and their removal, the way
 * `preg_replace` applies `\[(?:\d+|[a-z])\]` (case-insensitive) or `\[\d+\]`
 * left to right over a string.
 */
module CitationMarkers {
  import opened PhpStrings

  /** The number of leading ASCII digits of s. */
  function DigitRun(s: string): (n: nat)
    ensures n <= |s|
  {
    if s != [] && IsDigit(s[0]) then 1 + DigitRun(s[1..]) else 0
  }

  /** DigitRun counts a maximal run of digits. */
  lemma {:induction false} DigitRunSpec(s: string)
    ensures AllDigits(s[..DigitRun(s)])
    ensures DigitRun(s) == |s| || !IsDigit(s[DigitRun(s)])
  {
    if s != [] && IsDigit(s[0]) {
      DigitRunSpec(s[1..]);
      assert s[..DigitRun(s)] == [s[0]] + s[1..][..DigitRun(s[1..])];
    }
  }

  /** A citation marker: digits in square brackets, or (when letters is set) one letter. */
  predicate IsMarker(m: string, letters: bool) {
    |m| >= 3 && m[0] == '[' && m[|m| - 1] == ']'
    && (AllDigits(m[1..|m| - 1]) || (letters && |m| == 3 && IsAsciiLetter(m[1])))
  }

  /**
   * The length of the marker the regex matches at the start of s, or 0.
   * `\d+` is greedy and must be followed by `]`, so the digit run is maximal.
   */
  function MarkerLen(s: string, letters: bool): (n: nat)
    ensures n == 0 || 3 <= n <= |s|
  {
    if letters && |s| >= 3 && s[0] == '[' && IsAsciiLetter(s[1]) && s[2] == ']' then 3
    else if s != [] && s[0] == '[' then
      var d := DigitRun(s[1..]);
      if d >= 1 && 1 + d < |s| && s[1 + d] == ']' then d + 2 else 0
    else 0
  }

  /** What the regex matches is a marker. */
  lemma MarkerLenSound(s: string, letters: bool)
    ensures MarkerLen(s, letters) > 0 ==> IsMarker(s[..MarkerLen(s, letters)], letters)
  {
    var n := MarkerLen(s, letters);
    if n > 0 && !(letters && |s| >= 3 && s[0] == '[' && IsAsciiLetter(s[1]) && s[2] == ']') {
      DigitRunSpec(s[1..]);
      assert s[..n][1..n - 1] == s[1..][..n - 2];
    }
  }

  /** The marker regex applied left to right over the whole string. */
  function RemoveMarkers(s: string, letters: bool): (r: string)
    ensures |r| <= |s|
  {
    if s == [] then []
    else if MarkerLen(s, letters) > 0 then RemoveMarkers(s[MarkerLen(s, letters)..], letters)
    else [s[0]] + RemoveMarkers(s[1..], letters)
  }

  lemma {:induction false} DigitRunAppend(x: string, t: string)
    requires t == [] || !IsDigit(t[0])
    ensures DigitRun(x + t) == DigitRun(x)
  {
    if x == [] {
      assert x + t == t;
    } else if IsDigit(x[0]) {
      assert (x + t)[1..] == x[1..] + t;
      DigitRunAppend(x[1..], t);
    }
  }

  lemma {:induction false} DigitRunAll(x: string)
    requires AllDigits(x)
    ensures DigitRun(x) == |x|
  {
    if x != [] {
      assert AllDigits(x[1..]) by { assert forall i :: 0 <= i < |x| - 1 ==> x[1..][i] == x[i + 1]; }
      DigitRunAll(x[1..]);
    }
  }

  /** The regex finds every marker: it matches a whole marker at its first character. */
  lemma MarkerLenOfMarker(m: string, t: string, letters: bool)
    requires IsMarker(m, letters)
    ensures MarkerLen(m + t, letters) == |m|
  {
    var s := m + t;
    if !(letters && |m| == 3 && IsAsciiLetter(m[1])) {
      var x := m[1..|m| - 1];
      assert s[1..] == x + ([']'] + t);
      DigitRunAppend(x, [']'] + t);
      DigitRunAll(x);
    }
  }

  /** A match attempt that starts inside a never reaches a following '['. */
  lemma MarkerLenPrefix(a: string, t: string, letters: bool)
    requires a != [] && (t == [] || t[0] == '[')
    ensures MarkerLen(a + t, letters) == MarkerLen(a, letters)
    ensures MarkerLen(a, letters) <= |a|
  {
    var s := a + t;
    if s[0] == '[' {
      assert s[1..] == a[1..] + t;
      DigitRunAppend(a[1..], t);
    }
  }

  /** A match never runs from one string into a following one that starts with '['. */
  lemma {:induction false} RemoveMarkersConcat(a: string, t: string, letters: bool)
    requires t == [] || t[0] == '['
    ensures RemoveMarkers(a + t, letters) == RemoveMarkers(a, letters) + RemoveMarkers(t, letters)
    decreases |a|
  {
    if a == [] {
      assert a + t == t;
    } else {
      MarkerLenPrefix(a, t, letters);
      var n := MarkerLen(a, letters);
      if n > 0 {
        UnfoldAtMarker(a, t, letters);
        RemoveMarkersConcat(a[n..], t, letters);
        assert RemoveMarkers(a + t, letters) == RemoveMarkers(a, letters) + RemoveMarkers(t, letters);
      } else {
        UnfoldAtChar(a, t, letters);
        RemoveMarkersConcat(a[1..], t, letters);
        AppendAssoc([a[0]], RemoveMarkers(a[1..], letters), RemoveMarkers(t, letters));
      }
    }
  }

  lemma UnfoldAtMarker(a: string, t: string, letters: bool)
    requires 0 < MarkerLen(a, letters) <= |a| && MarkerLen(a + t, letters) == MarkerLen(a, letters)
    ensures RemoveMarkers(a + t, letters) == RemoveMarkers(a[MarkerLen(a, letters)..] + t, letters)
    ensures RemoveMarkers(a, letters) == RemoveMarkers(a[MarkerLen(a, letters)..], letters)
  {
    assert (a + t)[MarkerLen(a, letters)..] == a[MarkerLen(a, letters)..] + t;
  }

  lemma UnfoldAtChar(a: string, t: string, letters: bool)
    requires a != [] && MarkerLen(a, letters) == 0 && MarkerLen(a + t, letters) == 0
    ensures RemoveMarkers(a + t, letters) == [a[0]] + RemoveMarkers(a[1..] + t, letters)
    ensures RemoveMarkers(a, letters) == [a[0]] + RemoveMarkers(a[1..], letters)
  {
    assert (a + t)[1..] == a[1..] + t;
  }

  /** Markers are removed wherever they stand: cutting one out splits the result. */
  lemma RemoveMarkersSplice(a: string, m: string, b: string, letters: bool)
    requires IsMarker(m, letters)
    ensures RemoveMarkers(a + m + b, letters) == RemoveMarkers(a, letters) + RemoveMarkers(b, letters)
  {
    assert a + m + b == a + (m + b);
    RemoveMarkersConcat(a, m + b, letters);
    MarkerLenOfMarker(m, b, letters);
    assert (m + b)[|m|..] == b;
  }

  /** A string without '[' has no marker to remove. */
  lemma {:induction false} RemoveMarkersNoBracket(s: string, letters: bool)
    requires '[' !in s
    ensures RemoveMarkers(s, letters) == s
  {
    if s != [] {
      assert forall i :: 0 <= i < |s| - 1 ==> s[1..][i] == s[i + 1];
      RemoveMarkersNoBracket(s[1..], letters);
    }
  }
}
