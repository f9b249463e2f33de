/**
 * The tolerant date and year extraction of `InfoboxParser`: `extractDate`
 * (four regular expressions tried in turn, each taking its leftmost match)
 * and the "first four digits" rule of `extractYear`, which
 * `ProcessGamePageJob::extractReleaseYear` applies as well.
 *
 * PCRE's `\d` and `\w` are taken as their ASCII classes and `/i` as ASCII
 * case folding.
 */
module InfoboxDates {
  import opened Wrappers
  import opened PhpStrings

  /** `\w`: letters, digits and underscore. */
  predicate IsWordChar(c: char) { IsAsciiLetter(c) || IsDigit(c) || c == '_' }

  /** `\b` in front of a word character at i. */
  predicate WordStartsAt(t: string, i: nat)
    requires i <= |t|
  {
    i == 0 || !IsWordChar(t[i - 1])
  }

  /** `\b` behind a word character that ends at e. */
  predicate WordEndsAt(t: string, e: nat)
    requires e <= |t|
  {
    e == |t| || !IsWordChar(t[e])
  }

  /** The number of consecutive `\s` characters of t from k. */
  function SpacesFrom(t: string, k: nat): (n: nat)
    requires k <= |t|
    ensures k + n <= |t|
    ensures forall j :: k <= j < k + n ==> IsSpace(t[j])
    ensures k + n == |t| || !IsSpace(t[k + n])
    decreases |t| - k
  {
    if k < |t| && IsSpace(t[k]) then 1 + SpacesFrom(t, k + 1) else 0
  }

  /** The number of consecutive digits of t from k. */
  function DigitsFrom(t: string, k: nat): (n: nat)
    requires k <= |t|
    ensures k + n <= |t|
    ensures forall j :: k <= j < k + n ==> IsDigit(t[j])
    ensures k + n == |t| || !IsDigit(t[k + n])
    decreases |t| - k
  {
    if k < |t| && IsDigit(t[k]) then 1 + DigitsFrom(t, k + 1) else 0
  }

  /** The alternatives of the month group, in the order the regex tries them. */
  const MonthForms: seq<string> := [
    "January", "Jan", "February", "Feb", "March", "Mar", "April", "Apr", "May",
    "June", "Jun", "July", "Jul", "August", "Aug", "September", "Sept", "Sep",
    "October", "Oct", "November", "Nov", "December", "Dec"]

  predicate MatchesIgnoreCase(t: string, i: nat, form: string)
    requires i <= |t|
  {
    i + |form| <= |t| && EqualsIgnoreCase(t[i..i + |form|], form)
  }

  /**
   * The length of the month name at i. In every pattern the month is followed
   * by `\s+`, so an alternative can only lead to a match when a `\s` follows
   * it; the regex takes the first such alternative.
   */
  function MonthAt(t: string, i: nat): (m: Option<nat>)
    requires i <= |t|
    ensures m.Some? ==> i + m.value < |t| && IsSpace(t[i + m.value])
  {
    MonthFormAt(t, i, MonthForms)
  }

  function MonthFormAt(t: string, i: nat, forms: seq<string>): (m: Option<nat>)
    requires i <= |t|
    ensures m.Some? ==> i + m.value < |t| && IsSpace(t[i + m.value])
  {
    if forms == [] then None
    else
      var f := forms[0];
      if MatchesIgnoreCase(t, i, f) && i + |f| < |t| && IsSpace(t[i + |f|]) then Some(|f|)
      else MonthFormAt(t, i, forms[1..])
  }

  /** The four patterns of extractDate, in the order they are tried. */
  datatype Pattern =
    | MonthDayYear   // `(months)\s+\d{1,2},\s+\d{4}`
    | DayMonthYear   // `\b\d{1,2}\s+(months)\s+\d{4}\b`
    | MonthYear      // `(months)\s+\d{4}`
    | BareYear       // `\b(19|20)\d{2}\b`

  /** `\s+\d{4}` from k: where the four digits end. */
  function SpacedYear(t: string, k: nat): (e: Option<nat>)
    requires k <= |t|
    ensures e.Some? ==> k + 5 <= e.value <= |t| && AllDigits(t[e.value - 4..e.value])
  {
    var s := SpacesFrom(t, k);
    if s >= 1 && DigitsFrom(t, k + s) >= 4 then
      var e := k + s + 4;
      assert forall j :: e - 4 <= j < e ==> IsDigit(t[j]);
      Some(e)
    else None
  }

  /** `(months)\s+\d{1,2},\s+\d{4}` at i. */
  function MonthDayYearAt(t: string, i: nat): (e: Option<nat>)
    requires i <= |t|
    ensures e.Some? ==> i + 4 <= e.value <= |t| && AllDigits(t[e.value - 4..e.value])
  {
    match MonthAt(t, i)
    case None => None
    case Some(m) =>
      var k := i + m + SpacesFrom(t, i + m);
      var d := DigitsFrom(t, k);
      if 1 <= d <= 2 && k + d < |t| && t[k + d] == ',' then SpacedYear(t, k + d + 1) else None
  }

  /** `\b\d{1,2}\s+(months)\s+\d{4}\b` at i. */
  function DayMonthYearAt(t: string, i: nat): (e: Option<nat>)
    requires i <= |t|
    ensures e.Some? ==> i + 4 <= e.value <= |t| && AllDigits(t[e.value - 4..e.value])
  {
    var d := DigitsFrom(t, i);
    var s := SpacesFrom(t, i + d);
    if 1 <= d <= 2 && WordStartsAt(t, i) && s >= 1 then
      match MonthAt(t, i + d + s)
      case None => None
      case Some(m) =>
        var e := SpacedYear(t, i + d + s + m);
        if e.Some? && WordEndsAt(t, e.value) then e else None
    else None
  }

  /** `(months)\s+\d{4}` at i. */
  function MonthYearAt(t: string, i: nat): (e: Option<nat>)
    requires i <= |t|
    ensures e.Some? ==> i + 4 <= e.value <= |t| && AllDigits(t[e.value - 4..e.value])
  {
    match MonthAt(t, i)
    case None => None
    case Some(m) => SpacedYear(t, i + m)
  }

  /** `\b(19|20)\d{2}\b` at i. */
  function BareYearAt(t: string, i: nat): (e: Option<nat>)
    requires i <= |t|
    ensures e.Some? ==> e.value == i + 4 <= |t| && AllDigits(t[i..i + 4])
    ensures e.Some? ==> t[i..i + 2] == "19" || t[i..i + 2] == "20"
  {
    if i + 4 <= |t| && WordStartsAt(t, i) && ((t[i] == '1' && t[i + 1] == '9') || (t[i] == '2' && t[i + 1] == '0'))
      && IsDigit(t[i + 2]) && IsDigit(t[i + 3]) && WordEndsAt(t, i + 4)
    then
      assert forall j :: i <= j < i + 4 ==> IsDigit(t[j]);
      Some(i + 4)
    else None
  }

  /**
   * Where the match of pattern p that starts at i ends, if there is one. At a
   * given start each pattern can match in at most one way: `\d{1,2}` is
   * followed by ',' or `\s`, which it cannot take back, and `\s+` by a digit
   * or a letter.
   */
  function MatchAt(p: Pattern, t: string, i: nat): (e: Option<nat>)
    requires i <= |t|
    ensures e.Some? ==> i + 4 <= e.value <= |t| && AllDigits(t[e.value - 4..e.value])
  {
    match p
    case MonthDayYear => MonthDayYearAt(t, i)
    case DayMonthYear => DayMonthYearAt(t, i)
    case MonthYear => MonthYearAt(t, i)
    case BareYear => BareYearAt(t, i)
  }

  /** The leftmost start in [i, n) at which m finds a match, with the match's end. */
  function FirstFrom(m: nat -> Option<nat>, n: nat, i: nat): (r: Option<(nat, nat)>)
    requires i <= n
    ensures r.Some? ==> i <= r.value.0 < n
    decreases n - i
  {
    if i == n then None
    else if m(i).Some? then Some((i, m(i).value))
    else FirstFrom(m, n, i + 1)
  }

  /** FirstFrom finds the leftmost match, and None means there is none in [i, n). */
  lemma {:induction false} FirstFromIsLeftmost(m: nat -> Option<nat>, n: nat, i: nat)
    requires i <= n
    ensures var r := FirstFrom(m, n, i);
      && (r.Some? ==> m(r.value.0) == Some(r.value.1) && forall j :: i <= j < r.value.0 ==> m(j).None?)
      && (r.None? ==> forall j :: i <= j < n ==> m(j).None?)
    decreases n - i
  {
    if i < n && m(i).None? {
      FirstFromIsLeftmost(m, n, i + 1);
    }
  }

  /** Pattern p tried at every position of t. */
  function Matcher(p: Pattern, t: string): nat -> Option<nat> {
    (j: nat) => if j <= |t| then MatchAt(p, t, j) else None
  }

  /** The leftmost match of p in t, as (start, end). */
  function FirstMatch(p: Pattern, t: string): (r: Option<(nat, nat)>)
    ensures r.Some? ==> r.value.0 < |t|
  {
    FirstFrom(Matcher(p, t), |t|, 0)
  }

  /** FirstMatch is `preg_match`'s leftmost match: nothing matches before it, and None means no match at all. */
  lemma FirstMatchIsLeftmost(p: Pattern, t: string)
    ensures var r := FirstMatch(p, t);
      && (r.Some? ==> MatchAt(p, t, r.value.0) == Some(r.value.1)
                      && forall j :: 0 <= j < r.value.0 ==> MatchAt(p, t, j).None?)
      && (r.None? ==> forall j :: 0 <= j <= |t| ==> MatchAt(p, t, j).None?)
  {
    var m := Matcher(p, t);
    FirstFromIsLeftmost(m, |t|, 0);
    var r := FirstMatch(p, t);
    if r.Some? {
      assert m(r.value.0) == MatchAt(p, t, r.value.0);
      forall j | 0 <= j < r.value.0 ensures MatchAt(p, t, j).None? {
        assert m(j) == MatchAt(p, t, j);
      }
    } else {
      forall j | 0 <= j <= |t| ensures MatchAt(p, t, j).None? {
        if j < |t| { assert m(j) == MatchAt(p, t, j); }
      }
    }
  }

  /** The text of the leftmost match of p in t. */
  function MatchText(p: Pattern, t: string): (r: Option<string>)
    ensures r.Some? ==> |r.value| >= 4 && AllDigits(r.value[|r.value| - 4..])
  {
    match FirstMatch(p, t)
    case None => None
    case Some((i, e)) =>
      FirstMatchIsLeftmost(p, t);
      assert t[i..e][|t[i..e]| - 4..] == t[e - 4..e];
      Some(t[i..e])
  }

  /** `extractDate`: normalise whitespace, then the first pattern that matches anywhere wins. */
  function ExtractDate(text: string): (r: Option<string>)
    ensures r.Some? ==> |r.value| >= 4 && AllDigits(r.value[|r.value| - 4..])
  {
    DateIn(CollapseSpaces(text))
  }

  /** The pattern cascade of extractDate over already normalised text. */
  function DateIn(t: string): (r: Option<string>)
    ensures r.Some? ==> |r.value| >= 4 && AllDigits(r.value[|r.value| - 4..])
  {
    if MatchText(MonthDayYear, t).Some? then MatchText(MonthDayYear, t)
    else if MatchText(DayMonthYear, t).Some? then MatchText(DayMonthYear, t)
    else if MatchText(MonthYear, t).Some? then MatchText(MonthYear, t)
    else MatchText(BareYear, t)
  }

  /** The order in which extractDate tries the patterns. */
  function Rank(p: Pattern): nat {
    match p
    case MonthDayYear => 0
    case DayMonthYear => 1
    case MonthYear => 2
    case BareYear => 3
  }

  /** Pattern p matches nowhere in t. */
  predicate NoMatch(p: Pattern, t: string) {
    forall i :: 0 <= i <= |t| ==> MatchAt(p, t, i).None?
  }

  /** p matches t[i..e], and at no position before i. */
  predicate LeftmostMatch(p: Pattern, t: string, i: nat, e: nat) {
    i <= e <= |t| && MatchAt(p, t, i) == Some(e) && forall j :: 0 <= j < i ==> MatchAt(p, t, j).None?
  }

  /** d is the text of the leftmost match of p in t. */
  ghost predicate IsLeftmostText(p: Pattern, t: string, d: string) {
    exists i: nat, e: nat :: LeftmostMatch(p, t, i, e) && d == t[i..e]
  }

  lemma MatchTextSpec(p: Pattern, t: string)
    ensures MatchText(p, t).None? <==> NoMatch(p, t)
    ensures MatchText(p, t).Some? ==> IsLeftmostText(p, t, MatchText(p, t).value)
  {
    FirstMatchIsLeftmost(p, t);
    if FirstMatch(p, t).Some? {
      var (i, e) := FirstMatch(p, t).value;
      assert LeftmostMatch(p, t, i, e);
    }
  }

  /** The pattern DateIn takes its answer from: the first that matches, or the last one tried. */
  function ChosenPattern(t: string): (p: Pattern)
    ensures DateIn(t) == MatchText(p, t)
    ensures forall q: Pattern :: Rank(q) < Rank(p) ==> MatchText(q, t).None?
  {
    if MatchText(MonthDayYear, t).Some? then MonthDayYear
    else if MatchText(DayMonthYear, t).Some? then DayMonthYear
    else if MatchText(MonthYear, t).Some? then MonthYear
    else BareYear
  }

  /**
   * extractDate returns the leftmost match of the first pattern, in the order
   * tried, that matches the normalised text anywhere; it finds nothing
   * exactly when no pattern matches anywhere.
   */
  lemma DateInSpec(t: string)
    ensures DateIn(t).None? <==> forall p: Pattern :: NoMatch(p, t)
    ensures DateIn(t).Some? ==>
      exists p: Pattern :: IsLeftmostText(p, t, DateIn(t).value) && forall q: Pattern :: Rank(q) < Rank(p) ==> NoMatch(q, t)
  {
    var p := ChosenPattern(t);
    forall q: Pattern | Rank(q) < Rank(p) || DateIn(t).None? ensures NoMatch(q, t) {
      MatchTextSpec(q, t);
    }
    MatchTextSpec(p, t);
  }

  /** What extractDate returns is a stretch of the normalised text, so its whitespace is single spaces. */
  lemma ExtractDateIsNormalised(text: string)
    ensures ExtractDate(text).Some? ==> NormalSpaces(ExtractDate(text).value)
  {
    var t := CollapseSpaces(text);
    CollapseSpacesNormal(text);
    forall p: Pattern | MatchText(p, t).Some? ensures NormalSpaces(MatchText(p, t).value) {
      FirstMatchIsLeftmost(p, t);
      var (i, e) := FirstMatch(p, t).value;
      NormalSpacesSlice(t, i, e);
    }
  }

  /** The value of a string of decimal digits. */
  function DecimalValue(s: string): (v: nat)
    requires AllDigits(s)
  {
    if s == [] then 0 else 10 * DecimalValue(s[..|s| - 1]) + (s[|s| - 1] as nat - '0' as nat)
  }

  lemma {:induction false} DecimalValueBound(s: string)
    requires AllDigits(s)
    ensures DecimalValue(s) < Pow10(|s|)
  {
    if s != [] {
      DecimalValueBound(s[..|s| - 1]);
    }
  }

  function Pow10(n: nat): (p: nat)
    ensures p >= 1
  {
    if n == 0 then 1 else 10 * Pow10(n - 1)
  }

  predicate FourDigitsAt(t: string, j: nat) {
    j + 4 <= |t| && AllDigits(t[j..j + 4])
  }

  /** The start of the first window of four digits at or after i (`(\d{4})`). */
  function FourDigitsFrom(t: string, i: nat): (r: Option<nat>)
    requires i <= |t|
    ensures r.Some? ==> i <= r.value && r.value + 4 <= |t| && AllDigits(t[r.value..r.value + 4])
    decreases |t| - i
  {
    if i + 4 > |t| then None
    else if AllDigits(t[i..i + 4]) then Some(i)
    else FourDigitsFrom(t, i + 1)
  }

  /** `preg_match('/(\d{4})/u', ...)` followed by the int cast of the capture. */
  function FirstFourDigits(t: string): (r: Option<nat>)
    ensures r.Some? ==> r.value < 10000
  {
    match FourDigitsFrom(t, 0)
    case None => None
    case Some(i) =>
      DecimalValueBound(t[i..i + 4]);
      assert Pow10(4) == 10000;
      Some(DecimalValue(t[i..i + 4]))
  }

  /** The year is taken from the leftmost four-digit window, and there is none exactly when no window exists. */
  lemma {:induction false} FourDigitsFromIsLeftmost(t: string, i: nat)
    requires i <= |t|
    ensures var r := FourDigitsFrom(t, i);
      && (r.Some? ==> forall j :: i <= j < r.value ==> !FourDigitsAt(t, j))
      && (r.None? ==> forall j :: i <= j ==> !FourDigitsAt(t, j))
    decreases |t| - i
  {
    if i + 4 <= |t| && !AllDigits(t[i..i + 4]) {
      FourDigitsFromIsLeftmost(t, i + 1);
    }
  }

  /**
   * `extractYear`: the first four-digit run of the cell text, as an integer.
   * The range check against 1800 and next year returns the same value on both
   * branches, so the current year plays no part.
   */
  function ExtractYear(text: string): (r: Option<int>)
    ensures r.Some? ==> 0 <= r.value < 10000
  {
    match FirstFourDigits(text)
    case None => None
    case Some(y) => Some(y)
  }
}
