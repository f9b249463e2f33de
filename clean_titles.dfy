/**
 * The `CleansTitles` concern: `makeCleanTitle` turns a page title such as
 * "Doom (1993 video game)" into the name stored in `clean_title` /
 * `clean_name` ("Doom").
 *
 * The steps modelled are: removal of citation markers `[12]` / `[a]`, trim,
 * the loop that strips trailing parenthetical groups, whitespace collapsing,
 * a final trim and the cut to 255 characters. Tag stripping, the CSS-noise
 * regexes and HTML entity decoding are not modelled (the input is taken to
 * be free of tags, CSS fragments and entities).
 */
module CleansTitles {
  import opened Wrappers
  import opened PhpStrings
  import opened CitationMarkers

  // ---------------------------------------------------------------------------
  // Step 6: the loop around `preg_replace('/\s*\([^()]*\)\s*$/u', '', $clean)`

  predicate NoParens(s: string) {
    forall i :: 0 <= i < |s| ==> s[i] != '(' && s[i] != ')'
  }

  /**
   * From p to the end, s matches `\s*\([^()]*\)\s*`, with the '(' at o and
   * the ')' at c.
   */
  predicate GroupAt(s: string, p: nat, o: nat, c: nat) {
    p <= o < c < |s| && AllSpace(s[p..o]) && s[o] == '(' && s[c] == ')'
    && NoParens(s[o + 1..c]) && AllSpace(s[c + 1..])
  }

  /** The suffix of s from p is a parenthetical group, as the regex anchored at `$` sees it. */
  ghost predicate GroupFrom(s: string, p: nat) {
    exists o: nat, c: nat :: GroupAt(s, p, o, c)
  }

  /** Where the run of `\s` characters that ends at j starts. */
  function SpaceRunStart(s: string, j: nat): (k: nat)
    requires j <= |s|
    ensures k <= j
  {
    if j > 0 && IsSpace(s[j - 1]) then SpaceRunStart(s, j - 1) else j
  }

  /** SpaceRunStart finds a maximal run. */
  lemma {:induction false} SpaceRunStartSpec(s: string, j: nat)
    requires j <= |s|
    ensures var k := SpaceRunStart(s, j); AllSpace(s[k..j]) && (k == 0 || !IsSpace(s[k - 1]))
  {
    if j > 0 && IsSpace(s[j - 1]) {
      SpaceRunStartSpec(s, j - 1);
      var k := SpaceRunStart(s, j);
      assert s[k..j] == s[k..j - 1] + [s[j - 1]];
    }
  }

  /** Scanning back from i over characters other than parentheses, the '(' reached first. */
  function OpenParenBefore(s: string, i: nat): (r: Option<nat>)
    requires i <= |s|
    ensures r.Some? ==> r.value < i
  {
    if i == 0 then None
    else if s[i - 1] == '(' then Some(i - 1)
    else if s[i - 1] == ')' then None
    else OpenParenBefore(s, i - 1)
  }

  /** What OpenParenBefore finds is a '(' with no parenthesis between it and i. */
  lemma {:induction false} OpenParenBeforeSpec(s: string, i: nat)
    requires i <= |s|
    ensures var r := OpenParenBefore(s, i); r.Some? ==> s[r.value] == '(' && NoParens(s[r.value + 1..i])
  {
    if i > 0 && s[i - 1] != '(' && s[i - 1] != ')' {
      OpenParenBeforeSpec(s, i - 1);
      var r := OpenParenBefore(s, i);
      if r.Some? {
        assert s[r.value + 1..i] == s[r.value + 1..i - 1] + [s[i - 1]];
      }
    }
  }

  /**
   * The start of the leftmost match of `\s*\([^()]*\)\s*$` in s: the ')' is
   * the last character that is not `\s`, the '(' the nearest one before it,
   * and the match begins where the `\s` run before the '(' begins.
   */
  function GroupStart(s: string): (r: Option<nat>)
    ensures r.Some? ==> r.value + 2 <= |s|
  {
    var j := SpaceRunStart(s, |s|);
    if j == 0 || s[j - 1] != ')' then None
    else
      match OpenParenBefore(s, j - 1)
      case None => None
      case Some(k) => Some(SpaceRunStart(s, k))
  }

  /** What GroupStart finds is a match. */
  lemma GroupStartSound(s: string)
    ensures GroupStart(s).Some? ==> GroupFrom(s, GroupStart(s).value)
  {
    var j := SpaceRunStart(s, |s|);
    if GroupStart(s).Some? {
      var k := OpenParenBefore(s, j - 1).value;
      SpaceRunStartSpec(s, |s|);
      SpaceRunStartSpec(s, k);
      OpenParenBeforeSpec(s, j - 1);
      var p := GroupStart(s).value;
      assert s[j..] == s[j..|s|];
      assert p <= k < j - 1 < |s| && AllSpace(s[p..k]) && s[k] == '(' && s[j - 1] == ')';
      assert NoParens(s[k + 1..j - 1]) && AllSpace(s[j - 1 + 1..]);
      assert GroupAt(s, p, k, j - 1);
    }
  }

  lemma {:induction false} SpaceRunStartExact(s: string, k: nat, j: nat)
    requires k <= j <= |s| && AllSpace(s[k..j]) && (k == 0 || !IsSpace(s[k - 1]))
    ensures SpaceRunStart(s, j) == k
    decreases j
  {
    if j > k {
      assert IsSpace(s[k..j][j - 1 - k]);
      assert s[k..j - 1] == s[k..j][..j - 1 - k];
      SpaceRunStartExact(s, k, j - 1);
    }
  }

  lemma {:induction false} SpaceRunStartAtMost(s: string, k: nat, j: nat)
    requires k <= j <= |s| && AllSpace(s[k..j])
    ensures SpaceRunStart(s, j) <= k
    decreases j
  {
    if j > k {
      assert IsSpace(s[k..j][j - 1 - k]);
      assert s[k..j - 1] == s[k..j][..j - 1 - k];
      SpaceRunStartAtMost(s, k, j - 1);
    }
  }

  lemma {:induction false} OpenParenExact(s: string, k: nat, i: nat)
    requires k < i <= |s| && s[k] == '(' && NoParens(s[k + 1..i])
    ensures OpenParenBefore(s, i) == Some(k)
    decreases i
  {
    if i - 1 > k {
      assert s[i - 1] == s[k + 1..i][i - 2 - k];
      assert s[k + 1..i - 1] == s[k + 1..i][..i - 2 - k];
      OpenParenExact(s, k, i - 1);
    }
  }

  /** GroupStart finds the leftmost match whenever there is one. */
  lemma GroupStartComplete(s: string, p: nat)
    ensures GroupFrom(s, p) ==> GroupStart(s).Some? && GroupStart(s).value <= p
  {
    if GroupFrom(s, p) {
      var o: nat, c: nat :| GroupAt(s, p, o, c);
      GroupStartMatch(s, p, o, c);
    }
  }

  lemma GroupStartMatch(s: string, p: nat, o: nat, c: nat)
    requires GroupAt(s, p, o, c)
    ensures GroupStart(s).Some? && GroupStart(s).value <= p
  {
    SpaceRunStartExact(s, c + 1, |s|);
    OpenParenExact(s, o, c);
    SpaceRunStartAtMost(s, p, o);
  }

  /** The outcome of the loop, as a function of the string it starts from. */
  function StripGroups(s: string): (r: string)
    ensures |r| <= |s|
    decreases |s|
  {
    if s != [] && GroupStart(s).Some? then StripGroups(Trim(s[..GroupStart(s).value])) else s
  }

  /** After the loop the string does not end in a parenthetical group without inner parentheses. */
  lemma {:induction false} StripGroupsLeavesNoGroup(s: string)
    ensures forall p: nat :: !GroupFrom(StripGroups(s), p)
    decreases |s|
  {
    if s != [] && GroupStart(s).Some? {
      StripGroupsLeavesNoGroup(Trim(s[..GroupStart(s).value]));
    } else {
      forall p: nat ensures !GroupFrom(s, p) {
        GroupStartComplete(s, p);
      }
    }
  }

  /** A string whose last two characters are "))" (a nested tail) is left alone. */
  lemma StripGroupsNestedTail(s: string)
    requires |s| >= 2 && s[|s| - 1] == ')' && s[|s| - 2] == ')'
    ensures StripGroups(s) == s
  {
    assert !IsSpace(s[|s| - 1]);
    assert SpaceRunStart(s, |s|) == |s|;
    assert OpenParenBefore(s, |s| - 1) == None;
    assert GroupStart(s) == None;
  }

  /** A string with no ')' has no trailing group. */
  lemma StripGroupsNoCloser(s: string)
    requires ')' !in s
    ensures StripGroups(s) == s
  {
    var j := SpaceRunStart(s, |s|);
    if j > 0 { assert s[j - 1] in s; }
  }

  /**
   * "Base (disambiguator)": one group (and the `\s` before it) comes off,
   * then the loop goes on with the trimmed base. Applied twice this is
   * "X (a) (b)" losing both groups.
   */
  lemma StripGroupsTrailingGroup(base: string, w: string, x: string)
    requires base == [] || !IsSpace(base[|base| - 1])
    requires AllSpace(w) && NoParens(x)
    ensures StripGroups(base + w + "(" + x + ")") == StripGroups(Trim(base))
  {
    var s := base + w + "(" + x + ")";
    TrailingGroupStart(base, w, x);
    assert s[..|base|] == base;
  }

  /** Where the match of "base w(x)" begins: right after base. */
  lemma TrailingGroupStart(base: string, w: string, x: string)
    requires base == [] || !IsSpace(base[|base| - 1])
    requires AllSpace(w) && NoParens(x)
    ensures GroupStart(base + w + "(" + x + ")") == Some(|base|)
  {
    var s := base + w + "(" + x + ")";
    var k := |base| + |w|;
    assert s[k] == '(' && s[|s| - 1] == ')';
    assert s[k + 1..|s| - 1] == x;
    assert s[|base|..k] == w;
    assert base != [] ==> s[|base| - 1] == base[|base| - 1];
    SpaceRunStartExact(s, |s|, |s|);
    OpenParenExact(s, k, |s| - 1);
    SpaceRunStartExact(s, |base|, k);
    GroupStartAt(s, k, |base|);
  }

  lemma GroupStartAt(s: string, k: nat, p: nat)
    requires s != [] && s[|s| - 1] == ')' && SpaceRunStart(s, |s|) == |s|
    requires OpenParenBefore(s, |s| - 1) == Some(k) && SpaceRunStart(s, k) == p
    ensures GroupStart(s) == Some(p)
  {
  }

  // ---------------------------------------------------------------------------
  // The whole pipeline

  const MaxLength: nat := 255

  /** The last steps: collapse `\s` runs, trim, and keep at most 255 characters. */
  function CollapseAndCut(stripped: string): string {
    Cut(Trim(CollapseSpaces(stripped)))
  }

  /** At most the first 255 characters. */
  function Cut(s: string): string {
    if |s| > MaxLength then s[..MaxLength] else s
  }

  /** What `makeCleanTitle` returns, step by step. */
  function CleanTitle(title: string): string {
    CollapseAndCut(StripGroups(Trim(RemoveMarkers(title, true))))
  }

  /** `makeCleanTitle`: the sequence of reassignments of `$clean`, with its `while` loop. */
  method MakeCleanTitle(title: string) returns (clean: string)
    ensures clean == CleanTitle(title)
  {
    clean := RemoveMarkers(title, true);
    clean := Trim(clean);
    ghost var start := clean;
    while clean != [] && GroupStart(clean).Some?
      invariant StripGroups(clean) == StripGroups(start)
      decreases |clean|
    {
      clean := Trim(clean[..GroupStart(clean).value]);
    }
    clean := CollapseSpaces(clean);
    clean := Trim(clean);
    if |clean| > MaxLength {
      clean := clean[..MaxLength];
    }
  }

  /**
   * The shape of every clean title: at most 255 characters, every `\s` run a
   * single space, no leading `\s`, and no trailing `\s` unless the cut to 255
   * characters fell right after a space.
   */
  lemma CleanTitleShape(title: string)
    ensures |CleanTitle(title)| <= MaxLength
    ensures NormalSpaces(CleanTitle(title))
    ensures CleanTitle(title) != [] ==> !IsSpace(CleanTitle(title)[0])
    ensures var c := Trim(CollapseSpaces(StripGroups(Trim(RemoveMarkers(title, true)))));
      |c| <= MaxLength && CleanTitle(title) != [] ==> !IsSpace(CleanTitle(title)[|CleanTitle(title)| - 1])
  {
    CollapseAndCutShape(StripGroups(Trim(RemoveMarkers(title, true))));
  }

  /** The shape after the last steps, whatever string they start from. */
  lemma CollapseAndCutShape(u: string)
    ensures |CollapseAndCut(u)| <= MaxLength
    ensures NormalSpaces(CollapseAndCut(u))
    ensures CollapseAndCut(u) != [] ==> !IsSpace(CollapseAndCut(u)[0])
    ensures |Trim(CollapseSpaces(u))| <= MaxLength && CollapseAndCut(u) != [] ==>
      !IsSpace(CollapseAndCut(u)[|CollapseAndCut(u)| - 1])
  {
    CollapseSpacesNormal(u);
    TrimCutShape(CollapseSpaces(u));
  }

  /** Trimming and cutting a string with normal whitespace. */
  lemma TrimCutShape(x: string)
    requires NormalSpaces(x)
    ensures |Cut(Trim(x))| <= MaxLength && NormalSpaces(Cut(Trim(x)))
    ensures Cut(Trim(x)) != [] ==> !IsSpace(Cut(Trim(x))[0])
    ensures |Trim(x)| <= MaxLength && Cut(Trim(x)) != [] ==> !IsSpace(Cut(Trim(x))[|Cut(Trim(x))| - 1])
  {
    TrimKeepsNormal(x);
    CutShape(Trim(x));
  }

  /** Keeping at most 255 characters of a string with normal whitespace and no trim character at its ends. */
  lemma CutShape(c: string)
    requires NormalSpaces(c) && (c == [] || (!IsTrimChar(c[0]) && !IsTrimChar(c[|c| - 1])))
    ensures |Cut(c)| <= MaxLength && NormalSpaces(Cut(c))
    ensures Cut(c) != [] ==> !IsSpace(Cut(c)[0])
    ensures |c| <= MaxLength && Cut(c) != [] ==> !IsSpace(Cut(c)[|Cut(c)| - 1])
  {
    NormalEnds(c);
    if |c| > MaxLength {
      NormalSpacesSlice(c, 0, MaxLength);
      assert c[0..MaxLength] == c[..MaxLength];
    }
  }

  /** A tidy string passes the last steps unchanged. */
  lemma CollapseAndCutTidy(name: string)
    requires NormalSpaces(name) && |name| <= MaxLength
    requires name == [] || (!IsTrimChar(name[0]) && !IsTrimChar(name[|name| - 1]))
    ensures CollapseAndCut(name) == name
  {
    CollapseSpacesIdentity(name);
    TrimUntouched(name);
  }

  /** Trim takes a slice, and slices keep normal whitespace. */
  lemma TrimKeepsNormal(s: string)
    requires NormalSpaces(s)
    ensures NormalSpaces(Trim(s))
  {
    TrimLeftKeepsNormal(s);
    TrimRightKeepsNormal(TrimLeft(s));
  }

  lemma {:induction false} TrimLeftKeepsNormal(s: string)
    requires NormalSpaces(s)
    ensures NormalSpaces(TrimLeft(s))
  {
    if s != [] && IsTrimChar(s[0]) {
      NormalSpacesSlice(s, 1, |s|);
      TrimLeftKeepsNormal(s[1..]);
    }
  }

  lemma {:induction false} TrimRightKeepsNormal(s: string)
    requires NormalSpaces(s)
    ensures NormalSpaces(TrimRight(s))
  {
    if s != [] && IsTrimChar(s[|s| - 1]) {
      NormalSpacesSlice(s, 0, |s| - 1);
      assert s[0..|s| - 1] == s[..|s| - 1];
      TrimRightKeepsNormal(s[..|s| - 1]);
    }
  }

  /** In a string with normal whitespace a `\s` character is a space, so trimmed ends are not `\s`. */
  lemma NormalEnds(c: string)
    requires NormalSpaces(c) && (c == [] || (!IsTrimChar(c[0]) && !IsTrimChar(c[|c| - 1])))
    ensures c != [] ==> !IsSpace(c[0]) && !IsSpace(c[|c| - 1])
  {
  }

  /** Collapsing leaves normal whitespace as it is. */
  lemma {:induction false} CollapseSpacesIdentity(s: string)
    requires NormalSpaces(s)
    ensures CollapseSpaces(s) == s
  {
    if s != [] {
      var rest := s[1..];
      NormalSpacesSlice(s, 1, |s|);
      CollapseSpacesIdentity(rest);
      if IsSpace(s[0]) {
        assert rest != [] ==> rest[0] == s[1];
        assert rest == [] || !IsSpace(rest[0]);
        assert DropSpaces(rest) == rest;
        assert CollapseSpaces(s) == [' '] + CollapseSpaces(rest);
      } else {
        assert CollapseSpaces(s) == [s[0]] + CollapseSpaces(rest);
      }
      assert s == [s[0]] + rest;
    }
  }

  /** A tidy base name is its own clean title. */
  lemma CleanTitleOfTidyName(name: string)
    requires '[' !in name && ')' !in name && NormalSpaces(name) && |name| <= MaxLength
    requires name == [] || (!IsTrimChar(name[0]) && !IsTrimChar(name[|name| - 1]))
    ensures CleanTitle(name) == name
  {
    RemoveMarkersNoBracket(name, true);
    TrimUntouched(name);
    StripGroupsNoCloser(name);
    CollapseAndCutTidy(name);
  }

  /**
   * "Valve (company)" becomes "Valve": a tidy name followed by a space-separated
   * disambiguator is cleaned to the name alone.
   */
  lemma CleanTitleDropsDisambiguator(name: string, x: string)
    requires name != [] && '[' !in name && ')' !in name && NormalSpaces(name) && |name| <= MaxLength
    requires !IsTrimChar(name[0]) && !IsTrimChar(name[|name| - 1]) && !IsSpace(name[|name| - 1])
    requires NoParens(x) && '[' !in x
    ensures CleanTitle(name + " (" + x + ")") == name
  {
    StripDisambiguator(name, x);
    CleanTitleVia(name + " (" + x + ")", name);
  }

  /** The stripping stages take "name (x)" to name. */
  lemma StripDisambiguator(name: string, x: string)
    requires name != [] && '[' !in name && ')' !in name
    requires !IsTrimChar(name[0]) && !IsTrimChar(name[|name| - 1]) && !IsSpace(name[|name| - 1])
    requires NoParens(x) && '[' !in x
    ensures StripGroups(Trim(RemoveMarkers(name + " (" + x + ")", true))) == name
  {
    var s := name + " (" + x + ")";
    DisambiguatedShape(name, x);
    RemoveMarkersNoBracket(s, true);
    TrimUntouched(s);
    StripGroupsTrailingGroup(name, " ", x);
    TrimUntouched(name);
    StripGroupsNoCloser(name);
  }

  /** "name (x)" regrouped, with no '[' and with name's first character and ')' at its ends. */
  lemma DisambiguatedShape(name: string, x: string)
    requires name != [] && '[' !in name && '[' !in x
    ensures var s := name + " (" + x + ")";
      s == name + " " + "(" + x + ")" && '[' !in s && s[0] == name[0] && s[|s| - 1] == ')'
  {
    var s := name + " (" + x + ")";
    assert " (" == " " + "(";
    AppendAssoc(name, " ", "(");
    assert s[0] == name[0];
    forall i | 0 <= i < |s| ensures s[i] != '[' {
      if i >= |name| + 2 && i < |s| - 1 {
        assert s[i] == x[i - |name| - 2];
      }
    }
  }

  /** When the stripping stages already yield a tidy name, that name is the clean title. */
  lemma CleanTitleVia(title: string, name: string)
    requires StripGroups(Trim(RemoveMarkers(title, true))) == name
    requires NormalSpaces(name) && |name| <= MaxLength
    requires name == [] || (!IsTrimChar(name[0]) && !IsTrimChar(name[|name| - 1]))
    ensures CleanTitle(title) == name
  {
    CollapseAndCutTidy(name);
  }

  /** A string with no trim character at either end is its own trim. */
  lemma TrimUntouched(t: string)
    requires t == [] || (!IsTrimChar(t[0]) && !IsTrimChar(t[|t| - 1]))
    ensures Trim(t) == t
  {
    assert TrimLeft(t) == t;
  }

  /** "Nintendo   " becomes "Nintendo": trailing blanks go. */
  lemma CleanTitleDropsTrailingBlanks(name: string, blanks: string)
    requires '[' !in name && ')' !in name && NormalSpaces(name) && |name| <= MaxLength
    requires name == [] || (!IsTrimChar(name[0]) && !IsTrimChar(name[|name| - 1]))
    requires forall i :: 0 <= i < |blanks| ==> blanks[i] == ' '
    ensures CleanTitle(name + blanks) == name
  {
    var s := name + blanks;
    RemoveMarkersNoBracket(s, true);
    assert TrimRight(s) == name by { TrimRightBlanks(name, blanks); }
    assert Trim(s) == name by {
      if name == [] {
        assert TrimLeft(s) == [] by { TrimLeftBlanks(s); }
      } else {
        assert TrimLeft(s) == s;
      }
    }
    StripGroupsNoCloser(name);
    CollapseAndCutTidy(name);
  }

  lemma {:induction false} TrimRightBlanks(name: string, blanks: string)
    requires name == [] || !IsTrimChar(name[|name| - 1])
    requires forall i :: 0 <= i < |blanks| ==> blanks[i] == ' '
    ensures TrimRight(name + blanks) == name
    decreases |blanks|
  {
    if blanks == [] {
      assert name + blanks == name;
    } else {
      var s := name + blanks;
      assert s[..|s| - 1] == name + blanks[..|blanks| - 1];
      TrimRightBlanks(name, blanks[..|blanks| - 1]);
    }
  }

  lemma {:induction false} TrimLeftBlanks(s: string)
    requires forall i :: 0 <= i < |s| ==> s[i] == ' '
    ensures TrimLeft(s) == []
  {
    if s != [] { TrimLeftBlanks(s[1..]); }
  }
}
