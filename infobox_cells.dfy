/**
 * The per-cell extractors of `InfoboxParser`: link texts, anchor targets, the
 * list fallback chain, the website rule and `extractDataFromCell`. A cell is
 * an abstract `td`: its text, its anchors, its `li` texts and the `src` of
 * each `a.image img` inside it, all in document order.
 */
module InfoboxCells {
  import opened Wrappers
  import opened PhpStrings
  import opened CitationMarkers
  import opened UrlDecoding
  import InfoboxDates

  /** An `a` element: its `title` and `href` attributes (None when absent) and its text. */
  datatype Anchor = Anchor(title: Option<string>, href: Option<string>, text: string)

  datatype Cell = Cell(text: string, anchors: seq<Anchor>, items: seq<string>, images: seq<Option<string>>)

  /** A value of the array `parse` returns. */
  datatype Value = Null | Str(s: string) | Int(i: int) | List(items: seq<string>)

  /** `cleanText`: `\[\d+\]` markers removed, then trimmed. */
  function CleanText(s: string): (r: string)
    ensures r == [] || (!IsTrimChar(r[0]) && !IsTrimChar(r[|r| - 1]))
  {
    Trim(RemoveMarkers(s, false))
  }

  /** Text without '[' only loses its surrounding trim characters. */
  lemma CleanTextWithoutBrackets(s: string)
    requires '[' !in s
    ensures CleanText(s) == Trim(s)
  {
    RemoveMarkersNoBracket(s, false);
  }

  /** A numeric marker anywhere in the text is dropped. */
  lemma CleanTextDropsMarker(a: string, m: string, b: string)
    requires IsMarker(m, false)
    ensures CleanText(a + m + b) == Trim(RemoveMarkers(a, false) + RemoveMarkers(b, false))
  {
    RemoveMarkersSplice(a, m, b, false);
  }

  predicate NoDups(xs: seq<string>) {
    forall i, j :: 0 <= i < j < |xs| ==> xs[i] != xs[j]
  }

  /** `array_values(array_unique(...))`: the first occurrence of each string, in order. */
  function Dedup(xs: seq<string>): (r: seq<string>)
  {
    if xs == [] then []
    else
      var d := Dedup(xs[..|xs| - 1]);
      if xs[|xs| - 1] in d then d else d + [xs[|xs| - 1]]
  }

  /**
   * Dedup keeps every string exactly once, at its first occurrence: the
   * deduplicated form of each prefix of xs is a prefix of Dedup(xs), so the
   * kept strings stay in the order in which they first appear.
   */
  lemma {:induction false} DedupSpec(xs: seq<string>)
    ensures NoDups(Dedup(xs))
    ensures forall x :: x in Dedup(xs) <==> x in xs
    ensures forall k :: 0 <= k <= |xs| ==> Dedup(xs[..k]) <= Dedup(xs)
  {
    if xs != [] {
      var init := xs[..|xs| - 1];
      DedupSpec(init);
      assert xs == init + [xs[|xs| - 1]];
    }
    forall k | 0 <= k <= |xs| ensures Dedup(xs[..k]) <= Dedup(xs) {
      DedupPrefix(xs, k);
    }
  }

  /** The deduplicated form of a prefix is a prefix of the deduplicated whole. */
  lemma {:induction false} DedupPrefix(xs: seq<string>, k: nat)
    requires k <= |xs|
    ensures Dedup(xs[..k]) <= Dedup(xs)
    decreases |xs| - k
  {
    if k < |xs| {
      DedupPrefix(xs, k + 1);
      assert xs[..k + 1][..k] == xs[..k];
    } else {
      assert xs[..k] == xs;
    }
  }

  /** A list without duplicates comes back unchanged. */
  lemma {:induction false} DedupOfDistinct(xs: seq<string>)
    requires NoDups(xs)
    ensures Dedup(xs) == xs
  {
    if xs != [] {
      var init := xs[..|xs| - 1];
      assert NoDups(init) by {
        forall i, j | 0 <= i < j < |init| ensures init[i] != init[j] {
          assert init[i] == xs[i] && init[j] == xs[j];
        }
      }
      DedupOfDistinct(init);
      assert xs[|xs| - 1] !in init by {
        forall i | 0 <= i < |init| ensures init[i] != xs[|xs| - 1] {
          assert init[i] == xs[i];
        }
      }
    }
  }

  /**
   * The accumulator loops of the extractors: f of each element that passes
   * keep, in order.
   */
  function Collect<T>(xs: seq<T>, keep: T -> bool, f: T -> string): (r: seq<string>)
    ensures |r| <= |xs|
  {
    if xs == [] then []
    else
      var p := Collect(xs[..|xs| - 1], keep, f);
      if keep(xs[|xs| - 1]) then p + [f(xs[|xs| - 1])] else p
  }

  /** One more element extends what Collect holds by f of it, when it is kept. */
  lemma CollectStep<T>(xs: seq<T>, i: nat, keep: T -> bool, f: T -> string)
    requires i < |xs|
    ensures Collect(xs[..i + 1], keep, f) == Collect(xs[..i], keep, f) + (if keep(xs[i]) then [f(xs[i])] else [])
  {
    assert xs[..i + 1][..i] == xs[..i];
  }

  /** The step of a collecting loop: `text` is f of the next element, kept when non-empty. */
  lemma CollectExtend<T>(xs: seq<T>, i: nat, keep: T -> bool, f: T -> string, items: seq<string>, text: string)
    requires i < |xs| && items == Collect(xs[..i], keep, f)
    requires keep(xs[i]) == (text != "") && f(xs[i]) == text
    ensures Collect(xs[..i + 1], keep, f) == if text != "" then items + [text] else items
  {
    CollectStep(xs, i, keep, f);
  }

  /** Collect holds f of exactly the kept elements. */
  lemma {:induction false} CollectSpec<T>(xs: seq<T>, keep: T -> bool, f: T -> string)
    ensures forall x :: x in Collect(xs, keep, f) ==> exists i :: 0 <= i < |xs| && keep(xs[i]) && x == f(xs[i])
    ensures forall i :: 0 <= i < |xs| && keep(xs[i]) ==> f(xs[i]) in Collect(xs, keep, f)
  {
    if xs != [] {
      var init := xs[..|xs| - 1];
      CollectSpec(init, keep, f);
      forall x | x in Collect(xs, keep, f) ensures exists i :: 0 <= i < |xs| && keep(xs[i]) && x == f(xs[i]) {
        if x in Collect(init, keep, f) {
          var i :| 0 <= i < |init| && keep(init[i]) && x == f(init[i]);
          assert xs[i] == init[i];
        }
      }
      forall i | 0 <= i < |xs| && keep(xs[i]) ensures f(xs[i]) in Collect(xs, keep, f) {
        if i < |init| {
          assert xs[i] == init[i];
        }
      }
    }
  }

  /** Nothing kept, nothing collected. */
  lemma {:induction false} CollectNothingKept<T>(xs: seq<T>, keep: T -> bool, f: T -> string)
    requires forall i :: 0 <= i < |xs| ==> !keep(xs[i])
    ensures Collect(xs, keep, f) == []
  {
    if xs != [] {
      var init := xs[..|xs| - 1];
      assert forall i :: 0 <= i < |init| ==> init[i] == xs[i];
      CollectNothingKept(init, keep, f);
    }
  }

  /** When f of every kept element is non-empty, so is every collected string. */
  lemma CollectNonEmpty<T>(xs: seq<T>, keep: T -> bool, f: T -> string)
    requires forall x :: keep(x) ==> f(x) != ""
    ensures "" !in Collect(xs, keep, f)
  {
    CollectSpec(xs, keep, f);
  }

  predicate HasCleanText(s: string) { CleanText(s) != "" }
  predicate AnchorHasCleanText(a: Anchor) { CleanText(a.text) != "" }
  function AnchorCleanText(a: Anchor): string { CleanText(a.text) }

  /** The non-empty cleaned strings, in order (the `$text !== ''` filter of the extractors). */
  function NonEmptyCleaned(texts: seq<string>): seq<string> {
    Collect(texts, HasCleanText, CleanText)
  }

  /** The non-empty cleaned texts of the anchors, in order. */
  function LinkTexts(anchors: seq<Anchor>): seq<string> {
    Collect(anchors, AnchorHasCleanText, AnchorCleanText)
  }

  /** The loop of extractLinks (and the second stage of extractList). */
  method CollectLinkTexts(anchors: seq<Anchor>) returns (items: seq<string>)
    ensures items == LinkTexts(anchors)
  {
    items := [];
    for i := 0 to |anchors|
      invariant items == LinkTexts(anchors[..i])
    {
      var text := CleanText(anchors[i].text);
      CollectExtend(anchors, i, AnchorHasCleanText, AnchorCleanText, items, text);
      if text != "" {
        items := items + [text];
      }
    }
    assert anchors[..|anchors|] == anchors;
  }

  /** `extractLinks`, as the value it computes. */
  function Links(cell: Cell): seq<string> {
    Dedup(LinkTexts(cell.anchors))
  }

  /** `extractLinks`: the cleaned, non-empty anchor texts, first occurrences only. */
  method ExtractLinks(cell: Cell) returns (links: seq<string>)
    ensures links == Links(cell)
  {
    var items := CollectLinkTexts(cell.anchors);
    links := Dedup(items);
  }

  /** The link list has no duplicates, no empty strings, holds exactly the cleaned anchor texts, and keeps their first-occurrence order. */
  lemma LinksSpec(cell: Cell)
    ensures NoDups(Links(cell)) && "" !in Links(cell)
    ensures forall k :: 0 <= k <= |LinkTexts(cell.anchors)| ==> Dedup(LinkTexts(cell.anchors)[..k]) <= Links(cell)
    ensures forall x :: x in Links(cell) ==> exists i :: 0 <= i < |cell.anchors| && x == CleanText(cell.anchors[i].text)
    ensures forall i :: 0 <= i < |cell.anchors| && CleanText(cell.anchors[i].text) != "" ==> CleanText(cell.anchors[i].text) in Links(cell)
  {
    DedupSpec(LinkTexts(cell.anchors));
    CollectSpec(cell.anchors, AnchorHasCleanText, AnchorCleanText);
  }

  predicate IsFragmentOrQuery(c: char) { c == '#' || c == '?' }

  /**
   * Where the capture of `~/(?:wiki|w)/([^#?]+)~i` starts when the match
   * starts at i: "wiki/" is tried first, then "w/"; either must be followed
   * by at least one character that is not '#' or '?'.
   */
  function SegmentStartAt(h: string, i: nat): (k: Option<nat>)
    requires i <= |h|
    ensures k.Some? ==> i < k.value < |h| && !IsFragmentOrQuery(h[k.value])
  {
    if i < |h| && h[i] == '/' then
      if i + 6 < |h| && EqualsIgnoreCase(h[i + 1..i + 6], "wiki/") && !IsFragmentOrQuery(h[i + 6]) then Some(i + 6)
      else if i + 3 < |h| && EqualsIgnoreCase(h[i + 1..i + 3], "w/") && !IsFragmentOrQuery(h[i + 3]) then Some(i + 3)
      else None
    else None
  }

  /** `[^#?]+` from k, greedily: the first '#' or '?' at or after k, or the end. */
  function SegmentEnd(h: string, k: nat): (e: nat)
    requires k <= |h|
    ensures k <= e <= |h|
    ensures forall j :: k <= j < e ==> !IsFragmentOrQuery(h[j])
    ensures e == |h| || IsFragmentOrQuery(h[e])
    decreases |h| - k
  {
    if k == |h| || IsFragmentOrQuery(h[k]) then k else SegmentEnd(h, k + 1)
  }

  /** The capture of the leftmost match of the wiki-path regex at or after i. */
  function WikiSegmentFrom(h: string, i: nat): (r: Option<string>)
    requires i <= |h|
    ensures r.Some? ==> r.value != [] && forall j :: 0 <= j < |r.value| ==> !IsFragmentOrQuery(r.value[j])
    decreases |h| - i
  {
    if i == |h| then None
    else match SegmentStartAt(h, i)
      case Some(k) =>
        var e := SegmentEnd(h, k);
        Some(h[k..e])
      case None => WikiSegmentFrom(h, i + 1)
  }

  function WikiSegment(h: string): Option<string> {
    WikiSegmentFrom(h, 0)
  }

  /** `str_replace('_', ' ', ...)`. */
  function UnderscoresToSpaces(s: string): (r: string)
    ensures |r| == |s| && '_' !in r
    ensures forall i :: 0 <= i < |s| ==> r[i] == (if s[i] == '_' then ' ' else s[i])
  {
    if s == [] then [] else [if s[0] == '_' then ' ' else s[0]] + UnderscoresToSpaces(s[1..])
  }

  /**
   * The candidate title of an anchor: a non-empty `title` attribute, else the
   * page segment of a non-empty href (underscores to spaces, then decoded),
   * else the cleaned anchor text.
   */
  function AnchorCandidate(a: Anchor): string {
    if a.title.Some? && a.title.value != "" then a.title.value
    else if a.href.Some? && a.href.value != "" && WikiSegment(a.href.value).Some? then
      UrlDecode(UnderscoresToSpaces(WikiSegment(a.href.value).value))
    else CleanText(a.text)
  }

  predicate HasCandidate(a: Anchor) { AnchorCandidate(a) != "" }
  function TrimmedCandidate(a: Anchor): string { Trim(AnchorCandidate(a)) }

  /**
   * The trimmed candidates, skipping empty ones. The emptiness test comes
   * before the trim, so a title of blanks contributes "".
   */
  function Targets(anchors: seq<Anchor>): seq<string> {
    Collect(anchors, HasCandidate, TrimmedCandidate)
  }

  function AnchorTargets(cell: Cell): seq<string> {
    Dedup(Targets(cell.anchors))
  }

  /** The candidate choice in the loop of extractAnchorTargets. */
  method ChooseCandidate(a: Anchor) returns (candidate: string)
    ensures candidate == AnchorCandidate(a)
  {
    var chosen: Option<string> := None;
    if a.title.Some? && a.title.value != "" {
      chosen := a.title;
    } else if a.href.Some? && a.href.value != "" {
      var segment := WikiSegment(a.href.value);
      if segment.Some? {
        chosen := Some(UrlDecode(UnderscoresToSpaces(segment.value)));
      }
    }
    if chosen.None? {
      chosen := Some(CleanText(a.text));
    }
    candidate := chosen.value;
  }

  /** `extractAnchorTargets`. */
  method ExtractAnchorTargets(cell: Cell) returns (targets: seq<string>)
    ensures targets == AnchorTargets(cell)
  {
    var items: seq<string> := [];
    for i := 0 to |cell.anchors|
      invariant items == Targets(cell.anchors[..i])
    {
      assert cell.anchors[..i + 1][..i] == cell.anchors[..i];
      var candidate := ChooseCandidate(cell.anchors[i]);
      if candidate != "" {
        items := items + [Trim(candidate)];
      }
    }
    assert cell.anchors[..|cell.anchors|] == cell.anchors;
    targets := Dedup(items);
  }

  /**
   * The targets have no duplicates, each comes from an anchor, every anchor
   * with a candidate contributes, and first-occurrence order is kept.
   */
  lemma AnchorTargetsSpec(cell: Cell)
    ensures NoDups(AnchorTargets(cell))
    ensures forall k :: 0 <= k <= |Targets(cell.anchors)| ==> Dedup(Targets(cell.anchors)[..k]) <= AnchorTargets(cell)
    ensures forall x :: x in AnchorTargets(cell) ==> exists i :: 0 <= i < |cell.anchors| && x == Trim(AnchorCandidate(cell.anchors[i]))
    ensures forall i :: 0 <= i < |cell.anchors| && AnchorCandidate(cell.anchors[i]) != "" ==> Trim(AnchorCandidate(cell.anchors[i])) in AnchorTargets(cell)
  {
    DedupSpec(Targets(cell.anchors));
    CollectSpec(cell.anchors, HasCandidate, TrimmedCandidate);
  }

  /** A non-empty title attribute wins over everything else. */
  lemma TitleAttributeWins(a: Anchor)
    requires a.title.Some? && a.title.value != ""
    ensures AnchorCandidate(a) == a.title.value
  {
  }

  /** Without a title, an href of the form "/wiki/" + s with s free of '#' and '?' gives s, underscores to spaces, decoded. */
  lemma WikiHrefGivesSegment(a: Anchor, s: string)
    requires a.title.None? || a.title.value == ""
    requires a.href == Some("/wiki/" + s) && s != []
    requires forall j :: 0 <= j < |s| ==> !IsFragmentOrQuery(s[j])
    ensures AnchorCandidate(a) == UrlDecode(UnderscoresToSpaces(s))
  {
    WikiSegmentOfWikiPath(s);
  }

  /** The segment of "/wiki/" + s is s itself. */
  lemma WikiSegmentOfWikiPath(s: string)
    requires s != [] && forall j :: 0 <= j < |s| ==> !IsFragmentOrQuery(s[j])
    ensures WikiSegment("/wiki/" + s) == Some(s)
  {
    var h := "/wiki/" + s;
    assert h[1..6] == "wiki/";
    assert h[6] == s[0];
    assert SegmentStartAt(h, 0) == Some(6);
    SegmentEndAll(h, 6);
    assert WikiSegmentFrom(h, 0) == Some(h[6..|h|]);
    assert h[6..|h|] == s;
  }

  lemma {:induction false} SegmentEndAll(h: string, k: nat)
    requires k <= |h|
    requires forall j :: k <= j < |h| ==> !IsFragmentOrQuery(h[j])
    ensures SegmentEnd(h, k) == |h|
    decreases |h| - k
  {
    if k < |h| {
      SegmentEndAll(h, k + 1);
    }
  }

  /** Without a title or a wiki path, the cleaned anchor text is the candidate. */
  lemma TextIsLastResort(a: Anchor)
    requires a.title.None? || a.title.value == ""
    requires a.href.None? || WikiSegment(a.href.value).None?
    ensures AnchorCandidate(a) == CleanText(a.text)
  {
  }

  /** Remove trailing `\s` characters. */
  function DropTrailingSpaces(s: string): (r: string)
    ensures |r| <= |s| && r == s[..|r|]
    ensures r == [] || !IsSpace(r[|r| - 1])
  {
    if s != [] && IsSpace(s[|s| - 1]) then DropTrailingSpaces(s[..|s| - 1]) else s
  }

  predicate CommaFree(s: string) {
    forall j :: 0 <= j < |s| ==> s[j] != ','
  }

  /** The index of the first ',' in s, if any. */
  function FirstComma(s: string): (c: Option<nat>)
    ensures c.Some? ==> c.value < |s| && s[c.value] == ',' && CommaFree(s[..c.value])
    ensures c.None? ==> CommaFree(s)
  {
    if s == [] then None
    else if s[0] == ',' then Some(0)
    else match FirstComma(s[1..])
      case None => None
      case Some(k) =>
        assert forall j :: 0 <= j < k + 1 ==> s[..k + 1][j] == s[j];
        assert forall j :: 1 <= j < k + 1 ==> s[j] == s[1..][..k][j - 1];
        Some(k + 1)
  }

  /**
   * `preg_split('/\s*,\s*\/u', s)`: the pieces between commas, each losing the
   * `\s` characters that touch a comma.
   */
  function PregSplit(s: string): (r: seq<string>)
    ensures |r| >= 1
    decreases |s|
  {
    match FirstComma(s)
    case None => [s]
    case Some(c) => [DropTrailingSpaces(s[..c])] + PregSplit(DropSpaces(s[c + 1..]))
  }

  /** Text without a comma is one piece. */
  lemma PregSplitNoComma(s: string)
    requires CommaFree(s)
    ensures PregSplit(s) == [s]
  {
    FirstCommaOfCommaFree(s);
  }

  lemma {:induction false} FirstCommaOfCommaFree(s: string)
    requires CommaFree(s)
    ensures FirstComma(s).None?
  {
    if s != [] {
      assert CommaFree(s[1..]) by {
        assert forall j :: 0 <= j < |s| - 1 ==> s[1..][j] == s[j + 1];
      }
      FirstCommaOfCommaFree(s[1..]);
    }
  }

  lemma CommaFreePrefix(x: string, y: string)
    requires CommaFree(x) && |y| <= |x| && y == x[..|y|]
    ensures CommaFree(y)
  {
    assert forall j :: 0 <= j < |y| ==> y[j] == x[j];
  }

  /** No piece of the split contains a comma. */
  lemma {:induction false} PregSplitPiecesCommaFree(s: string)
    ensures forall k :: 0 <= k < |PregSplit(s)| ==> CommaFree(PregSplit(s)[k])
    decreases |s|
  {
    var fc := FirstComma(s);
    if fc.Some? {
      var c := fc.value;
      var rest := DropSpaces(s[c + 1..]);
      var head := DropTrailingSpaces(s[..c]);
      PregSplitPiecesCommaFree(rest);
      CommaFreePrefix(s[..c], head);
      CommaFreeCons(head, PregSplit(rest));
      assert PregSplit(s) == [head] + PregSplit(rest);
    }
  }

  lemma CommaFreeCons(head: string, tail: seq<string>)
    requires CommaFree(head)
    requires forall k :: 0 <= k < |tail| ==> CommaFree(tail[k])
    ensures forall k :: 0 <= k < |[head] + tail| ==> CommaFree(([head] + tail)[k])
  {
  }

  predicate HasTrimmedText(s: string) { Trim(s) != "" }

  /** The trimmed, non-empty pieces, in order. */
  function NonEmptyTrimmed(pieces: seq<string>): seq<string> {
    Collect(pieces, HasTrimmedText, Trim)
  }

  /** The items `extractList` collects before removing duplicates: `li` texts, else anchor texts, else comma pieces. */
  function ListItems(cell: Cell): seq<string> {
    var fromItems := NonEmptyCleaned(cell.items);
    if fromItems != [] then fromItems
    else
      var fromAnchors := LinkTexts(cell.anchors);
      if fromAnchors != [] then fromAnchors
      else
        var text := CleanText(cell.text);
        if text != "" then NonEmptyTrimmed(PregSplit(text)) else []
  }

  function ListOf(cell: Cell): seq<string> {
    Dedup(ListItems(cell))
  }

  /** The first loop of extractList: the cleaned, non-empty `li` texts. */
  method CollectCleaned(texts: seq<string>) returns (items: seq<string>)
    ensures items == NonEmptyCleaned(texts)
  {
    items := [];
    for i := 0 to |texts|
      invariant items == NonEmptyCleaned(texts[..i])
    {
      var text := CleanText(texts[i]);
      CollectExtend(texts, i, HasCleanText, CleanText, items, text);
      if text != "" {
        items := items + [text];
      }
    }
    assert texts[..|texts|] == texts;
  }

  /** The last loop of extractList: the trimmed, non-empty comma pieces. */
  method CollectTrimmed(pieces: seq<string>) returns (items: seq<string>)
    ensures items == NonEmptyTrimmed(pieces)
  {
    items := [];
    for i := 0 to |pieces|
      invariant items == NonEmptyTrimmed(pieces[..i])
    {
      CollectStep(pieces, i, HasTrimmedText, Trim);
      var t := Trim(pieces[i]);
      if t != "" {
        items := items + [t];
      }
    }
    assert pieces[..|pieces|] == pieces;
  }

  /** `extractList`. */
  method ExtractList(cell: Cell) returns (list: seq<string>)
    ensures list == ListOf(cell)
  {
    var items := CollectCleaned(cell.items);
    if items == [] {
      items := CollectLinkTexts(cell.anchors);
    }
    if items == [] {
      var text := CleanText(cell.text);
      if text != "" {
        items := CollectTrimmed(PregSplit(text));
      }
    }
    list := Dedup(items);
  }

  /** The list has no empty strings and no duplicates, and keeps the first-occurrence order of its source. */
  lemma ListSpec(cell: Cell)
    ensures "" !in ListOf(cell) && NoDups(ListOf(cell))
    ensures forall x :: x in ListOf(cell) <==> x in ListItems(cell)
    ensures forall k :: 0 <= k <= |ListItems(cell)| ==> Dedup(ListItems(cell)[..k]) <= ListOf(cell)
  {
    DedupSpec(ListItems(cell));
    CollectNonEmpty(cell.items, HasCleanText, CleanText);
    CollectNonEmpty(cell.anchors, AnchorHasCleanText, AnchorCleanText);
    var text := CleanText(cell.text);
    CollectNonEmpty(PregSplit(text), HasTrimmedText, Trim);
  }

  /** Comma splitting is the last resort: it is used only when no `li` and no anchor has text. */
  lemma ListFallsBackToCommas(cell: Cell)
    requires forall i :: 0 <= i < |cell.items| ==> CleanText(cell.items[i]) == ""
    requires forall i :: 0 <= i < |cell.anchors| ==> CleanText(cell.anchors[i].text) == ""
    ensures ListOf(cell) == Dedup(if CleanText(cell.text) != "" then NonEmptyTrimmed(PregSplit(CleanText(cell.text))) else [])
  {
    CollectNothingKept(cell.items, HasCleanText, CleanText);
    CollectNothingKept(cell.anchors, AnchorHasCleanText, AnchorCleanText);
  }

  /** `~^https?://~i`. */
  predicate HasHttpScheme(s: string) {
    (|s| >= 7 && EqualsIgnoreCase(s[..7], "http://")) || (|s| >= 8 && EqualsIgnoreCase(s[..8], "https://"))
  }

  predicate IsDomainChar(c: char) { IsAsciiLetter(c) || IsDigit(c) || c == '.' || c == '-' }

  /** The number of ASCII letters that end at e. */
  function LettersBefore(t: string, e: nat): (n: nat)
    requires e <= |t|
    ensures n <= e
    ensures forall j :: e - n <= j < e ==> IsAsciiLetter(t[j])
    ensures n == e || !IsAsciiLetter(t[e - n - 1])
  {
    if e > 0 && IsAsciiLetter(t[e - 1]) then 1 + LettersBefore(t, e - 1) else 0
  }

  /**
   * `[a-z0-9.-]+\.[a-z]{2,}` can end at e: the letters before e are the top
   * level label (at least two), a '.' comes before them and a domain
   * character before the dot.
   */
  predicate DomainEndsAt(t: string, e: nat)
    requires e <= |t|
  {
    var n := LettersBefore(t, e);
    n >= 2 && n + 2 <= e && t[e - n - 1] == '.' && IsDomainChar(t[e - n - 2])
  }

  /**
   * `\s` in a pattern without the `u` modifier: the ASCII whitespace octets.
   * The octets of a non-ASCII character never match it.
   */
  predicate IsByteSpace(c: char) { c == ' ' || ('\t' <= c <= '\r') }

  /** Some '/' at or after k ... is followed only by non-`\s` characters and preceded by a domain. */
  function PathAfterDomainFrom(t: string, k: nat): (b: bool)
    requires k <= |t|
    decreases k
  {
    if k == 0 then false
    else if IsByteSpace(t[k - 1]) then false
    else if t[k - 1] == '/' && DomainEndsAt(t, k - 1) then true
    else PathAfterDomainFrom(t, k - 1)
  }

  /** `~([a-z0-9.-]+\.[a-z]{2,})(/\S*)?$~i`. */
  predicate LooksLikeDomain(t: string) {
    DomainEndsAt(t, |t|) || PathAfterDomainFrom(t, |t|)
  }

  /** The same test, stated with an explicit '/' position. */
  ghost predicate DomainWithPath(t: string) {
    exists s :: 0 <= s < |t| && t[s] == '/' && DomainEndsAt(t, s) && forall j :: s < j < |t| ==> !IsByteSpace(t[j])
  }

  /** The backwards scan finds the '/' of a domain path exactly when one exists. */
  lemma {:induction false} PathAfterDomainFromSpec(t: string, k: nat)
    requires k <= |t|
    requires forall j :: k <= j < |t| ==> !IsByteSpace(t[j])
    ensures PathAfterDomainFrom(t, k) <==>
      exists s :: 0 <= s < k && t[s] == '/' && DomainEndsAt(t, s) && forall j :: s < j < |t| ==> !IsByteSpace(t[j])
    decreases k
  {
    if k > 0 {
      if IsByteSpace(t[k - 1]) {
        assert IsByteSpace(t[k - 1]);
      } else if !(t[k - 1] == '/' && DomainEndsAt(t, k - 1)) {
        PathAfterDomainFromSpec(t, k - 1);
      }
    }
  }

  lemma LooksLikeDomainSpec(t: string)
    ensures LooksLikeDomain(t) <==> DomainEndsAt(t, |t|) || DomainWithPath(t)
  {
    PathAfterDomainFromSpec(t, |t|);
  }

  /** A non-breaking space is not `\s` to the pattern, so it may stand in the path. */
  lemma NonBreakingSpaceInPath()
    ensures LooksLikeDomain("example.com/a\U{00A0}b")
  {
    var t := "example.com/a\U{00A0}b";
    assert t[7] == '.' && t[8] == 'c' && t[9] == 'o' && t[10] == 'm';
    assert LettersBefore(t, 8) == 0;
    assert LettersBefore(t, 9) == 1;
    assert LettersBefore(t, 10) == 2;
    assert LettersBefore(t, 11) == 3;
    assert DomainEndsAt(t, 11);
    assert PathAfterDomainFrom(t, 12);
    assert !IsByteSpace(t[12]) && !IsByteSpace(t[13]) && !IsByteSpace(t[14]);
    assert PathAfterDomainFrom(t, 15) == PathAfterDomainFrom(t, 12);
  }

  /**
   * The href rule of extractWebsite for a non-empty first href: Some(w) when
   * it decides the answer w, None when the cell text must decide.
   */
  function WebsiteFromHref(href: string): (r: Option<Option<string>>)
  {
    var h := Trim(href);
    if StartsWith(h, "//") then Some(Some("https:" + h))
    else if HasHttpScheme(h) then Some(Some(h))
    else if StartsWith(h, "/") then Some(None)
    else None
  }

  /** The fallback of extractWebsite on the trimmed cell text. */
  function WebsiteFromText(text: string): (r: Option<string>)
  {
    if text != "" && LooksLikeDomain(text) then
      if !HasHttpScheme(text) then Some("https://" + text) else Some(text)
    else None
  }

  /** `extractWebsite`. */
  function Website(cell: Cell): (r: Option<string>)
  {
    var fromHref :=
      if cell.anchors != [] && cell.anchors[0].href.Some? && cell.anchors[0].href.value != "" then
        WebsiteFromHref(cell.anchors[0].href.value)
      else None;
    if fromHref.Some? then fromHref.value else WebsiteFromText(Trim(cell.text))
  }

  lemma HttpsPrefixScheme(rest: string)
    ensures HasHttpScheme("https://" + rest)
  {
    assert ("https://" + rest)[..8] == "https://";
  }

  lemma HrefWebsiteIsAbsolute(href: string)
    ensures var r := WebsiteFromHref(href); r.Some? && r.value.Some? ==> HasHttpScheme(r.value.value)
  {
    var h := Trim(href);
    if StartsWith(h, "//") {
      assert h == "//" + h[2..];
      AppendAssoc("https:", "//", h[2..]);
      HttpsPrefixScheme(h[2..]);
    }
  }

  /** Whatever extractWebsite returns is an absolute http(s) URL. */
  lemma WebsiteIsAbsolute(cell: Cell)
    ensures Website(cell).Some? ==> HasHttpScheme(Website(cell).value)
  {
    if cell.anchors != [] && cell.anchors[0].href.Some? && cell.anchors[0].href.value != "" {
      HrefWebsiteIsAbsolute(cell.anchors[0].href.value);
    }
    HttpsPrefixScheme(Trim(cell.text));
  }

  /** A protocol-relative href (section 4.2 of RFC 3986) gets the https scheme. */
  lemma ProtocolRelativeHref(h: string)
    requires Trim(h) == h && StartsWith(h, "//")
    ensures WebsiteFromHref(h) == Some(Some("https:" + h))
  {
  }

  /** When the first anchor's href decides, the cell text plays no part. */
  lemma WebsitePrefersHref(cell: Cell, h: string)
    requires cell.anchors != [] && cell.anchors[0].href == Some(h) && h != ""
    requires WebsiteFromHref(h).Some?
    ensures Website(cell) == WebsiteFromHref(h).value
  {
  }

  /** A site-internal href such as "/wiki/..." gives no website, whatever the cell text says. */
  lemma WebsiteIgnoresInternalLink(cell: Cell)
    requires cell.anchors != [] && cell.anchors[0].href.Some?
    requires var h := Trim(cell.anchors[0].href.value); StartsWith(h, "/") && !StartsWith(h, "//")
    ensures Website(cell).None?
  {
    var h := Trim(cell.anchors[0].href.value);
    assert h[0] == '/' && LowerAscii('/') != LowerAscii('h');
    assert |h| >= 7 ==> h[..7][0] == '/';
    assert |h| >= 8 ==> h[..8][0] == '/';
    assert WebsiteFromHref(cell.anchors[0].href.value) == Some(None);
  }

  /** The keys whose cells are lists of names. */
  const ListKeys: set<string> := {"developers", "publishers", "platforms", "engines", "genres", "modes", "series"}

  /** A list key: the link texts, or the extractList fallback when there are none. */
  function ListValue(cell: Cell): Value {
    var links := Links(cell);
    List(if links != [] then links else ListOf(cell))
  }

  function ReleaseDateValue(cell: Cell): Value {
    match InfoboxDates.ExtractDate(cell.text)
    case None => Null
    case Some(d) => Str(d)
  }

  function FoundedValue(cell: Cell): Value {
    match InfoboxDates.ExtractYear(cell.text)
    case None => Null
    case Some(y) => Int(y)
  }

  function WebsiteValue(cell: Cell): Value {
    match Website(cell)
    case None => Null
    case Some(w) => Str(w)
  }

  /** `extractDataFromCell`. */
  function DataFromCell(cell: Cell, key: string): Value {
    if key in ListKeys then ListValue(cell)
    else if key == "release_date" then ReleaseDateValue(cell)
    else if key == "founded" then FoundedValue(cell)
    else if key == "website_url" then WebsiteValue(cell)
    else Str(Trim(cell.text))
  }

  /** A founding year is a number of at most four digits, taken from the cell text. */
  lemma FoundedIsYear(cell: Cell)
    ensures FoundedValue(cell).Int? ==> 0 <= FoundedValue(cell).i < 10000
    ensures FoundedValue(cell).Null? <==> InfoboxDates.FirstFourDigits(cell.text).None?
  {
  }
}
