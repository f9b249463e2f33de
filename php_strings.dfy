/**
 * The handful of PHP string primitives the crawler leans on: `trim`, the
 * `\s` class of PCRE with the /u modifier, `preg_replace('/\s+/u', ' ', ...)`,
 * ASCII case folding and PHP's truthiness of strings.
 */
module PhpStrings {
  import opened Wrappers

  /** The characters PHP's trim() strips by default: " \t\n\r\0\x0B". */
  predicate IsTrimChar(c: char) {
    c == ' ' || c == '\t' || c == '\n' || c == '\r' || c == '\0' || c == '\U{000B}'
  }

  /**
   * `\s` under the /u modifier (PHP turns on Unicode properties with it):
   * HT, LF, VT, FF, CR, every separator character (category Z), and the
   * code points PCRE2 lists among its horizontal and vertical spaces
   * although they are not in category Z: NEL (U+0085) and U+180E.
   */
  predicate IsSpace(c: char) {
    c == ' ' || ('\t' <= c <= '\r') || c == '\U{0085}' || c == '\U{00A0}' || c == '\U{1680}'
    || c == '\U{180E}'
    || ('\U{2000}' <= c <= '\U{200A}') || c == '\U{2028}' || c == '\U{2029}'
    || c == '\U{202F}' || c == '\U{205F}' || c == '\U{3000}'
  }

  predicate IsDigit(c: char) { '0' <= c <= '9' }

  predicate IsAsciiLetter(c: char) { ('a' <= c <= 'z') || ('A' <= c <= 'Z') }

  /** The value of a hexadecimal digit of either case. */
  function HexValue(c: char): (v: Option<nat>)
    ensures v.Some? ==> v.value < 16
  {
    if '0' <= c <= '9' then Some(c as nat - '0' as nat)
    else if 'a' <= c <= 'f' then Some(c as nat - 'a' as nat + 10)
    else if 'A' <= c <= 'F' then Some(c as nat - 'A' as nat + 10)
    else None
  }

  /** ASCII lower-casing, as PCRE's /i and strcasecmp apply it to ASCII text. */
  function LowerAscii(c: char): (d: char)
    ensures IsAsciiLetter(c) ==> 'a' <= d <= 'z'
    ensures !('A' <= c <= 'Z') ==> d == c
  {
    if 'A' <= c <= 'Z' then (c as int + 32) as char else c
  }

  predicate EqualsIgnoreCase(s: string, t: string) {
    |s| == |t| && forall i :: 0 <= i < |s| ==> LowerAscii(s[i]) == LowerAscii(t[i])
  }

  predicate AllDigits(s: string) {
    forall i :: 0 <= i < |s| ==> IsDigit(s[i])
  }

  predicate AllSpace(s: string) {
    forall i :: 0 <= i < |s| ==> IsSpace(s[i])
  }

  predicate StartsWith(s: string, prefix: string) {
    |prefix| <= |s| && s[..|prefix|] == prefix
  }

  /** PHP's truthiness of a string: '' and '0' are falsy. */
  predicate Falsy(s: string) { s == "" || s == "0" }

  /** PHP's truthiness of a nullable string (`if ($token)`, `! empty($token)`). */
  predicate Truthy(o: Option<string>) { o.Some? && !Falsy(o.value) }

  /** Concatenation is associative (stated once: the solver is slow to find it). */
  lemma AppendAssoc(x: string, y: string, z: string)
    ensures x + (y + z) == (x + y) + z
  {
  }

  /** trim(): leading part. */
  function TrimLeft(s: string): (r: string)
    ensures |r| <= |s| && r == s[|s| - |r|..]
    ensures r == [] || !IsTrimChar(r[0])
    ensures forall i :: 0 <= i < |s| - |r| ==> IsTrimChar(s[i])
  {
    if s != [] && IsTrimChar(s[0]) then TrimLeft(s[1..]) else s
  }

  /** trim(): trailing part. */
  function TrimRight(s: string): (r: string)
    ensures |r| <= |s| && r == s[..|r|]
    ensures r == [] || !IsTrimChar(r[|r| - 1])
    ensures forall i :: |r| <= i < |s| ==> IsTrimChar(s[i])
  {
    if s != [] && IsTrimChar(s[|s| - 1]) then TrimRight(s[..|s| - 1]) else s
  }

  /** PHP's trim() with its default character list. */
  function Trim(s: string): (r: string)
    ensures |r| <= |s|
    ensures r == [] || (!IsTrimChar(r[0]) && !IsTrimChar(r[|r| - 1]))
  {
    TrimRight(TrimLeft(s))
  }

  /** Trim(s) is the slice s[lo..lo + |Trim(s)|] for the number lo of leading trim characters. */
  lemma TrimIsSlice(s: string)
    ensures var lo := |s| - |TrimLeft(s)|; lo + |Trim(s)| <= |s| && Trim(s) == s[lo..lo + |Trim(s)|]
  {
  }

  /** The leading run of `\s` characters of s, dropped. */
  function DropSpaces(s: string): (r: string)
    ensures |r| <= |s| && r == s[|s| - |r|..]
    ensures r == [] || !IsSpace(r[0])
  {
    if s != [] && IsSpace(s[0]) then DropSpaces(s[1..]) else s
  }

  /** `preg_replace('/\s+/u', ' ', s)`: every maximal run of `\s` becomes one space. */
  function CollapseSpaces(s: string): (r: string)
    ensures |r| <= |s|
  {
    if s == [] then []
    else if IsSpace(s[0]) then [' '] + CollapseSpaces(DropSpaces(s[1..]))
    else [s[0]] + CollapseSpaces(s[1..])
  }

  /** NEL and U+180E are `\s` too: "A\u0085B" and "A\u180EB" collapse to "A B". */
  lemma CollapsesNelAndMongolianSeparator()
    ensures CollapseSpaces("A\U{0085}B") == "A B"
    ensures CollapseSpaces("A\U{180E}B") == "A B"
  {
    CollapseOneSpace('A', '\U{0085}', 'B');
    CollapseOneSpace('A', '\U{180E}', 'B');
  }

  /** A single `\s` character between two others becomes one plain space. */
  lemma CollapseOneSpace(a: char, w: char, b: char)
    requires !IsSpace(a) && IsSpace(w) && !IsSpace(b)
    ensures CollapseSpaces([a, w, b]) == [a, ' ', b]
  {
    var tail: string := [b];
    assert tail[1..] == [];
    assert DropSpaces(tail) == tail;
    assert CollapseSpaces(tail) == tail;
    var mid: string := [w, b];
    assert mid[1..] == tail;
    assert CollapseSpaces(mid) == [' '] + tail;
    var s: string := [a, w, b];
    assert s[1..] == mid;
    assert CollapseSpaces(s) == [a] + ([' '] + tail);
  }

  /**
   * Whitespace is normal when every `\s` character is a plain space and no
   * two of them are adjacent.
   */
  predicate NormalSpaces(s: string) {
    (forall i :: 0 <= i < |s| && IsSpace(s[i]) ==> s[i] == ' ') &&
    (forall i, j :: 0 <= i < |s| && 0 <= j < |s| && j == i + 1 ==> !IsSpace(s[i]) || !IsSpace(s[j]))
  }

  /** After collapsing, whitespace is normal, and the first character is `\s` only if s started with one. */
  lemma {:induction false} CollapseSpacesNormal(s: string)
    ensures NormalSpaces(CollapseSpaces(s))
    ensures CollapseSpaces(s) != [] && IsSpace(CollapseSpaces(s)[0]) ==> s != [] && IsSpace(s[0])
    ensures s == [] <==> CollapseSpaces(s) == []
  {
    if s == [] {
    } else if IsSpace(s[0]) {
      var rest := DropSpaces(s[1..]);
      CollapseSpacesNormal(rest);
      NormalCons(' ', CollapseSpaces(rest));
    } else {
      CollapseSpacesNormal(s[1..]);
      NormalCons(s[0], CollapseSpaces(s[1..]));
    }
  }

  /** A character put in front of normal whitespace keeps it normal, unless it makes a second `\s` in a row. */
  lemma NormalCons(c: char, t: string)
    requires NormalSpaces(t)
    requires IsSpace(c) ==> c == ' ' && (t == [] || !IsSpace(t[0]))
    ensures NormalSpaces([c] + t)
  {
    var r := [c] + t;
    forall i | 0 <= i < |r| && IsSpace(r[i]) ensures r[i] == ' ' {
      if i > 0 {
        assert r[i] == t[i - 1];
      }
    }
    forall i, j | 0 <= i < |r| && 0 <= j < |r| && j == i + 1 ensures !IsSpace(r[i]) || !IsSpace(r[j]) {
      assert r[j] == t[j - 1];
      if i > 0 {
        assert r[i] == t[i - 1];
      }
    }
  }

  /** Normal whitespace survives taking any slice. */
  lemma NormalSpacesSlice(s: string, lo: nat, hi: nat)
    requires NormalSpaces(s) && lo <= hi <= |s|
    ensures NormalSpaces(s[lo..hi])
  {
    var t := s[lo..hi];
    forall i | 0 <= i < |t| && IsSpace(t[i]) ensures t[i] == ' ' {
      assert t[i] == s[lo + i];
    }
    forall i, j | 0 <= i < |t| && 0 <= j < |t| && j == i + 1 ensures !IsSpace(t[i]) || !IsSpace(t[j]) {
      assert t[i] == s[lo + i] && t[j] == s[lo + j];
    }
  }
}
