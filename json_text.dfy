/**
 * PHP's `json_encode` with JSON_UNESCAPED_UNICODE | JSON_UNESCAPED_SLASHES,
 * restricted to what job identifiers serialise: objects whose values are
 * strings or null. A decoder for that output is proved to invert it, which
 * makes the encoding injective.
 */
module JsonText {
  import opened Wrappers
  import opened PhpStrings

  /** Lower-case hexadecimal digit, as PHP's encoder writes `\u` escapes. */
  function HexLower(d: nat): (c: char)
    requires d < 16
    ensures ('0' <= c <= '9') || ('a' <= c <= 'f')
  {
    if d < 10 then (('0' as int) + d) as char else (('a' as int) + d - 10) as char
  }

  lemma HexValueOfHexLower(d: nat)
    requires d < 16
    ensures HexValue(HexLower(d)) == Some(d)
  {
  }

  /** A six-character `\uXXXX` escape of a code point below 0x10000. */
  function UnicodeEscape(n: nat): string
    requires n < 0x1_0000
  {
    var n1 := n / 16;
    var n2 := n1 / 16;
    var n3 := n2 / 16;
    ['\\', 'u', HexLower(n3), HexLower(n2 % 16), HexLower(n1 % 16), HexLower(n % 16)]
  }

  /**
   * One character of a string literal: quote and backslash are escaped, the
   * five short control escapes are used, other control characters and the
   * two line terminators U+2028 and U+2029 get `\u` escapes, and `/` and
   * every other character are written as they are.
   */
  function EscapeChar(c: char): string {
    if c == '"' then "\\\""
    else if c == '\\' then "\\\\"
    else if c == '\U{0008}' then "\\b"
    else if c == '\U{000C}' then "\\f"
    else if c == '\n' then "\\n"
    else if c == '\r' then "\\r"
    else if c == '\t' then "\\t"
    else if c < ' ' then UnicodeEscape(c as int)
    else if c == '\U{2028}' || c == '\U{2029}' then UnicodeEscape(c as int)
    else [c]
  }

  function Escape(s: string): string {
    if s == [] then [] else EscapeChar(s[0]) + Escape(s[1..])
  }

  /** A JSON string literal. */
  function Quote(s: string): string {
    "\"" + Escape(s) + "\""
  }

  /** A string or null. */
  function EncodeNullable(v: Option<string>): string {
    match v
    case None => "null"
    case Some(s) => Quote(s)
  }

  /** The members of an object, `"key":value` separated by commas. */
  function Members(keys: seq<string>, values: seq<Option<string>>): string
    requires |keys| == |values|
  {
    if keys == [] then []
    else
      var tail := if |keys| == 1 then [] else "," + Members(keys[1..], values[1..]);
      Quote(keys[0]) + ":" + (EncodeNullable(values[0]) + tail)
  }

  /** An object in key order; PHP writes an empty array as `[]`. */
  function EncodeObject(keys: seq<string>, values: seq<Option<string>>): string
    requires |keys| == |values|
  {
    if keys == [] then "[]" else "{" + Members(keys, values) + "}"
  }

  // ---------------------------------------------------------------- decoding

  /** The character an escape stands for and how many characters after the backslash it takes. */
  function DecodeEscape(t: string): Option<(char, nat)> {
    if t == [] then None
    else if t[0] == '"' then Some(('"', 1))
    else if t[0] == '\\' then Some(('\\', 1))
    else if t[0] == '/' then Some(('/', 1))
    else if t[0] == 'b' then Some(('\U{0008}', 1))
    else if t[0] == 'f' then Some(('\U{000C}', 1))
    else if t[0] == 'n' then Some(('\n', 1))
    else if t[0] == 'r' then Some(('\r', 1))
    else if t[0] == 't' then Some(('\t', 1))
    else if t[0] == 'u' && |t| >= 5 then
      match (HexValue(t[1]), HexValue(t[2]), HexValue(t[3]), HexValue(t[4]))
      case (Some(a), Some(b), Some(c), Some(d)) =>
        (match CodeUnit(a * 4096 + b * 256 + c * 16 + d)
         case None => None
         case Some(ch) => Some((ch, 5)))
      case _ => None
    else None
  }

  /** The character of a four-digit escape; a lone surrogate half is not one. */
  function CodeUnit(n: nat): Option<char> {
    if n < 0xD800 || 0xE000 <= n < 0x1_0000 then Some(n as char) else None
  }

  function Prepend(c: char, r: Option<(string, string)>): Option<(string, string)> {
    match r
    case None => None
    case Some((body, rest)) => Some(([c] + body, rest))
  }

  /** The body of a string literal up to its closing quote, and what follows the quote. */
  function DecodeBody(t: string): Option<(string, string)>
    decreases |t|
  {
    if t == [] then None
    else if t[0] == '"' then Some(([], t[1..]))
    else if t[0] == '\\' then
      match DecodeEscape(t[1..])
      case None => None
      case Some((c, n)) => if 1 + n <= |t| then Prepend(c, DecodeBody(t[1 + n..])) else None
    else Prepend(t[0], DecodeBody(t[1..]))
  }

  /** A string literal or `null` at the start of t, and what follows it. */
  function DecodeNullable(t: string): Option<(Option<string>, string)> {
    if |t| >= 4 && t[..4] == "null" then Some((None, t[4..]))
    else if t != [] && t[0] == '"' then
      match DecodeBody(t[1..])
      case None => None
      case Some((s, rest)) => Some((Some(s), rest))
    else None
  }

  lemma {:induction false} DecodeUnicodeEscape(n: nat, t: string)
    requires n < 0x1_0000 && !(0xD800 <= n < 0xE000)
    ensures DecodeBody(UnicodeEscape(n) + t) == Prepend(n as char, DecodeBody(t))
  {
    var n1 := n / 16;
    var n2 := n1 / 16;
    var n3 := n2 / 16;
    var e := UnicodeEscape(n) + t;
    var u := e[1..];
    HexValueOfHexLower(n3);
    HexValueOfHexLower(n2 % 16);
    HexValueOfHexLower(n1 % 16);
    HexValueOfHexLower(n % 16);
    assert u[1] == HexLower(n3) && u[2] == HexLower(n2 % 16);
    assert u[3] == HexLower(n1 % 16) && u[4] == HexLower(n % 16);
    assert n3 * 4096 + (n2 % 16) * 256 + (n1 % 16) * 16 + n % 16 == n by {
      assert n == n1 * 16 + n % 16;
      assert n1 == n2 * 16 + n1 % 16;
      assert n2 == n3 * 16 + n2 % 16;
    }
    assert DecodeEscape(u) == Some((n as char, 5));
    assert e[6..] == t;
  }

  /** Decoding one escaped character yields that character. */
  lemma DecodeEscapeChar(c: char, t: string)
    ensures DecodeBody(EscapeChar(c) + t) == Prepend(c, DecodeBody(t))
  {
    if c == '"' || c == '\\' || c == '\U{0008}' || c == '\U{000C}' || c == '\n' || c == '\r' || c == '\t' {
      var e := EscapeChar(c) + t;
      assert e[2..] == t;
    } else if c < ' ' || c == '\U{2028}' || c == '\U{2029}' {
      DecodeUnicodeEscape(c as int, t);
    } else {
      assert (EscapeChar(c) + t)[1..] == t;
    }
  }

  lemma {:induction false} DecodeBodyOfEscape(s: string, t: string)
    ensures DecodeBody(Escape(s) + t) == PrependString(s, DecodeBody(t))
  {
    if s != [] {
      calc {
        DecodeBody(Escape(s) + t);
        { assert Escape(s) + t == EscapeChar(s[0]) + (Escape(s[1..]) + t); }
        DecodeBody(EscapeChar(s[0]) + (Escape(s[1..]) + t));
        { DecodeEscapeChar(s[0], Escape(s[1..]) + t); }
        Prepend(s[0], DecodeBody(Escape(s[1..]) + t));
        { DecodeBodyOfEscape(s[1..], t); }
        Prepend(s[0], PrependString(s[1..], DecodeBody(t)));
      }
      PrependConcat(s, DecodeBody(t));
    } else {
      assert Escape(s) + t == t;
      if DecodeBody(t).Some? {
        assert s + DecodeBody(t).value.0 == DecodeBody(t).value.0;
      }
    }
  }

  /** Every character of s put in front of a decoded body. */
  function PrependString(s: string, r: Option<(string, string)>): Option<(string, string)> {
    match r
    case None => None
    case Some((body, rest)) => Some((s + body, rest))
  }

  lemma PrependConcat(s: string, r: Option<(string, string)>)
    requires s != []
    ensures Prepend(s[0], PrependString(s[1..], r)) == PrependString(s, r)
  {
    if r.Some? {
      assert [s[0]] + (s[1..] + r.value.0) == s + r.value.0;
    }
  }

  /** The decoder reads back exactly the string a literal encodes, and stops after its closing quote. */
  lemma DecodeQuote(s: string, rest: string)
    ensures DecodeNullable(Quote(s) + rest) == Some((Some(s), rest))
  {
    var e := Quote(s) + rest;
    AppendAssoc("\"" + Escape(s), "\"", rest);
    AppendAssoc("\"", Escape(s), "\"" + rest);
    assert e == "\"" + (Escape(s) + ("\"" + rest));
    assert e[1..] == Escape(s) + ("\"" + rest);
    DecodeBodyOfEscape(s, "\"" + rest);
    assert ("\"" + rest)[1..] == rest;
    assert s + [] == s;
  }

  lemma DecodeNullableRoundTrip(v: Option<string>, rest: string)
    ensures DecodeNullable(EncodeNullable(v) + rest) == Some((v, rest))
  {
    match v
    case None =>
      assert (EncodeNullable(v) + rest)[4..] == rest;
    case Some(s) =>
      DecodeQuote(s, rest);
  }

  /** Different strings or nulls have different encodings, whatever follows them. */
  lemma EncodeNullableInjective(v: Option<string>, w: Option<string>, rest1: string, rest2: string)
    requires EncodeNullable(v) + rest1 == EncodeNullable(w) + rest2
    ensures v == w && rest1 == rest2
  {
    DecodeNullableRoundTrip(v, rest1);
    DecodeNullableRoundTrip(w, rest2);
  }

  /** The values of an object with the given keys, and what follows it. */
  function DecodeMembers(keys: seq<string>, t: string): Option<(seq<Option<string>>, string)>
    decreases |keys|
  {
    if keys == [] then Some(([], t))
    else
      var head := Quote(keys[0]) + ":";
      if |t| < |head| || t[..|head|] != head then None
      else
        match DecodeNullable(t[|head|..])
        case None => None
        case Some((v, rest)) =>
          if |keys| == 1 then Some(([v], rest))
          else if rest != [] && rest[0] == ',' then Cons(v, DecodeMembers(keys[1..], rest[1..]))
          else None
  }

  function Cons(v: Option<string>, r: Option<(seq<Option<string>>, string)>): Option<(seq<Option<string>>, string)> {
    match r
    case None => None
    case Some((vs, after)) => Some(([v] + vs, after))
  }

  /** One member decoded: its key must be the expected one, its value is read back. */
  lemma DecodeMembersHead(keys: seq<string>, v: Option<string>, x: string)
    requires keys != []
    ensures DecodeMembers(keys, Quote(keys[0]) + ":" + (EncodeNullable(v) + x)) ==
      if |keys| == 1 then Some(([v], x))
      else if x != [] && x[0] == ',' then Cons(v, DecodeMembers(keys[1..], x[1..]))
      else None
  {
    var head := Quote(keys[0]) + ":";
    var t := head + (EncodeNullable(v) + x);
    assert t[..|head|] == head;
    assert t[|head|..] == EncodeNullable(v) + x;
    DecodeNullableRoundTrip(v, x);
  }

  /** The text after the first member of an encoded list: nothing, or a comma and the other members. */
  function MembersTail(keys: seq<string>, values: seq<Option<string>>): string
    requires |keys| == |values| && keys != []
  {
    if |keys| == 1 then [] else "," + Members(keys[1..], values[1..])
  }

  lemma MembersUnfold(keys: seq<string>, values: seq<Option<string>>, rest: string)
    requires |keys| == |values| && keys != []
    ensures Members(keys, values) + rest
      == Quote(keys[0]) + ":" + (EncodeNullable(values[0]) + (MembersTail(keys, values) + rest))
  {
    var tail := MembersTail(keys, values);
    AppendAssoc(EncodeNullable(values[0]), tail, rest);
    AppendAssoc(Quote(keys[0]) + ":", EncodeNullable(values[0]) + tail, rest);
  }

  /** The decoder reads back the values of an encoded member list. */
  lemma {:induction false} DecodeMembersRoundTrip(keys: seq<string>, values: seq<Option<string>>, rest: string)
    requires |keys| == |values|
    ensures DecodeMembers(keys, Members(keys, values) + rest) == Some((values, rest))
    decreases |keys|
  {
    if keys == [] {
      assert Members(keys, values) + rest == rest;
    } else if |keys| == 1 {
      MembersUnfold(keys, values, rest);
      assert MembersTail(keys, values) + rest == rest;
      DecodeMembersHead(keys, values[0], rest);
      assert values == [values[0]];
    } else {
      DecodeMembersRoundTripCons(keys, values, rest);
    }
  }

  lemma MembersTailShape(keys: seq<string>, values: seq<Option<string>>, rest: string)
    requires |keys| == |values| && |keys| > 1
    ensures var x := MembersTail(keys, values) + rest;
      x != [] && x[0] == ',' && x[1..] == Members(keys[1..], values[1..]) + rest
  {
    var m := Members(keys[1..], values[1..]);
    assert MembersTail(keys, values) == "," + m;
    AppendAssoc(",", m, rest);
    var y := "," + (m + rest);
    assert y[0] == ',' && y[1..] == m + rest;
  }

  lemma {:induction false} DecodeMembersRoundTripCons(keys: seq<string>, values: seq<Option<string>>, rest: string)
    requires |keys| == |values| && |keys| > 1
    ensures DecodeMembers(keys, Members(keys, values) + rest) == Some((values, rest))
    decreases |keys|, 0
  {
    var x := MembersTail(keys, values) + rest;
    MembersUnfold(keys, values, rest);
    DecodeMembersHead(keys, values[0], x);
    MembersTailShape(keys, values, rest);
    DecodeMembersRoundTrip(keys[1..], values[1..], rest);
    assert values == [values[0]] + values[1..];
  }

  /** An encoded object with the given keys, decoded back to its values. */
  function DecodeObject(keys: seq<string>, t: string): Option<seq<Option<string>>> {
    if keys == [] then (if t == "[]" then Some([]) else None)
    else if t == [] || t[0] != '{' then None
    else
      match DecodeMembers(keys, t[1..])
      case Some((vs, "}")) => Some(vs)
      case _ => None
  }

  lemma DecodeObjectRoundTrip(keys: seq<string>, values: seq<Option<string>>)
    requires |keys| == |values|
    ensures DecodeObject(keys, EncodeObject(keys, values)) == Some(values)
  {
    if keys != [] {
      assert EncodeObject(keys, values)[1..] == Members(keys, values) + "}";
      DecodeMembersRoundTrip(keys, values, "}");
    }
  }

  /** Objects with the same keys have equal encodings only when their values are equal. */
  lemma EncodeObjectInjective(keys: seq<string>, values1: seq<Option<string>>, values2: seq<Option<string>>)
    requires |keys| == |values1| == |values2|
    requires EncodeObject(keys, values1) == EncodeObject(keys, values2)
    ensures values1 == values2
  {
    DecodeObjectRoundTrip(keys, values1);
    DecodeObjectRoundTrip(keys, values2);
  }
}
