/**
 * PHP's `urldecode`, as used on the page-name segment of an anchor's href.
 * PHP strings are octets: '+' becomes the octet of a space, "%XX" (two
 * hexadecimal digits) becomes the octet XX, and every other character is
 * copied as the octets of its UTF-8 encoding. The page name that results is
 * read back as UTF-8 text (section 3 of RFC 3629).
 */
module UrlDecoding {
  import opened Wrappers
  import opened PhpStrings

  type Octet = x: int | 0 <= x < 256

  predicate IsHex(c: char) { HexValue(c).Some? }

  /** A character's scalar value (Dafny characters are Unicode scalar values). */
  predicate IsScalar(n: int) { 0 <= n < 0xD800 || 0xE000 <= n < 0x11_0000 }

  /** The UTF-8 encoding of one character, section 3 of RFC 3629. */
  function Utf8(c: char): (bs: seq<Octet>)
    ensures 1 <= |bs| <= 4
  {
    var n := c as int;
    if n < 0x80 then [n]
    else if n < 0x800 then [0xC0 + n / 64, 0x80 + n % 64]
    else if n < 0x1_0000 then [0xE0 + n / 4096, 0x80 + (n / 64) % 64, 0x80 + n % 64]
    else [0xF0 + n / 262144, 0x80 + (n / 4096) % 64, 0x80 + (n / 64) % 64, 0x80 + n % 64]
  }

  function Utf8Encode(s: string): seq<Octet> {
    if s == [] then [] else Utf8(s[0]) + Utf8Encode(s[1..])
  }

  /** The octets `urldecode` returns. */
  function Octets(s: string): seq<Octet> {
    if s == [] then []
    else if s[0] == '+' then [0x20] + Octets(s[1..])
    else if s[0] == '%' && |s| >= 3 && IsHex(s[1]) && IsHex(s[2]) then
      [16 * HexValue(s[1]).value + HexValue(s[2]).value] + Octets(s[3..])
    else Utf8(s[0]) + Octets(s[1..])
  }

  predicate IsCont(b: int) { 0x80 <= b < 0xC0 }

  /**
   * The character that starts `bs` and how many octets it takes. A
   * well-formed sequence of RFC 3629 gives its scalar value; an octet that
   * does not start one stands for the character with its own code.
   */
  function Lead(bs: seq<Octet>): (r: (nat, int))
    requires bs != []
    ensures 1 <= r.0 <= |bs| && r.0 <= 4 && IsScalar(r.1)
  {
    var b0: int := bs[0];
    var b1: int := if |bs| > 1 then bs[1] else 0;
    var b2: int := if |bs| > 2 then bs[2] else 0;
    var b3: int := if |bs| > 3 then bs[3] else 0;
    var v2 := (b0 - 0xC0) * 64 + (b1 - 0x80);
    var v3 := (b0 - 0xE0) * 4096 + (b1 - 0x80) * 64 + (b2 - 0x80);
    var v4 := (b0 - 0xF0) * 262144 + (b1 - 0x80) * 4096 + (b2 - 0x80) * 64 + (b3 - 0x80);
    if 0xC2 <= b0 < 0xE0 && |bs| >= 2 && IsCont(b1) then (2, v2)
    else if 0xE0 <= b0 < 0xF0 && |bs| >= 3 && IsCont(b1) && IsCont(b2) && 0x800 <= v3 && IsScalar(v3) then (3, v3)
    else if 0xF0 <= b0 < 0xF5 && |bs| >= 4 && IsCont(b1) && IsCont(b2) && IsCont(b3) && 0x1_0000 <= v4 < 0x11_0000 then (4, v4)
    else (1, b0)
  }

  /** Reads octets as UTF-8 text. */
  function DecodeUtf8(bs: seq<Octet>): string
    decreases |bs|
  {
    if bs == [] then []
    else
      var (n, v) := Lead(bs);
      [v as char] + DecodeUtf8(bs[n..])
  }

  /** `urldecode`, with its octets read back as UTF-8 text. */
  function UrlDecode(s: string): string {
    DecodeUtf8(Octets(s))
  }

  /** The unreserved characters of section 2.3 of RFC 3986. */
  predicate IsUnreserved(c: char) {
    ('a' <= c <= 'z') || ('A' <= c <= 'Z') || ('0' <= c <= '9') || c == '-' || c == '.' || c == '_' || c == '~'
  }

  function HexDigit(n: nat): (c: char)
    requires n < 16
    ensures HexValue(c) == Some(n)
  {
    if n < 10 then ('0' as nat + n) as char else ('A' as nat + n - 10) as char
  }

  /** Each octet as "%XX". */
  function Escape(bs: seq<Octet>): string {
    if bs == [] then [] else ['%', HexDigit(bs[0] / 16), HexDigit(bs[0] % 16)] + Escape(bs[1..])
  }

  /**
   * Percent-encoding of section 2.1 of RFC 3986: every character but the
   * unreserved ones becomes the escapes of its UTF-8 octets.
   */
  function PercentEncode(s: string): string {
    if s == [] then []
    else (if IsUnreserved(s[0]) then [s[0]] else Escape(Utf8(s[0]))) + PercentEncode(s[1..])
  }

  /** Escaped octets come back as themselves, whatever follows. */
  lemma {:induction false} OctetsOfEscape(bs: seq<Octet>, rest: string)
    ensures Octets(Escape(bs) + rest) == bs + Octets(rest)
  {
    if bs != [] {
      var b := bs[0];
      var tail := Escape(bs[1..]) + rest;
      var e := ['%', HexDigit(b / 16), HexDigit(b % 16)] + tail;
      assert Escape(bs) + rest == e;
      assert e[3..] == tail;
      assert 16 * (b / 16) + b % 16 == b;
      assert e[0] == '%' && e[1] == HexDigit(b / 16) && e[2] == HexDigit(b % 16);
      assert 16 * HexValue(e[1]).value + HexValue(e[2]).value == b;
      assert Octets(e) == [b] + Octets(e[3..]);
      OctetsOfEscape(bs[1..], rest);
      assert Octets(tail) == bs[1..] + Octets(rest);
      assert Octets(e) == [b] + (bs[1..] + Octets(rest));
      assert bs + Octets(rest) == [b] + (bs[1..] + Octets(rest));
      assert Octets(Escape(bs) + rest) == Octets(e);
    } else {
      assert Escape(bs) + rest == rest;
    }
  }

  /** The octets of a percent-encoded string are the UTF-8 encoding of the original. */
  lemma {:induction false} OctetsOfPercentEncode(s: string)
    ensures Octets(PercentEncode(s)) == Utf8Encode(s)
  {
    if s != [] {
      var c := s[0];
      var rest := PercentEncode(s[1..]);
      OctetsOfPercentEncode(s[1..]);
      if IsUnreserved(c) {
        var e := [c] + rest;
        assert e[1..] == rest;
        assert Octets(e) == Utf8(c) + Octets(rest);
      } else {
        OctetsOfEscape(Utf8(c), rest);
      }
    }
  }

  /** The octets of one character decode to that character, whatever follows. */
  lemma LeadOfUtf8(c: char, rest: seq<Octet>)
    ensures Lead(Utf8(c) + rest) == (|Utf8(c)|, c as int)
  {
    var n := c as int;
    var bs := Utf8(c) + rest;
    if n < 0x80 {
    } else if n < 0x800 {
      assert bs[0] == 0xC0 + n / 64 && bs[1] == 0x80 + n % 64;
      assert (n / 64) * 64 + n % 64 == n;
    } else if n < 0x1_0000 {
      assert bs[0] == 0xE0 + n / 4096 && bs[1] == 0x80 + (n / 64) % 64 && bs[2] == 0x80 + n % 64;
      Split3(n);
    } else {
      assert bs[0] == 0xF0 + n / 262144 && bs[1] == 0x80 + (n / 4096) % 64;
      assert bs[2] == 0x80 + (n / 64) % 64 && bs[3] == 0x80 + n % 64;
      Split4(n);
    }
  }

  lemma Split3(n: int)
    requires 0x800 <= n < 0x1_0000
    ensures (n / 4096) * 4096 + ((n / 64) % 64) * 64 + n % 64 == n
    ensures n / 4096 < 16
  {
    var q := n / 64;
    assert q * 64 + n % 64 == n;
    assert (q / 64) * 64 + q % 64 == q;
    assert n / 4096 == q / 64;
  }

  lemma Split4(n: int)
    requires 0x1_0000 <= n < 0x11_0000
    ensures (n / 262144) * 262144 + ((n / 4096) % 64) * 4096 + ((n / 64) % 64) * 64 + n % 64 == n
    ensures n / 262144 < 5
  {
    var q := n / 64;
    var p := q / 64;
    assert q * 64 + n % 64 == n;
    assert p * 64 + q % 64 == q;
    assert (p / 64) * 64 + p % 64 == p;
    assert n / 4096 == p;
    assert n / 262144 == p / 64;
  }

  /** Reading UTF-8 undoes writing it. */
  lemma {:induction false} DecodeUtf8OfEncode(s: string)
    ensures DecodeUtf8(Utf8Encode(s)) == s
  {
    if s != [] {
      var bs := Utf8Encode(s);
      LeadOfUtf8(s[0], Utf8Encode(s[1..]));
      assert bs[|Utf8(s[0])|..] == Utf8Encode(s[1..]);
      DecodeUtf8OfEncode(s[1..]);
    }
  }

  /** `urldecode` undoes percent-encoding, for every string. */
  lemma UrlDecodeInvertsPercentEncode(s: string)
    ensures UrlDecode(PercentEncode(s)) == s
  {
    OctetsOfPercentEncode(s);
    DecodeUtf8OfEncode(s);
  }

  /** Characters other than '%' and '+' are copied as their UTF-8 octets, whatever follows. */
  lemma {:induction false} OctetsOfPlain(p: string, rest: string)
    requires '%' !in p && '+' !in p
    ensures Octets(p + rest) == Utf8Encode(p) + Octets(rest)
  {
    if p != [] {
      var e := p + rest;
      assert e[0] == p[0] && e[1..] == p[1..] + rest;
      assert p[0] in p;
      assert Octets(e) == Utf8(p[0]) + Octets(e[1..]);
      assert '%' !in p[1..] && '+' !in p[1..] by {
        assert forall c :: c in p[1..] ==> c in p;
      }
      OctetsOfPlain(p[1..], rest);
      assert Utf8Encode(p) == Utf8(p[0]) + Utf8Encode(p[1..]);
    } else {
      assert p + rest == rest;
    }
  }

  /** Text without '%' and '+' is left as it is. */
  lemma UrlDecodePlain(s: string)
    requires '%' !in s && '+' !in s
    ensures UrlDecode(s) == s
  {
    OctetsOfPlain(s, []);
    assert s + [] == s;
    assert Utf8Encode(s) + Octets([]) == Utf8Encode(s);
    DecodeUtf8OfEncode(s);
  }

  lemma {:induction false} Utf8EncodeAppend(a: string, b: string)
    ensures Utf8Encode(a + b) == Utf8Encode(a) + Utf8Encode(b)
  {
    if a == [] {
      assert a + b == b;
    } else {
      assert (a + b)[0] == a[0] && (a + b)[1..] == a[1..] + b;
      Utf8EncodeAppend(a[1..], b);
    }
  }

  /** The octets of escaped UTF-8 between plain text are the UTF-8 encoding of the whole. */
  lemma OctetsOfEscapedChar(p: string, c: char, q: string)
    requires '%' !in p && '+' !in p && '%' !in q && '+' !in q
    ensures Octets(p + Escape(Utf8(c)) + q) == Utf8Encode(p) + Utf8(c) + Utf8Encode(q)
  {
    assert p + Escape(Utf8(c)) + q == p + (Escape(Utf8(c)) + q);
    OctetsOfPlain(p, Escape(Utf8(c)) + q);
    OctetsOfEscape(Utf8(c), q);
    OctetsOfPlain(q, []);
    assert q + [] == q;
    assert Utf8Encode(q) + Octets([]) == Utf8Encode(q);
  }

  lemma Utf8EncodeAround(p: string, c: char, q: string)
    ensures Utf8Encode(p + [c] + q) == Utf8Encode(p) + Utf8(c) + Utf8Encode(q)
  {
    Utf8EncodeAppend(p, [c]);
    Utf8EncodeAppend(p + [c], q);
    assert Utf8Encode([c]) == Utf8(c) by {
      assert [c][1..] == [];
    }
  }

  /** The escapes of a character's UTF-8 octets decode to that one character, between plain text. */
  lemma DecodesEscapedChar(p: string, c: char, q: string)
    requires '%' !in p && '+' !in p && '%' !in q && '+' !in q
    ensures UrlDecode(p + Escape(Utf8(c)) + q) == p + [c] + q
  {
    OctetsOfEscapedChar(p, c, q);
    Utf8EncodeAround(p, c, q);
    DecodeUtf8OfEncode(p + [c] + q);
  }

  /** "Pok%C3%A9mon" is "Pokémon": a two-octet escape gives one character. */
  lemma DecodesMultiOctetEscape()
    ensures UrlDecode("Pok%C3%A9mon") == "Pokémon"
  {
    var u := Utf8('é');
    assert u == [0xC3, 0xA9];
    assert Escape(u) == "%C3%A9" by {
      assert u[1..] == [0xA9];
      assert Escape([0xA9]) == "%A9" by {
        assert [0xA9][1..] == [];
      }
    }
    DecodesEscapedChar("Pok", 'é', "mon");
    assert "Pok" + Escape(u) + "mon" == "Pok%C3%A9mon";
    assert "Pok" + ['é'] + "mon" == "Pokémon";
  }
}
