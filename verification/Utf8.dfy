/** UTF-8 (section 3 of RFC 3629) and percent-encoding (section 2.1 of RFC 3986) of key components. */
module Utf8 {
  import opened Options

  type Byte = n: int | 0 <= n < 256

  /** The octets of one character. */
  function Octets(c: char): (bs: seq<Byte>)
    ensures 1 <= |bs| <= 4
  {
    var n := c as int;
    if n < 0x80 then [n]
    else if n < 0x800 then [0xC0 + n / 0x40, 0x80 + n % 0x40]
    else if n < 0x1_0000 then [0xE0 + n / 0x1000, 0x80 + n / 0x40 % 0x40, 0x80 + n % 0x40]
    else [0xF0 + n / 0x4_0000, 0x80 + n / 0x1000 % 0x40, 0x80 + n / 0x40 % 0x40, 0x80 + n % 0x40]
  }

  function Encode(s: string): seq<Byte> { if s == "" then [] else Octets(s[0]) + Encode(s[1..]) }

  /** How many octets the character with this first octet has. */
  function Width(b: Byte): nat { if b < 0x80 then 1 else if b < 0xE0 then 2 else if b < 0xF0 then 3 else 4 }

  /** The payload of an octet, its marker bits taken off. */
  function Payload(b: Byte, marker: int): int { b as int - marker }

  function CodeOf(bs: seq<Byte>): int
    requires bs != [] && |bs| == Width(bs[0])
  {
    if |bs| == 1 then bs[0]
    else if |bs| == 2 then Payload(bs[0], 0xC0) * 0x40 + Payload(bs[1], 0x80)
    else if |bs| == 3 then Payload(bs[0], 0xE0) * 0x1000 + Payload(bs[1], 0x80) * 0x40 + Payload(bs[2], 0x80)
    else
      Payload(bs[0], 0xF0) * 0x4_0000 + Payload(bs[1], 0x80) * 0x1000
      + Payload(bs[2], 0x80) * 0x40 + Payload(bs[3], 0x80)
  }

  predicate IsScalar(n: int) { 0 <= n < 0xD800 || 0xE000 <= n < 0x11_0000 }

  function Decode(bs: seq<Byte>): Option<string> {
    if bs == [] then Some("")
    else if |bs| < Width(bs[0]) then None
    else
      var code := CodeOf(bs[..Width(bs[0])]);
      var rest := Decode(bs[Width(bs[0])..]);
      if !IsScalar(code) || rest.None? then None else Some([code as char] + rest.value)
  }

  lemma Base64Digits(n: nat)
    ensures n / 0x40 * 0x40 + n % 0x40 == n
    ensures n / 0x1000 * 0x40 + n / 0x40 % 0x40 == n / 0x40
    ensures n / 0x4_0000 * 0x40 + n / 0x1000 % 0x40 == n / 0x1000
  {
  }

  lemma CodeOfOctets(c: char)
    ensures |Octets(c)| == Width(Octets(c)[0]) && CodeOf(Octets(c)) == c as int
  {
    Base64Digits(c as int);
  }

  lemma {:induction false} EncodeThenDecode(s: string)
    ensures Decode(Encode(s)) == Some(s)
  {
    if s != "" {
      var bs, rest := Octets(s[0]), Encode(s[1..]);
      CodeOfOctets(s[0]);
      EncodeThenDecode(s[1..]);
      assert (bs + rest)[0] == bs[0];
      assert (bs + rest)[..|bs|] == bs && (bs + rest)[|bs|..] == rest;
      assert s == [s[0]] + s[1..];
    }
  }

  // ---- Percent-encoding ----

  /** `/^[A-Za-z0-9_-]$/` */
  predicate Safe(c: char) { 'A' <= c <= 'Z' || 'a' <= c <= 'z' || '0' <= c <= '9' || c == '_' || c == '-' }

  function UpperHex(n: nat): char
    requires n < 16
  {
    if n < 10 then ('0' as int + n) as char else ('A' as int + n - 10) as char
  }

  function UpperHexValue(c: char): Option<nat> {
    if '0' <= c <= '9' then Some(c as int - '0' as int)
    else if 'A' <= c <= 'F' then Some(c as int - 'A' as int + 10)
    else None
  }

  function Escape(b: Byte): string { ['%', UpperHex(b / 16), UpperHex(b % 16)] }

  function EscapeAll(bs: seq<Byte>): string { if bs == [] then "" else Escape(bs[0]) + EscapeAll(bs[1..]) }

  function SanitizeChar(c: char): string { if Safe(c) then [c] else EscapeAll(Octets(c)) }

  function Sanitize(s: string): string { if s == "" then "" else Sanitize(s[..|s| - 1]) + SanitizeChar(s[|s| - 1]) }

  /** Letters, digits, underscores and hyphens stay as they are. */
  lemma {:induction false} SafeTextStays(s: string)
    requires forall i | 0 <= i < |s| ::
      'A' <= s[i] <= 'Z' || 'a' <= s[i] <= 'z' || '0' <= s[i] <= '9' || s[i] in {'_', '-'}
    ensures Sanitize(s) == s
  {
    if s != "" {
      SafeTextStays(s[..|s| - 1]);
      assert s == s[..|s| - 1] + [s[|s| - 1]];
    }
  }

  lemma {:induction false} EscapedIsSafe(bs: seq<Byte>)
    ensures forall x | x in EscapeAll(bs) :: x == '%' || '0' <= x <= '9' || 'A' <= x <= 'F'
  {
    if bs != [] {
      EscapedIsSafe(bs[1..]);
      assert forall x | x in Escape(bs[0]) :: x == '%' || '0' <= x <= '9' || 'A' <= x <= 'F';
    }
  }

  /** Every other character becomes percent signs and two capital digits for each of its octets. */
  lemma OthersAreEscaped(c: char)
    requires !('A' <= c <= 'Z' || 'a' <= c <= 'z' || '0' <= c <= '9' || c in {'_', '-'})
    ensures Sanitize([c]) == EscapeAll(Octets(c))
    ensures forall x | x in Sanitize([c]) :: x == '%' || '0' <= x <= '9' || 'A' <= x <= 'F'
  {
    EscapedIsSafe(Octets(c));
    assert [c][..0] == "";
    assert Sanitize([c]) == Sanitize("") + SanitizeChar(c);
  }

  /** One to four octets, by the size of the code; the first tells how many, and the others are marked as such. */
  lemma OctetsAre(c: char)
    ensures var n, bs := c as int, Octets(c);
      && |bs| == (if n < 0x80 then 1 else if n < 0x800 then 2 else if n < 0x1_0000 then 3 else 4)
      && (|bs| == 1 ==> bs[0] == n)
      && (|bs| == 2 ==> 0xC0 <= bs[0] < 0xE0)
      && (|bs| == 3 ==> 0xE0 <= bs[0] < 0xF0)
      && (|bs| == 4 ==> 0xF0 <= bs[0] < 0xF8)
      && (forall i | 0 < i < |bs| :: 0x80 <= bs[i] < 0xC0)
  {
  }

  lemma {:induction false} EscapeAppend(bs: seq<Byte>, b: Byte)
    ensures EscapeAll(bs + [b]) == EscapeAll(bs) + Escape(b)
  {
    if bs == [] {
      assert bs + [b] == [b];
    } else {
      assert (bs + [b])[1..] == bs[1..] + [b];
      EscapeAppend(bs[1..], b);
    }
  }

  lemma EscapeOneMore(bs: seq<Byte>, j: nat, before: string)
    requires j < |bs|
    ensures before + EscapeAll(bs[..j + 1]) == before + EscapeAll(bs[..j]) + Escape(bs[j])
  {
    assert bs[..j + 1] == bs[..j] + [bs[j]];
    EscapeAppend(bs[..j], bs[j]);
  }

  /** The two loops of `sanitizeKeyComponent`. */
  method SanitizeKeyComponent(value: string) returns (sanitized: string)
    ensures sanitized == Sanitize(value)
  {
    sanitized := "";
    for i := 0 to |value|
      invariant sanitized == Sanitize(value[..i])
    {
      assert value[..i + 1][..i] == value[..i];
      if Safe(value[i]) {
        sanitized := sanitized + [value[i]];
        continue;
      }
      var bytes := Octets(value[i]);
      ghost var before := sanitized;
      for j := 0 to |bytes|
        invariant sanitized == before + EscapeAll(bytes[..j])
      {
        EscapeOneMore(bytes, j, before);
        sanitized := sanitized + Escape(bytes[j]);
      }
      assert bytes[..|bytes|] == bytes;
    }
    assert value[..|value|] == value;
  }

  /** The octets a sanitized text stands for. */
  function Unescape(t: string): Option<seq<Byte>> {
    if t == "" then Some([])
    else if t[0] == '%' then
      if |t| < 3 then None
      else
        var high, low, rest := UpperHexValue(t[1]), UpperHexValue(t[2]), Unescape(t[3..]);
        if high.None? || low.None? || rest.None? then None else Some([16 * high.value + low.value] + rest.value)
    else if !Safe(t[0]) then None
    else
      var rest := Unescape(t[1..]);
      if rest.None? then None else Some([t[0] as int] + rest.value)
  }

  /** The inverse of sanitizing. */
  function Desanitize(t: string): Option<string> {
    var bytes := Unescape(t);
    if bytes.None? then None else Decode(bytes.value)
  }

  lemma HexDigitsOf(b: Byte)
    ensures UpperHexValue(UpperHex(b / 16)) == Some(b / 16) && UpperHexValue(UpperHex(b % 16)) == Some(b % 16)
  {
  }

  lemma UnescapeOfOne(b: Byte, t: string, bytes: seq<Byte>)
    requires Unescape(t) == Some(bytes)
    ensures Unescape(Escape(b) + t) == Some([b] + bytes)
  {
    HexDigitsOf(b);
    assert (Escape(b) + t)[3..] == t;
  }

  lemma Associates<T>(a: seq<T>, b: seq<T>, c: seq<T>)
    ensures a + b + c == a + (b + c)
  {
  }

  lemma {:induction false} UnescapeOfEscaped(bs: seq<Byte>, t: string, bytes: seq<Byte>)
    requires Unescape(t) == Some(bytes)
    ensures Unescape(EscapeAll(bs) + t) == Some(bs + bytes)
  {
    if bs == [] {
      assert EscapeAll(bs) + t == t && bs + bytes == bytes;
    } else {
      assert Unescape(EscapeAll(bs[1..]) + t) == Some(bs[1..] + bytes) by { UnescapeOfEscaped(bs[1..], t, bytes); }
      UnescapeOfOne(bs[0], EscapeAll(bs[1..]) + t, bs[1..] + bytes);
      Associates(Escape(bs[0]), EscapeAll(bs[1..]), t);
      assert bs + bytes == [bs[0]] + (bs[1..] + bytes);
    }
  }

  lemma UnescapeOfChar(c: char, t: string, bytes: seq<Byte>)
    requires Unescape(t) == Some(bytes)
    ensures Unescape(SanitizeChar(c) + t) == Some(Octets(c) + bytes)
  {
    if Safe(c) {
      assert ([c] + t)[1..] == t;
    } else {
      UnescapeOfEscaped(Octets(c), t, bytes);
    }
  }

  lemma {:induction false} UnescapeOfSanitized(s: string, t: string, bytes: seq<Byte>)
    requires Unescape(t) == Some(bytes)
    ensures Unescape(Sanitize(s) + t) == Some(Encode(s) + bytes)
  {
    if s == "" {
      assert Sanitize(s) + t == t && Encode(s) + bytes == bytes;
    } else {
      var front, c := s[..|s| - 1], s[|s| - 1];
      UnescapeOfChar(c, t, bytes);
      UnescapeOfSanitized(front, SanitizeChar(c) + t, Octets(c) + bytes);
      Associates(Sanitize(front), SanitizeChar(c), t);
      Associates(Encode(front), Octets(c), bytes);
      EncodeLast(front, c);
      assert s == front + [c];
    }
  }

  lemma {:induction false} EncodeLast(s: string, c: char)
    ensures Encode(s + [c]) == Encode(s) + Octets(c)
  {
    if s == "" {
      assert Encode([c]) == Octets(c) + Encode([c][1..]);
    } else {
      assert (s + [c])[1..] == s[1..] + [c];
      EncodeLast(s[1..], c);
    }
  }

  /** Sanitizing is undone by its decoder, on every well-formed text. */
  lemma SanitizeThenDesanitize(s: string)
    ensures Desanitize(Sanitize(s)) == Some(s)
  {
    UnescapeOfSanitized(s, "", []);
    assert Sanitize(s) + "" == Sanitize(s) && Encode(s) + [] == Encode(s);
    EncodeThenDecode(s);
  }

  predicate Sanitized(t: string) { forall i | 0 <= i < |t| :: Safe(t[i]) || t[i] == '%' }

  lemma {:induction false} EscapedIsSanitized(bs: seq<Byte>)
    ensures Sanitized(EscapeAll(bs))
  {
    if bs != [] { EscapedIsSanitized(bs[1..]); }
  }

  /** Sanitized text has safe characters and percent signs only. */
  lemma {:induction false} SanitizeIsSanitized(s: string)
    ensures Sanitized(Sanitize(s))
  {
    if s != "" {
      SanitizeIsSanitized(s[..|s| - 1]);
      EscapedIsSanitized(Octets(s[|s| - 1]));
    }
  }
}
