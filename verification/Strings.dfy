/** The string operations the address parsers use: `split`, `join`, `trim`, `toLowerCase`, hexadecimal. */
module Strings {
  import Text
  import Bits

  /** `s.split(c)` for a one-character separator. */
  function Split(s: string, c: char): (parts: seq<string>)
    ensures |parts| >= 1
    ensures forall i | 0 <= i < |parts| :: c !in parts[i]
  {
    if s == "" then [""]
    else
      var rest := Split(s[1..], c);
      if s[0] == c then [""] + rest else [[s[0]] + rest[0]] + rest[1..]
  }

  /** `parts.join(c)` */
  function Join(parts: seq<string>, c: char): string {
    if parts == [] then ""
    else if |parts| == 1 then parts[0]
    else parts[0] + [c] + Join(parts[1..], c)
  }

  lemma {:induction false} SplitFirst(a: string, c: char, rest: string)
    requires c !in a
    ensures Split(a + [c] + rest, c) == [a] + Split(rest, c)
  {
    if a == "" {
      assert a + [c] + rest == [c] + rest;
    } else {
      assert (a + [c] + rest)[1..] == a[1..] + [c] + rest && a == [a[0]] + a[1..];
      SplitFirst(a[1..], c, rest);
    }
  }

  lemma {:induction false} SplitNone(a: string, c: char)
    requires c !in a
    ensures Split(a, c) == [a]
  {
    if a != "" {
      SplitNone(a[1..], c);
      assert a == [a[0]] + a[1..];
    }
  }

  /** Splitting undoes joining when no part contains the separator. */
  lemma {:induction false} SplitOfJoin(parts: seq<string>, c: char)
    requires parts != [] && forall i | 0 <= i < |parts| :: c !in parts[i]
    ensures Split(Join(parts, c), c) == parts
  {
    if |parts| == 1 {
      SplitNone(parts[0], c);
    } else {
      SplitFirst(parts[0], c, Join(parts[1..], c));
      SplitOfJoin(parts[1..], c);
    }
  }

  /** Joining undoes splitting. */
  lemma {:induction false} JoinOfSplit(s: string, c: char)
    ensures Join(Split(s, c), c) == s
  {
    if s != "" {
      JoinOfSplit(s[1..], c);
      assert s == [s[0]] + s[1..];
    }
  }

  lemma {:induction false} JoinAppend(a: seq<string>, b: seq<string>, c: char)
    requires a != [] && b != []
    ensures Join(a + b, c) == Join(a, c) + [c] + Join(b, c)
  {
    if |a| == 1 {
      assert (a + b)[1..] == b;
    } else {
      assert (a + b)[1..] == a[1..] + b;
      JoinAppend(a[1..], b, c);
    }
  }

  lemma {:induction false} SplitChars(s: string, x: char, c: char)
    requires x in s && x != c
    ensures exists i :: 0 <= i < |Split(s, c)| && x in Split(s, c)[i]
  {
    var parts := Split(s, c);
    var rest := Split(s[1..], c);
    if s[0] == c {
      SplitChars(s[1..], x, c);
      var i :| 0 <= i < |rest| && x in rest[i];
      assert parts[i + 1] == rest[i];
    } else if s[0] == x {
      assert parts[0][0] == x;
    } else {
      SplitChars(s[1..], x, c);
      var i :| 0 <= i < |rest| && x in rest[i];
      assert if i == 0 then parts[0][1..] == rest[0] else parts[i] == rest[i];
      assert x in parts[i];
    }
  }

  lemma {:induction false} SplitEnds(s: string, c: char)
    ensures s != "" && s[0] == c ==> Split(s, c)[0] == ""
    ensures s != "" && s[|s| - 1] == c ==> Split(s, c)[|Split(s, c)| - 1] == "" && |Split(s, c)| >= 2
  {
    if |s| >= 2 { SplitEnds(s[1..], c); }
  }

  /** `s.lastIndexOf(c)` */
  function LastIndexOf(s: string, c: char): (i: int)
    ensures -1 <= i < |s|
    ensures i >= 0 ==> s[i] == c && c !in s[i + 1..]
    ensures i == -1 ==> c !in s
  {
    if s == "" then -1
    else if s[|s| - 1] == c then |s| - 1
    else
      var i := LastIndexOf(s[..|s| - 1], c);
      assert s == s[..|s| - 1] + [s[|s| - 1]];
      assert i >= 0 ==> s[i + 1..] == s[..|s| - 1][i + 1..] + [s[|s| - 1]];
      i
  }

  lemma {:induction false} LastIndexIs(prefix: string, c: char, rest: string)
    requires c !in rest
    ensures LastIndexOf(prefix + [c] + rest, c) == |prefix|
  {
    var s := prefix + [c] + rest;
    if rest != "" {
      assert s[|s| - 1] == rest[|rest| - 1];
      assert s[..|s| - 1] == prefix + [c] + rest[..|rest| - 1];
      LastIndexIs(prefix, c, rest[..|rest| - 1]);
    }
  }

  // ---- Normalising ----

  predicate IsSpace(c: char) { Text.IsSpaceCode(c as int) }

  function TrimStart(s: string): string { if s != "" && IsSpace(s[0]) then TrimStart(s[1..]) else s }

  function TrimEnd(s: string): string { if s != "" && IsSpace(s[|s| - 1]) then TrimEnd(s[..|s| - 1]) else s }

  function Trim(s: string): string { TrimEnd(TrimStart(s)) }

  function LowerChar(c: char): char { if 'A' <= c <= 'Z' then (c as int + 32) as char else c }

  function Lower(s: string): string { seq(|s|, i requires 0 <= i < |s| => LowerChar(s[i])) }

  function NormalizeHostname(hostname: string): string {
    var trimmed := Lower(Trim(hostname));
    var unbracketed :=
      if |trimmed| >= 2 && trimmed[0] == '[' && trimmed[|trimmed| - 1] == ']' then trimmed[1..|trimmed| - 1]
      else trimmed;
    if unbracketed != "" && unbracketed[|unbracketed| - 1] == '.' then unbracketed[..|unbracketed| - 1] else unbracketed
  }

  /** Text made of the characters addresses are written with. */
  predicate AddressText(s: string) { forall i | 0 <= i < |s| :: IsHexDigit(s[i]) || s[i] == ':' || s[i] == '.' }

  /** Normalising such a text only lower-cases it. */
  lemma NormalizingLowers(s: string)
    requires AddressText(s) && (s != "" ==> s[|s| - 1] != '.')
    ensures NormalizeHostname(s) == Lower(s)
  {
    assert TrimStart(s) == s && TrimEnd(s) == s;
  }

  lemma LowerAppend(a: string, b: string)
    ensures Lower(a + b) == Lower(a) + Lower(b)
  {
  }

  // ---- Hexadecimal ----

  function HexDigit(n: nat): char
    requires n < 16
  {
    if n < 10 then ('0' as int + n) as char else ('a' as int + n - 10) as char
  }

  predicate IsHexDigit(c: char) { '0' <= c <= '9' || 'a' <= c <= 'f' || 'A' <= c <= 'F' }

  function HexDigitValue(c: char): (n: nat)
    requires IsHexDigit(c)
    ensures n < 16
  {
    if c <= '9' then c as int - '0' as int
    else if c <= 'F' then c as int - 'A' as int + 10
    else c as int - 'a' as int + 10
  }

  /** `/^[0-9a-f]{1,4}$/i` */
  predicate IsHextet(s: string) { 1 <= |s| <= 4 && forall i | 0 <= i < |s| :: IsHexDigit(s[i]) }

  /** `Number.parseInt(s, 16)` */
  function HexValue(s: string): nat
    requires forall i | 0 <= i < |s| :: IsHexDigit(s[i])
  {
    if s == "" then 0
    else
      assert IsHexDigit(s[|s| - 1]);
      16 * HexValue(s[..|s| - 1]) + HexDigitValue(s[|s| - 1])
  }

  lemma {:induction false} HexOfLower(s: string)
    requires forall i | 0 <= i < |s| :: IsHexDigit(s[i])
    ensures (forall i | 0 <= i < |s| :: IsHexDigit(Lower(s)[i])) && HexValue(Lower(s)) == HexValue(s)
  {
    if s != "" {
      HexOfLower(s[..|s| - 1]);
      assert Lower(s)[..|s| - 1] == Lower(s[..|s| - 1]);
    }
  }

  /** `n.toString(16)` */
  function Hex(n: nat): (s: string)
    ensures s != "" && forall i | 0 <= i < |s| :: '0' <= s[i] <= '9' || 'a' <= s[i] <= 'f'
  {
    if n < 16 then [HexDigit(n)] else Hex(n / 16) + [HexDigit(n % 16)]
  }

  /** `n.toString(16)` for any integer. */
  function HexInt(n: int): string { if n >= 0 then Hex(n) else "-" + Hex(-n) }

  lemma HexOfHextet(n: nat)
    requires n < 0x1_0000
    ensures IsHextet(Hex(n)) && HexValue(Hex(n)) == n
  {
    Bits.Pow32();
    HexLength(n, 4);
    HexThenParse(n);
  }

  lemma {:induction false} HexLength(n: nat, k: nat)
    requires k >= 1 && n < Bits.Pow2(4 * k)
    ensures |Hex(n)| <= k
  {
    if n >= 16 {
      assert Bits.Pow2(4) == 16;
      Bits.Pow2Adds(4, 4 * (k - 1));
      HexLength(n / 16, k - 1);
    }
  }

  lemma {:induction false} HexThenParse(n: nat)
    ensures HexValue(Hex(n)) == n
  {
    if n >= 16 {
      HexThenParse(n / 16);
      assert Hex(n)[..|Hex(n)| - 1] == Hex(n / 16);
    } else {
      assert Hex(n)[..0] == "";
    }
  }
}
