/**
  IPv6 text (section 2.2 of RFC 4291): eight hextets, `::` compression and dotted-quad
  tails, parsed and printed as apps/api/src/common/outbound-probe-safety.ts does.
 */
module Ipv6 {
  import opened Options
  import opened Bits
  import opened Strings
  import Decimal
  import Ipv4

  const HEXTET: nat := 0x1_0000

  // ---- Hextets and values ----

  predicate Hextets(hs: seq<nat>) { forall i | 0 <= i < |hs| :: hs[i] < HEXTET }

  /** `parts.reduce((value, part) => (value << 16n) + BigInt(part), 0n)` */
  function Fold(hs: seq<nat>): nat {
    if hs == [] then 0 else HEXTET * Fold(hs[..|hs| - 1]) + hs[|hs| - 1]
  }

  /** The n low hextets of v, highest first. */
  function LowHextets(v: nat, n: nat): (hs: seq<nat>)
    ensures |hs| == n && Hextets(hs)
  {
    if n == 0 then [] else LowHextets(v / HEXTET, n - 1) + [v % HEXTET]
  }

  lemma {:induction false} FoldOfHextets(v: nat, n: nat)
    requires v < Pow2(16 * n)
    ensures Fold(LowHextets(v, n)) == v
  {
    if n > 0 {
      Pow32();
      Pow2Adds(16, 16 * (n - 1));
      FoldOfHextets(v / HEXTET, n - 1);
      assert LowHextets(v, n)[..n - 1] == LowHextets(v / HEXTET, n - 1);
    }
  }

  lemma {:induction false} FoldBound(hs: seq<nat>)
    requires Hextets(hs)
    ensures Fold(hs) < Pow2(16 * |hs|)
  {
    if hs != [] {
      FoldBound(hs[..|hs| - 1]);
      Pow32();
      Pow2Adds(16, 16 * (|hs| - 1));
    }
  }

  lemma {:induction false} HextetAt(v: nat, n: nat, i: nat)
    requires i < n
    ensures LowHextets(v, n)[i] == ShiftRight(v, 16 * (n - 1 - i)) % HEXTET
  {
    if i < n - 1 {
      HextetAt(v / HEXTET, n - 1, i);
      Pow32();
      ShiftRightDivides(v, 16);
      ShiftRightAgain(v, 16, 16 * (n - 2 - i));
    }
  }

  /** Hextet i of n stands above n - 1 - i others. */
  lemma {:induction false} FoldAt(hs: seq<nat>, i: nat)
    requires Hextets(hs) && i < |hs|
    ensures ShiftRight(Fold(hs), 16 * (|hs| - 1 - i)) % HEXTET == hs[i]
  {
    if i < |hs| - 1 {
      var front := hs[..|hs| - 1];
      FoldAt(front, i);
      Pow32();
      ShiftRightDivides(Fold(hs), 16);
      DivModUnique(Fold(hs), HEXTET, Fold(front), hs[|hs| - 1]);
      ShiftRightAgain(Fold(hs), 16, 16 * (|hs| - 2 - i));
    }
  }

  // ---- Printing ----

  function HexAll(hs: seq<nat>): seq<string> { seq(|hs|, i requires 0 <= i < |hs| => Hex(hs[i])) }

  function Colons(hs: seq<nat>): string { Join(HexAll(hs), ':') }

  /** `bigIntToIpv6` */
  function Print(v: nat): string { Colons(LowHextets(v, 8)) }

  method BigIntToIpv6(v: nat) returns (s: string)
    ensures s == Print(v)
  {
    var parts: seq<string> := [];
    var shift: int := 112;
    while shift >= 0
      invariant shift == 112 - 16 * |parts| && |parts| <= 8
      invariant parts == HexAll(LowHextets(v, 8))[..|parts|]
    {
      LowMask(ShiftRight(v, shift), 16);
      HextetAt(v, 8, |parts|);
      Pow32();
      parts := parts + [Hex(BitAnd(ShiftRight(v, shift), 0xffff))];
      shift := shift - 16;
    }
    assert HexAll(LowHextets(v, 8))[..8] == HexAll(LowHextets(v, 8));
    s := Join(parts, ':');
  }

  // ---- Parsing ----

  function ParseParts(parts: seq<string>): Option<seq<nat>> {
    if parts == [] then Some([])
    else
      var before, last := ParseParts(parts[..|parts| - 1]), parts[|parts| - 1];
      if before.None? || !IsHextet(last) then None else Some(before.value + [HexValue(last)])
  }

  function ParseHextets(value: string): Option<seq<nat>> {
    if value == "" then Some([]) else ParseParts(Split(value, ':'))
  }

  method ParseIpv6Hextets(value: string) returns (r: Option<seq<nat>>)
    ensures r == ParseHextets(value)
  {
    if |value| == 0 {
      return Some([]);
    }
    var parts := Split(value, ':');
    var hextets: seq<nat> := [];
    for i := 0 to |parts|
      invariant ParseParts(parts[..i]) == Some(hextets)
    {
      assert parts[..i + 1][..i] == parts[..i];
      if !IsHextet(parts[i]) {
        PartsFail(parts, i + 1);
        return None;
      }
      hextets := hextets + [HexValue(parts[i])];
    }
    assert parts[..|parts|] == parts;
    return Some(hextets);
  }

  lemma {:induction false} PartsFail(parts: seq<string>, n: nat)
    requires n <= |parts| && ParseParts(parts[..n]).None?
    ensures ParseParts(parts).None?
  {
    if n < |parts| {
      assert parts[..|parts| - 1][..n] == parts[..n];
      PartsFail(parts[..|parts| - 1], n);
    } else {
      assert parts[..n] == parts;
    }
  }

  /** `split('::')`: leftmost, non-overlapping. */
  function SplitDouble(s: string): (pieces: seq<string>)
    ensures |pieces| >= 1
  {
    if |s| < 2 then [s]
    else if s[0] == ':' && s[1] == ':' then [""] + SplitDouble(s[2..])
    else
      var rest := SplitDouble(s[1..]);
      [[s[0]] + rest[0]] + rest[1..]
  }

  /** Rewrites a dotted-quad tail as two hextets. */
  function Undotted(lower: string): Option<string> {
    if '.' !in lower then Some(lower)
    else
      var lastColon := LastIndexOf(lower, ':');
      if lastColon == -1 then None
      else
        var ipv4 := Ipv4.Parse(lower[lastColon + 1..]);
        if ipv4.None? then None
        else
          var high, low := And(Shr(ipv4.value, 16), 0xffff), And(ipv4.value, 0xffff);
          Some(lower[..lastColon] + ":" + HexInt(high) + ":" + HexInt(low))
  }

  function Zeros(n: nat): (zeros: seq<nat>)
    ensures |zeros| == n && forall i | 0 <= i < n :: zeros[i] == 0
  {
    if n == 0 then [] else Zeros(n - 1) + [0]
  }

  /** `[...left, ...Array(zeroCount).fill(0), ...right]` */
  function Filled(left: seq<nat>, right: seq<nat>): (parts: seq<nat>)
    requires |left| + |right| <= 8
    ensures |parts| == 8
  {
    left + Zeros(8 - |left| - |right|) + right
  }

  /** The eight parts an address denotes. */
  function Parts(address: string): Option<seq<nat>> { LowerParts(NormalizeHostname(address)) }

  function LowerParts(lower: string): Option<seq<nat>> {
    var undotted := Undotted(lower);
    if undotted.None? then None else PlainParts(undotted.value)
  }

  function PlainParts(text: string): Option<seq<nat>> {
    var pieces := SplitDouble(text);
    var left := ParseHextets(pieces[0]);
    var right := ParseHextets(if |pieces| > 1 then pieces[1] else "");
    if |pieces| > 2 || left.None? || right.None? then None
    else if |pieces| == 1 then (if |left.value| == 8 then left else None)
    else if |left.value| + |right.value| > 7 then None
    else Some(Filled(left.value, right.value))
  }

  /** `ipv6ToBigInt` */
  function Parse(address: string): Option<nat> {
    var parts := Parts(address);
    if parts.None? then None else Some(Fold(parts.value))
  }

  // ---- What parsing yields ----

  lemma {:induction false} PartsAreHextets(parts: seq<string>)
    ensures ParseParts(parts).Some? ==> |ParseParts(parts).value| == |parts| && Hextets(ParseParts(parts).value)
  {
    if parts != [] {
      PartsAreHextets(parts[..|parts| - 1]);
      if IsHextet(parts[|parts| - 1]) { HexValueBound(parts[|parts| - 1]); }
    }
  }

  lemma HexValueBound(s: string)
    requires IsHextet(s)
    ensures HexValue(s) < HEXTET
  {
    HexBound(s);
    Pow2Grows(4 * |s|, 16);
    Pow32();
  }

  lemma {:induction false} HexBound(s: string)
    requires forall i | 0 <= i < |s| :: IsHexDigit(s[i])
    ensures HexValue(s) < Pow2(4 * |s|)
  {
    if s != "" {
      HexBound(s[..|s| - 1]);
      assert IsHexDigit(s[|s| - 1]);
      Pow2Four(4 * (|s| - 1));
      assert 4 * |s| == 4 * (|s| - 1) + 4;
    }
  }

  lemma HextetsAreHextets(text: string)
    ensures ParseHextets(text).Some? ==> Hextets(ParseHextets(text).value)
  {
    PartsAreHextets(Split(text, ':'));
  }

  lemma ParsedParts(address: string)
    requires Parts(address).Some?
    ensures |Parts(address).value| == 8 && Hextets(Parts(address).value)
    ensures Parse(address).value < Pow2(128)
  {
    var pieces := SplitDouble(Undotted(NormalizeHostname(address)).value);
    HextetsAreHextets(pieces[0]);
    HextetsAreHextets(if |pieces| > 1 then pieces[1] else "");
    EightHextets(Parts(address).value);
  }

  lemma EightHextets(hs: seq<nat>)
    requires Hextets(hs) && |hs| == 8
    ensures Fold(hs) < Pow2(128)
  {
    FoldBound(hs);
  }

  // ---- How addresses are written ----

  /** The groups before `::`, if there is one, and those after it or all of them. */
  datatype Spelling = Spelling(head: Option<seq<string>>, tail: seq<string>)

  predicate AllHextets(groups: seq<string>) { forall i | 0 <= i < |groups| :: IsHextet(groups[i]) }

  /** Hextets, the last of which may be a dotted quad instead. */
  predicate Groups(groups: seq<string>) {
    groups == [] || (AllHextets(groups[..|groups| - 1]) && IsGroup(groups[|groups| - 1]))
  }

  predicate IsGroup(group: string) { IsHextet(group) || Ipv4.Parse(group).Some? }

  function Halves(v: nat): seq<nat> { [v / HEXTET, v % HEXTET] }

  function GroupValue(group: string): seq<nat>
    requires IsGroup(group)
  {
    if IsHextet(group) then [HexValue(group)] else Halves(Ipv4.Parse(group).value)
  }

  function HextetValues(groups: seq<string>): (hs: seq<nat>)
    requires AllHextets(groups)
    ensures |hs| == |groups|
  {
    if groups == [] then [] else HextetValues(groups[..|groups| - 1]) + [HexValue(groups[|groups| - 1])]
  }

  function Values(groups: seq<string>): seq<nat>
    requires Groups(groups)
  {
    if groups == [] then [] else HextetValues(groups[..|groups| - 1]) + GroupValue(groups[|groups| - 1])
  }

  function Head(sp: Spelling): seq<string> { if sp.head.Some? then sp.head.value else [] }

  /** Eight hextets, or at most seven and `::`; a dotted quad counts as two. */
  predicate WellFormed(sp: Spelling) {
    && AllHextets(Head(sp)) && Groups(sp.tail)
    && var n := |Head(sp)| + |Values(sp.tail)|;
       if sp.head.Some? then n <= 7 else n == 8
  }

  /** `::` stands for as many zeros as are missing. */
  function Denoted(sp: Spelling): seq<nat>
    requires WellFormed(sp)
  {
    Filled(HextetValues(Head(sp)), Values(sp.tail))
  }

  function Start(head: Option<seq<string>>): string { if head.Some? then Join(head.value, ':') + "::" else "" }

  function Written(sp: Spelling): string { Start(sp.head) + Join(sp.tail, ':') }

  // ---- Hextets only ----

  /** No two colons in a row. */
  predicate NoDouble(s: string) { forall i | 0 <= i < |s| - 1 :: s[i] == ':' ==> s[i + 1] != ':' }

  predicate EndsInHextet(s: string) { s != "" ==> s[|s| - 1] != ':' }

  predicate PlainText(s: string) { '.' !in s && NoDouble(s) && EndsInHextet(s) && (s != "" ==> s[0] != ':') }

  lemma {:induction false} JoinedText(groups: seq<string>)
    requires AllHextets(groups)
    ensures PlainText(Join(groups, ':')) && (groups != [] ==> Join(groups, ':') != "")
  {
    if |groups| >= 2 {
      HextetText(groups[0]);
      JoinedText(groups[1..]);
    } else if |groups| == 1 {
      HextetText(groups[0]);
    }
  }

  lemma HextetText(group: string)
    requires IsHextet(group)
    ensures ':' !in group && '.' !in group
  {
  }

  lemma {:induction false} PartsOfHextets(groups: seq<string>)
    requires AllHextets(groups)
    ensures ParseParts(groups) == Some(HextetValues(groups))
  {
    if groups != [] { PartsOfHextets(groups[..|groups| - 1]); }
  }

  lemma JoinedParses(groups: seq<string>)
    requires AllHextets(groups)
    ensures ParseHextets(Join(groups, ':')) == Some(HextetValues(groups))
  {
    if groups != [] {
      JoinedText(groups);
      forall i | 0 <= i < |groups| ensures ':' !in groups[i] { HextetText(groups[i]); }
      SplitOfJoin(groups, ':');
      PartsOfHextets(groups);
    }
  }

  lemma {:induction false} SplitDoubleNone(s: string)
    requires NoDouble(s)
    ensures SplitDouble(s) == [s]
  {
    if |s| >= 2 {
      SplitDoubleNone(s[1..]);
      assert s == [s[0]] + s[1..];
    }
  }

  lemma {:induction false} SplitDoubleOnce(a: string, b: string)
    requires NoDouble(a) && EndsInHextet(a) && NoDouble(b)
    ensures SplitDouble(a + "::" + b) == [a, b]
  {
    var s := a + "::" + b;
    if a == "" {
      assert s[2..] == b;
      SplitDoubleNone(b);
    } else {
      assert s[1..] == a[1..] + "::" + b && a == [a[0]] + a[1..];
      SplitDoubleOnce(a[1..], b);
    }
  }

  lemma TwoPieces(a: string, b: string, l: seq<nat>, r: seq<nat>)
    requires NoDouble(a) && EndsInHextet(a) && NoDouble(b)
    requires ParseHextets(a) == Some(l) && ParseHextets(b) == Some(r) && |l| + |r| <= 7
    ensures PlainParts(a + "::" + b) == Some(Filled(l, r))
  {
    SplitDoubleOnce(a, b);
  }

  lemma HextetsAreValues(groups: seq<string>)
    requires AllHextets(groups)
    ensures Groups(groups) && Values(groups) == HextetValues(groups)
  {
  }

  lemma FilledAlready(parts: seq<nat>)
    requires |parts| == 8
    ensures Filled([], parts) == parts
  {
    assert [] + Zeros(0) + parts == parts;
  }

  lemma CompressedIsParsed(head: seq<string>, tail: seq<string>)
    requires AllHextets(head) && AllHextets(tail) && |head| + |tail| <= 7
    ensures var text := Join(head, ':') + "::" + Join(tail, ':');
      '.' !in text &&
      PlainParts(text) == Some(Filled(HextetValues(head), HextetValues(tail)))
  {
    JoinedText(head);
    JoinedText(tail);
    JoinedParses(head);
    JoinedParses(tail);
    TwoPieces(Join(head, ':'), Join(tail, ':'), HextetValues(head), HextetValues(tail));
  }

  lemma FullIsParsed(groups: seq<string>)
    requires AllHextets(groups) && |groups| == 8
    ensures '.' !in Join(groups, ':') && PlainParts(Join(groups, ':')) == Some(HextetValues(groups))
  {
    JoinedText(groups);
    JoinedParses(groups);
    SplitDoubleNone(Join(groups, ':'));
  }

  lemma FullSpelling(groups: seq<string>)
    requires AllHextets(groups) && |groups| == 8
    ensures Groups(groups) && WellFormed(Spelling(None, groups))
    ensures Written(Spelling(None, groups)) == Join(groups, ':')
    ensures Denoted(Spelling(None, groups)) == HextetValues(groups)
  {
    HextetsAreValues(groups);
    FilledAlready(HextetValues(groups));
  }

  lemma PlainIsParsed(sp: Spelling)
    requires WellFormed(sp) && AllHextets(sp.tail)
    ensures '.' !in Written(sp) && PlainParts(Written(sp)) == Some(Denoted(sp))
  {
    HextetsAreValues(sp.tail);
    if sp.head.Some? {
      CompressedIsParsed(sp.head.value, sp.tail);
    } else {
      FullIsParsed(sp.tail);
      FullSpelling(sp.tail);
    }
  }

  function GroupsOf(text: string): seq<string> { if text == "" then [] else Split(text, ':') }

  lemma {:induction false} PartsAreValues(groups: seq<string>)
    requires ParseParts(groups).Some?
    ensures AllHextets(groups) && ParseParts(groups).value == HextetValues(groups)
  {
    if groups != [] { PartsAreValues(groups[..|groups| - 1]); }
  }

  lemma ParsedGroups(text: string)
    requires ParseHextets(text).Some?
    ensures var groups := GroupsOf(text);
      AllHextets(groups) && ParseHextets(text).value == HextetValues(groups) && Join(groups, ':') == text
  {
    if text != "" {
      PartsAreValues(Split(text, ':'));
      JoinOfSplit(text, ':');
    }
  }

  lemma {:induction false} SplitDoubleJoins(s: string)
    ensures var pieces := SplitDouble(s);
      && (|pieces| == 1 ==> s == pieces[0])
      && (|pieces| == 2 ==> s == pieces[0] + "::" + pieces[1])
  {
    if |s| >= 2 && s[0] == ':' && s[1] == ':' {
      SplitDoubleJoins(s[2..]);
      assert s == "" + "::" + s[2..];
    } else if |s| >= 2 {
      SplitDoubleJoins(s[1..]);
      OneMorePiece(s, SplitDouble(s[1..]));
    }
  }

  lemma OneMorePiece(s: string, rest: seq<string>)
    requires s != ""
    ensures |rest| == 1 && s[1..] == rest[0] ==> s == [s[0]] + rest[0]
    ensures |rest| == 2 && s[1..] == rest[0] + "::" + rest[1] ==> s == [s[0]] + rest[0] + "::" + rest[1]
  {
    assert s == [s[0]] + s[1..];
  }

  lemma ParsedIsPlain(text: string, parts: seq<nat>) returns (sp: Spelling)
    requires PlainParts(text) == Some(parts)
    ensures WellFormed(sp) && AllHextets(sp.tail) && Written(sp) == text && Denoted(sp) == parts
  {
    var pieces := SplitDouble(text);
    SplitDoubleJoins(text);
    ParsedGroups(pieces[0]);
    if |pieces| == 1 {
      sp := Spelling(None, GroupsOf(pieces[0]));
    } else {
      ParsedGroups(pieces[1]);
      sp := Spelling(Some(GroupsOf(pieces[0])), GroupsOf(pieces[1]));
    }
    HextetsAreValues(sp.tail);
  }

  // ---- Dotted quads ----

  lemma HalvesAreHextets(v: nat)
    requires v < TWO32
    ensures v / HEXTET < HEXTET && v % HEXTET < HEXTET
  {
  }

  lemma ShrHalf(v: nat)
    requires v < TWO32
    ensures Shr(v, 16) == v / HEXTET
  {
    Pow32();
    ShrIs(v, 16);
    ShiftRightDivides(v, 16);
  }

  lemma AndHextet(h: nat)
    requires h < HEXTET
    ensures And(h, 0xffff) == h
  {
    Pow32();
    AndLow(h, 16, HEXTET);
    assert h % HEXTET == h;
  }

  lemma HighHalf(v: nat)
    requires v < TWO32
    ensures And(Shr(v, 16), 0xffff) == v / HEXTET
  {
    HalvesAreHextets(v);
    ShrHalf(v);
    AndHextet(v / HEXTET);
  }

  lemma LowHalf(v: nat)
    requires v < TWO32
    ensures And(v, 0xffff) == v % HEXTET
  {
    Pow32();
    AndLow(v, 16, HEXTET);
  }

  /** The text of the groups before another one. */
  function Prefix(groups: seq<string>): string { if groups == [] then "" else Join(groups, ':') + ":" }

  function Front(head: Option<seq<string>>, groups: seq<string>): string { Start(head) + Prefix(groups) }

  lemma WrittenWith(head: Option<seq<string>>, groups: seq<string>, last: string)
    ensures Written(Spelling(head, groups + [last])) == Front(head, groups) + last
    ensures Front(head, groups + [last]) == Front(head, groups) + last + ":"
  {
    if groups == [] {
      assert Join([] + [last], ':') == last;
    } else {
      JoinAppend(groups, [last], ':');
    }
  }

  lemma OneMoreValue(groups: seq<string>, last: string)
    requires AllHextets(groups) && IsGroup(last)
    ensures Groups(groups + [last]) && Values(groups + [last]) == HextetValues(groups) + GroupValue(last)
  {
    assert (groups + [last])[..|groups|] == groups;
  }

  lemma OneMoreHextet(groups: seq<string>, h: nat)
    requires AllHextets(groups) && h < HEXTET
    ensures AllHextets(groups + [Hex(h)]) && HextetValues(groups + [Hex(h)]) == HextetValues(groups) + [h]
  {
    HexOfHextet(h);
    assert (groups + [Hex(h)])[..|groups|] == groups;
  }

  /** The quad of a spelling written as two hextets. */
  function TwoHextets(groups: seq<string>, v: nat): seq<string> { groups + [Hex(v / HEXTET)] + [Hex(v % HEXTET)] }

  lemma AppendTwo(hs: seq<nat>, high: nat, low: nat)
    ensures hs + [high] + [low] == hs + [high, low]
  {
  }

  lemma TwoHextetsAreTheQuad(groups: seq<string>, quad: string, v: nat)
    requires AllHextets(groups) && !IsHextet(quad) && Ipv4.Parse(quad) == Some(v) && v < TWO32
    ensures AllHextets(TwoHextets(groups, v)) && Groups(TwoHextets(groups, v)) && Groups(groups + [quad])
    ensures Values(groups + [quad]) == Values(TwoHextets(groups, v))
  {
    HalvesAreHextets(v);
    OneMoreValue(groups, quad);
    OneMoreHextet(groups, v / HEXTET);
    OneMoreHextet(groups + [Hex(v / HEXTET)], v % HEXTET);
    HextetsAreValues(TwoHextets(groups, v));
    AppendTwo(HextetValues(groups), v / HEXTET, v % HEXTET);
  }

  lemma SameValues(head: Option<seq<string>>, a: seq<string>, b: seq<string>)
    requires Groups(a) && Groups(b) && Values(a) == Values(b)
    ensures WellFormed(Spelling(head, a)) <==> WellFormed(Spelling(head, b))
    ensures WellFormed(Spelling(head, a)) ==> Denoted(Spelling(head, a)) == Denoted(Spelling(head, b))
  {
  }

  lemma TwoHextetsDenoteTheQuad(head: Option<seq<string>>, groups: seq<string>, quad: string, v: nat)
    requires AllHextets(groups) && !IsHextet(quad) && Ipv4.Parse(quad) == Some(v) && v < TWO32
    ensures var (dotted, plain) := (Spelling(head, groups + [quad]), Spelling(head, TwoHextets(groups, v)));
      && AllHextets(plain.tail) && (WellFormed(dotted) <==> WellFormed(plain))
      && (WellFormed(dotted) ==> Denoted(dotted) == Denoted(plain))
  {
    TwoHextetsAreTheQuad(groups, quad, v);
    SameValues(head, groups + [quad], TwoHextets(groups, v));
  }

  lemma TwoHextetsWritten(head: Option<seq<string>>, groups: seq<string>, v: nat)
    ensures Written(Spelling(head, TwoHextets(groups, v))) ==
      Front(head, groups) + Hex(v / HEXTET) + ":" + Hex(v % HEXTET)
  {
    WrittenWith(head, groups, Hex(v / HEXTET));
    WrittenWith(head, groups + [Hex(v / HEXTET)], Hex(v % HEXTET));
  }

  lemma QuadIsNoHextet(quad: string)
    requires Ipv4.Parse(quad).Some?
    ensures !IsHextet(quad) && ':' !in quad && '.' in quad
  {
    Ipv4.QuadText(quad);
  }

  lemma UndottedIs(text: string, before: string, quad: string, v: nat, high: nat, low: nat)
    requires '.' in text && LastIndexOf(text, ':') == |before|
    requires text[..|before|] == before && text[|before| + 1..] == quad && Ipv4.Parse(quad) == Some(v)
    requires And(Shr(v, 16), 0xffff) == high && And(v, 0xffff) == low
    ensures Undotted(text) == Some(before + ":" + Hex(high) + ":" + Hex(low))
  {
  }

  /** A text that ends in a colon and a dotted quad. */
  lemma UndottedTail(before: string, quad: string, v: nat)
    requires Ipv4.Parse(quad) == Some(v)
    ensures v < TWO32
    ensures Undotted(before + ":" + quad) == Some(before + ":" + Hex(v / HEXTET) + ":" + Hex(v % HEXTET))
  {
    Ipv4.ParsedIsSmall(quad);
    HighHalf(v);
    LowHalf(v);
    QuadIsTheTail(before, quad);
    UndottedIs(before + ":" + quad, before, quad, v, v / HEXTET, v % HEXTET);
  }

  lemma QuadIsTheTail(before: string, quad: string)
    requires Ipv4.Parse(quad).Some?
    ensures var text := before + ":" + quad;
      && '.' in text && LastIndexOf(text, ':') == |before|
      && text[..|before|] == before && text[|before| + 1..] == quad
  {
    QuadIsNoHextet(quad);
    LastIndexIs(before, ':', quad);
    InTheTail(before + ":", quad, '.');
    Cut(before, quad);
  }

  lemma InTheTail(a: string, b: string, c: char)
    requires c in b
    ensures c in a + b
  {
  }

  lemma Cut(before: string, after: string)
    ensures var text := before + ":" + after;
      text[..|before|] == before && text[|before| + 1..] == after
  {
  }

  lemma FrontEndsInColon(head: Option<seq<string>>, groups: seq<string>) returns (before: string)
    requires head.Some? || groups != []
    ensures Front(head, groups) == before + ":"
  {
    before := if groups != [] then Start(head) + Join(groups, ':') else Join(head.value, ':') + ":";
  }

  lemma DottedIsParsed(head: Option<seq<string>>, groups: seq<string>, quad: string)
    requires AllHextets(groups) && Ipv4.Parse(quad).Some?
    requires WellFormed(Spelling(head, groups + [quad]))
    ensures var sp := Spelling(head, groups + [quad]);
      LowerParts(Written(sp)) == Some(Denoted(sp))
  {
    var v := Ipv4.Parse(quad).value;
    QuadIsNoHextet(quad);
    OneMoreValue(groups, quad);
    var before := FrontEndsInColon(head, groups);
    UndottedTail(before, quad, v);
    WrittenWith(head, groups, quad);
    TwoHextetsWritten(head, groups, v);
    TwoHextetsDenoteTheQuad(head, groups, quad, v);
    PlainIsParsed(Spelling(head, TwoHextets(groups, v)));
  }

  lemma SpelledIsParsed(sp: Spelling)
    requires WellFormed(sp)
    ensures LowerParts(Written(sp)) == Some(Denoted(sp))
  {
    if AllHextets(sp.tail) {
      PlainIsParsed(sp);
    } else {
      FrontAndLast(sp.tail);
      DottedIsParsed(sp.head, sp.tail[..|sp.tail| - 1], sp.tail[|sp.tail| - 1]);
    }
  }

  // ---- What is parsed is spelled ----

  predicate ColonEnd(s: string) { s == "" || s[|s| - 1] == ':' }

  lemma LastAfterColon(a: string, x: string)
    requires ColonEnd(a) && ':' !in x
    ensures LastIndexOf(a + x, ':') == |a| - 1
  {
    if a == "" {
      assert a + x == x;
    } else {
      assert a == a[..|a| - 1] + ":";
      LastIndexIs(a[..|a| - 1], ':', x);
    }
  }

  lemma SameLast(a: string, x: string, b: string, y: string)
    requires a + x == b + y && ':' !in x && ':' !in y && ColonEnd(a) && ColonEnd(b)
    ensures a == b && x == y
  {
    LastAfterColon(a, x);
    LastAfterColon(b, y);
    assert a == (a + x)[..|a|] && b == (b + y)[..|b|];
    assert x == (a + x)[|a|..] && y == (b + y)[|b|..];
  }

  predicate IsLast(last: string) { last != "" && ':' !in last }

  lemma NoColonEnd(before: string, last: string)
    requires IsLast(last)
    ensures !ColonEnd(before + last)
  {
    assert (before + last)[|before + last| - 1] == last[|last| - 1];
  }

  lemma FrontIsColonEnd(head: Option<seq<string>>, groups: seq<string>)
    ensures ColonEnd(Front(head, groups)) && ColonEnd(Start(head))
  {
    if head.Some? || groups != [] { var before := FrontEndsInColon(head, groups); }
  }

  lemma LastOfFront(head: Option<seq<string>>, front: seq<string>, group: string, before: string, last: string)
    requires ':' !in group && ':' !in last && ColonEnd(before)
    requires Front(head, front) + group == before + last
    ensures group == last && Front(head, front) == before
  {
    FrontIsColonEnd(head, front);
    SameLast(Front(head, front), group, before, last);
  }

  lemma NothingIsColonEnd(head: Option<seq<string>>)
    ensures ColonEnd(Written(Spelling(head, [])))
  {
    FrontIsColonEnd(head, []);
    assert Written(Spelling(head, [])) == Start(head);
  }

  /** The last group of a text can be read off it. */
  lemma LastGroup(head: Option<seq<string>>, groups: seq<string>, before: string, last: string)
    requires AllHextets(groups) && ColonEnd(before) && IsLast(last)
    requires Written(Spelling(head, groups)) == before + last
    ensures groups != [] && groups[|groups| - 1] == last && Front(head, groups[..|groups| - 1]) == before
  {
    var n := |groups| - 1;
    NoColonEnd(before, last);
    NothingIsColonEnd(head);
    if groups != [] {
      FrontAndLast(groups);
      WrittenWith(head, groups[..n], groups[n]);
      HextetText(groups[n]);
      LastOfFront(head, groups[..n], groups[n], before, last);
    }
  }

  lemma FrontIsWritten(head: Option<seq<string>>, groups: seq<string>, text: string)
    requires Front(head, groups) == text + ":" && !ColonEnd(text)
    ensures groups != [] && Written(Spelling(head, groups)) == text
  {
    if groups == [] {
      assert head.Some?;
      assert (Join(head.value, ':') + ":") + ":" == text + ":";
      SameFront(Join(head.value, ':') + ":", text);
    } else {
      assert Written(Spelling(head, groups)) + ":" == text + ":";
      SameFront(Written(Spelling(head, groups)), text);
    }
  }

  lemma SameFront(a: string, b: string)
    requires a + ":" == b + ":"
    ensures a == b
  {
    assert a == (a + ":")[..|a|] && b == (b + ":")[..|b|];
  }

  /** So can the one before it. */
  lemma GroupBefore(head: Option<seq<string>>, groups: seq<string>, before: string, last: string)
    requires AllHextets(groups) && ColonEnd(before) && IsLast(last)
    requires Front(head, groups) == before + last + ":"
    ensures groups != [] && groups[|groups| - 1] == last && Front(head, groups[..|groups| - 1]) == before
  {
    NoColonEnd(before, last);
    FrontIsWritten(head, groups, before + last);
    LastGroup(head, groups, before, last);
  }

  lemma ParsedIsDotted(text: string, parts: seq<nat>) returns (sp: Spelling)
    requires '.' in text && LowerParts(text) == Some(parts)
    ensures WellFormed(sp) && Written(sp) == text && Denoted(sp) == parts
  {
    var before, quad := QuadTail(text);
    var v := Ipv4.Parse(quad).value;
    UndottedTail(before, quad, v);
    sp := QuadSpelling(before, quad, v, parts);
  }

  lemma QuadTail(text: string) returns (before: string, quad: string)
    requires '.' in text && Undotted(text).Some?
    ensures text == before + ":" + quad && Ipv4.Parse(quad).Some?
  {
    var k := LastIndexOf(text, ':');
    before, quad := text[..k], text[k + 1..];
    CutAt(text, k);
  }

  lemma CutAt(text: string, k: nat)
    requires k < |text|
    ensures text == text[..k] + [text[k]] + text[k + 1..]
  {
  }

  lemma QuadSpelling(before: string, quad: string, v: nat, parts: seq<nat>) returns (sp: Spelling)
    requires Ipv4.Parse(quad) == Some(v) && v < TWO32
    requires PlainParts(before + ":" + Hex(v / HEXTET) + ":" + Hex(v % HEXTET)) == Some(parts)
    ensures WellFormed(sp) && Written(sp) == before + ":" + quad && Denoted(sp) == parts
  {
    var plain := ParsedIsPlain(before + ":" + Hex(v / HEXTET) + ":" + Hex(v % HEXTET), parts);
    var groups := DropQuad(plain.head, plain.tail, before + ":", v);
    QuadIsNoHextet(quad);
    TwoHextetsDenoteTheQuad(plain.head, groups, quad, v);
    WrittenWith(plain.head, groups, quad);
    sp := Spelling(plain.head, groups + [quad]);
    assert plain == Spelling(plain.head, TwoHextets(groups, v));
  }

  lemma DropQuad(head: Option<seq<string>>, tail: seq<string>, before: string, v: nat) returns (groups: seq<string>)
    requires AllHextets(tail) && ColonEnd(before)
    requires Written(Spelling(head, tail)) == before + Hex(v / HEXTET) + ":" + Hex(v % HEXTET)
    ensures AllHextets(groups) && tail == TwoHextets(groups, v) && Front(head, groups) == before
  {
    LastGroup(head, tail, before + Hex(v / HEXTET) + ":", Hex(v % HEXTET));
    groups := DropHigh(head, tail[..|tail| - 1], before, Hex(v / HEXTET));
    FrontAndLast(tail);
  }

  lemma FrontAndLast(groups: seq<string>)
    requires groups != []
    ensures groups == groups[..|groups| - 1] + [groups[|groups| - 1]]
  {
  }

  lemma DropHigh(head: Option<seq<string>>, front: seq<string>, before: string, high: string)
    returns (groups: seq<string>)
    requires AllHextets(front) && ColonEnd(before) && IsLast(high)
    requires Front(head, front) == before + high + ":"
    ensures AllHextets(groups) && front == groups + [high] && Front(head, groups) == before
  {
    GroupBefore(head, front, before, high);
    groups := front[..|front| - 1];
    FrontAndLast(front);
  }

  predicate Spells(sp: Spelling, text: string, parts: seq<nat>) {
    WellFormed(sp) && Written(sp) == text && Denoted(sp) == parts
  }

  /** A text is parsed into eight parts if and only if, once normalized, some spelling of them reads so. */
  lemma PartsIff(address: string, parts: seq<nat>)
    ensures Parts(address) == Some(parts) <==> exists sp :: Spells(sp, NormalizeHostname(address), parts)
  {
    var text := NormalizeHostname(address);
    if Parts(address) == Some(parts) {
      if '.' in text {
        var sp := ParsedIsDotted(text, parts);
        assert Spells(sp, text, parts);
      } else {
        var sp := ParsedIsPlain(text, parts);
        assert Spells(sp, text, parts);
      }
    }
    if sp :| Spells(sp, text, parts) {
      SpelledIsParsed(sp);
    }
  }

  // ---- Either case ----

  function LowerAll(groups: seq<string>): seq<string> {
    seq(|groups|, i requires 0 <= i < |groups| => Lower(groups[i]))
  }

  lemma {:induction false} LowerOfJoin(groups: seq<string>)
    ensures Lower(Join(groups, ':')) == Join(LowerAll(groups), ':')
  {
    if |groups| >= 2 {
      LowerOfJoin(groups[1..]);
      LowerAppend(groups[0] + [':'], Join(groups[1..], ':'));
      LowerAppend(groups[0], [':']);
      assert LowerAll(groups)[1..] == LowerAll(groups[1..]);
    }
  }

  lemma {:induction false} LowerHextets(groups: seq<string>)
    requires AllHextets(groups)
    ensures AllHextets(LowerAll(groups)) && HextetValues(LowerAll(groups)) == HextetValues(groups)
  {
    if groups != [] {
      LowerHextets(groups[..|groups| - 1]);
      HexOfLower(groups[|groups| - 1]);
      assert LowerAll(groups)[..|groups| - 1] == LowerAll(groups[..|groups| - 1]);
    }
  }

  lemma LowerGroup(group: string)
    requires IsGroup(group)
    ensures IsGroup(Lower(group)) && GroupValue(Lower(group)) == GroupValue(group)
  {
    if IsHextet(group) {
      HexOfLower(group);
    } else {
      Ipv4.QuadNormalized(group);
    }
  }

  lemma LowerGroups(groups: seq<string>)
    requires Groups(groups)
    ensures Groups(LowerAll(groups)) && Values(LowerAll(groups)) == Values(groups)
  {
    if groups != [] {
      var n := |groups| - 1;
      LowerHextets(groups[..n]);
      LowerGroup(groups[n]);
      assert LowerAll(groups)[..n] == LowerAll(groups[..n]);
    }
  }

  function LowerSpelling(sp: Spelling): Spelling {
    Spelling(if sp.head.Some? then Some(LowerAll(sp.head.value)) else None, LowerAll(sp.tail))
  }

  lemma LowerDenotesTheSame(sp: Spelling)
    requires WellFormed(sp)
    ensures WellFormed(LowerSpelling(sp)) && Denoted(LowerSpelling(sp)) == Denoted(sp)
  {
    LowerHextets(Head(sp));
    LowerGroups(sp.tail);
  }

  lemma LowerWritten(sp: Spelling)
    ensures Lower(Written(sp)) == Written(LowerSpelling(sp))
  {
    LowerAppend(Start(sp.head), Join(sp.tail, ':'));
    LowerOfJoin(sp.tail);
    if sp.head.Some? {
      LowerAppend(Join(sp.head.value, ':'), "::");
      LowerOfJoin(sp.head.value);
    }
  }

  /** Text made of address characters that does not end in a dot. */
  predicate Untrimmed(s: string) { AddressText(s) && (s != "" ==> s[|s| - 1] != '.') }

  lemma GroupText(group: string)
    requires IsGroup(group)
    ensures Untrimmed(group)
  {
    if !IsHextet(group) {
      Ipv4.QuadText(group);
      Ipv4.QuadNormalized(group);
    }
  }

  lemma {:induction false} JoinUntrimmed(groups: seq<string>)
    requires forall i | 0 <= i < |groups| :: Untrimmed(groups[i])
    ensures Untrimmed(Join(groups, ':'))
  {
    if |groups| >= 2 { JoinUntrimmed(groups[1..]); }
  }

  lemma GroupsUntrimmed(groups: seq<string>)
    requires Groups(groups)
    ensures Untrimmed(Join(groups, ':'))
  {
    forall i | 0 <= i < |groups| ensures Untrimmed(groups[i]) {
      assert i < |groups| - 1 ==> groups[i] == groups[..|groups| - 1][i];
      GroupText(groups[i]);
    }
    JoinUntrimmed(groups);
  }

  lemma WrittenUntrimmed(sp: Spelling)
    requires WellFormed(sp)
    ensures Untrimmed(Written(sp))
  {
    GroupsUntrimmed(Head(sp));
    GroupsUntrimmed(sp.tail);
    AppendUntrimmed(Start(sp.head), Join(sp.tail, ':'));
  }

  lemma AppendUntrimmed(a: string, b: string)
    requires Untrimmed(a) && Untrimmed(b)
    ensures Untrimmed(a + b)
  {
  }

  lemma SpelledParts(sp: Spelling)
    requires WellFormed(sp)
    ensures Parts(Written(sp)) == Some(Denoted(sp))
  {
    WrittenUntrimmed(sp);
    NormalizingLowers(Written(sp));
    LowerWritten(sp);
    LowerDenotesTheSame(sp);
    SpelledIsParsed(LowerSpelling(sp));
  }

  /**
    Every spelling, in letters of either case and with or without leading zeros, is parsed as the
    number it denotes.
   */
  lemma SpellingExpands(sp: Spelling)
    requires WellFormed(sp)
    ensures Parse(Written(sp)) == Some(Fold(Denoted(sp)))
  {
    SpelledParts(sp);
  }

  lemma SpelledExpands(sp: Spelling, text: string, parts: seq<nat>)
    requires Spells(sp, text, parts)
    ensures Parse(text) == Some(Fold(parts))
  {
    SpellingExpands(sp);
  }

  lemma CompressedSpelling(ls: seq<string>, rs: seq<string>)
    requires AllHextets(ls) && Groups(rs) && |ls| + |Values(rs)| <= 7
    ensures WellFormed(Spelling(Some(ls), rs))
    ensures Written(Spelling(Some(ls), rs)) == Join(ls, ':') + "::" + Join(rs, ':')
  {
  }

  lemma CompressedDenotes(ls: seq<string>, rs: seq<string>)
    requires WellFormed(Spelling(Some(ls), rs))
    ensures Denoted(Spelling(Some(ls), rs)) == Filled(HextetValues(ls), Values(rs))
  {
  }

  /** `::` between two lists of groups stands for the hextets that are missing. */
  lemma CompressionExpands(ls: seq<string>, rs: seq<string>)
    requires AllHextets(ls) && Groups(rs) && |ls| + |Values(rs)| <= 7
    ensures Parse(Join(ls, ':') + "::" + Join(rs, ':')) ==
      Some(Fold(Filled(HextetValues(ls), Values(rs))))
  {
    CompressedSpelling(ls, rs);
    CompressedDenotes(ls, rs);
    SpelledExpands(Spelling(Some(ls), rs), Join(ls, ':') + "::" + Join(rs, ':'),
                   Filled(HextetValues(ls), Values(rs)));
  }

  lemma DottedSpelling(ls: seq<string>, quad: string, v: nat)
    requires AllHextets(ls) && |ls| == 6 && Ipv4.Parse(quad) == Some(v)
    ensures Spells(Spelling(None, ls + [quad]), Join(ls, ':') + ":" + quad, HextetValues(ls) + Halves(v))
  {
    QuadIsNoHextet(quad);
    OneMoreValue(ls, quad);
    WrittenWith(None, ls, quad);
    assert Front(None, ls) == Join(ls, ':') + ":";
    FilledAlready(HextetValues(ls) + Halves(v));
  }

  /** Six hextets and any dotted quad denote eight hextets. */
  lemma DottedTailExpands(ls: seq<string>, quad: string, v: nat)
    requires AllHextets(ls) && |ls| == 6 && Ipv4.Parse(quad) == Some(v)
    ensures Parse(Join(ls, ':') + ":" + quad) == Some(Fold(HextetValues(ls) + Halves(v)))
  {
    DottedSpelling(ls, quad, v);
    SpelledExpands(Spelling(None, ls + [quad]), Join(ls, ':') + ":" + quad, HextetValues(ls) + Halves(v));
  }

  // ---- Printing, then parsing ----

  lemma HexAllFront(hs: seq<nat>)
    requires hs != []
    ensures HexAll(hs)[..|hs| - 1] == HexAll(hs[..|hs| - 1]) && HexAll(hs)[|hs| - 1] == Hex(hs[|hs| - 1])
    ensures hs == hs[..|hs| - 1] + [hs[|hs| - 1]]
  {
  }

  lemma {:induction false} HexAllAreHextets(hs: seq<nat>)
    requires Hextets(hs)
    ensures AllHextets(HexAll(hs))
  {
    forall i | 0 <= i < |hs| ensures IsHextet(HexAll(hs)[i]) { HexOfHextet(hs[i]); }
  }

  lemma {:induction false} HexAllValues(hs: seq<nat>)
    requires Hextets(hs) && AllHextets(HexAll(hs))
    ensures HextetValues(HexAll(hs)) == hs
  {
    if hs != [] {
      HexAllFront(hs);
      HexAllValues(hs[..|hs| - 1]);
      HexOfHextet(hs[|hs| - 1]);
    }
  }

  lemma PrintedSpelling(hs: seq<nat>)
    requires Hextets(hs) && |hs| == 8
    ensures Spells(Spelling(None, HexAll(hs)), Colons(hs), hs)
  {
    HexAllAreHextets(hs);
    HexAllValues(hs);
    FullSpelling(HexAll(hs));
  }

  /** Parsing a printed address gives the number back. */
  lemma PrintThenParse(v: nat)
    requires v < Pow2(128)
    ensures Parse(Print(v)) == Some(v)
  {
    var hs := LowHextets(v, 8);
    PrintedSpelling(hs);
    SpelledExpands(Spelling(None, HexAll(hs)), Colons(hs), hs);
    FoldOfHextets(v, 8);
  }
}
