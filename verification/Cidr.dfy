/** Membership of an address text in a prefix rule (section 3.1 of RFC 4632). */
module Cidr {
  import opened Options
  import opened Bits
  import opened Strings
  import Ipv4
  import Ipv6

  datatype Rule = V4(base: nat, prefix: nat) | V6(base: nat, prefix: nat)

  /** What parseCidrRule lets through. */
  predicate ValidRule(rule: Rule) {
    match rule
    case V4(base, prefix) => base < TWO32 && prefix <= 32
    case V6(base, prefix) => base < Pow2(128) && prefix <= 128
  }

  predicate IsMapped(parts: seq<nat>)
    requires |parts| == 8
  {
    (forall i | 0 <= i < 5 :: parts[i] == 0) && parts[5] == 0xffff
  }

  function QuadOf(p6: nat, p7: nat): string {
    Join([Ipv4.Digits(Ipv4.Octet(p6, 8)), Ipv4.Digits(And(p6, 255)),
          Ipv4.Digits(Ipv4.Octet(p7, 8)), Ipv4.Digits(And(p7, 255))], '.')
  }

  function MappedQuad(parts: Option<seq<nat>>): Option<string> {
    if parts.Some? && |parts.value| == 8 && IsMapped(parts.value) then Some(QuadOf(parts.value[6], parts.value[7]))
    else None
  }

  /** The dotted quad inside an IPv4-mapped address (section 2.5.5.2 of RFC 4291). */
  function MappedIpv4(address: string): Option<string> { MappedQuad(Ipv6.Parts(address)) }

  predicate UnderMask6(value: nat, base: nat, prefix: nat)
    requires prefix <= 128
  {
    var mask := if prefix == 0 then 0 else Ones(prefix, 128 - prefix);
    BitAnd(value, mask) == BitAnd(base, mask)
  }

  predicate IsIpv6InRange(value: nat, baseAddress: string, prefix: nat)
    requires prefix <= 128
  {
    var base := Ipv6.Parse(baseAddress);
    base.Some? && UnderMask6(value, base.value, prefix)
  }

  /** `isIpInCidr`, with its round trips through text. */
  predicate IsIpInCidr(address: string, rule: Rule)
    requires ValidRule(rule)
  {
    var mapped := MappedIpv4(address);
    var normalized := if mapped.Some? then mapped.value else address;
    match rule
    case V4(base, prefix) => Rule4(Ipv4.Parse(normalized), base, prefix)
    case V6(base, prefix) => Rule6(Ipv6.Parse(normalized), base, prefix)
  }

  predicate Rule4(numeric: Option<nat>, base: nat, prefix: nat)
    requires prefix <= 32
  {
    numeric.Some? && Ipv4.InRange(numeric.value, Ipv4.NumberToIpv4(base), prefix)
  }

  predicate Rule6(numeric: Option<nat>, base: nat, prefix: nat)
    requires prefix <= 128
  {
    numeric.Some? && IsIpv6InRange(numeric.value, Ipv6.Print(base), prefix)
  }

  // ---- The meaning ----

  datatype Address = Ip4(value: nat) | Ip6(value: nat) | NotAnAddress

  /** A mapped address denotes the IPv4 address inside it. */
  function MeaningOf(parts: seq<nat>): Address
    requires |parts| == 8
  {
    if IsMapped(parts) then Ip4(parts[6] * Ipv6.HEXTET + parts[7]) else Ip6(Ipv6.Fold(parts))
  }

  function Meaning(parts: Option<seq<nat>>, quad: Option<nat>): Address {
    if parts.Some? && |parts.value| == 8 then MeaningOf(parts.value)
    else if quad.Some? then Ip4(quad.value)
    else NotAnAddress
  }

  /** What the parsers make of an address text. */
  function Denotes(address: string): Address { Meaning(Ipv6.Parts(address), Ipv4.Parse(address)) }

  lemma NotIpv6(address: string)
    requires Ipv4.Parse(address).Some?
    ensures Ipv6.Parts(address).None?
  {
    Ipv4.QuadText(address);
    Ipv4.QuadNormalized(address);
    assert ':' !in address;
  }

  lemma OctetsOf(a: nat, b: nat, c: nat, d: nat)
    requires a < 256 && b < 256 && c < 256 && d < 256
    ensures var v := (a * 0x100 + b) * 0x1_0000 + (c * 0x100 + d);
      v / 0x100_0000 == a && v / 0x1_0000 == a * 0x100 + b && v / 0x100 == (a * 0x100 + b) * 0x100 + c && v % 0x100 == d
  {
    var v := (a * 0x100 + b) * 0x1_0000 + (c * 0x100 + d);
    assert v == ((a * 0x100 + b) * 0x100 + c) * 0x100 + d;
    assert v == a * 0x100_0000 + (b * 0x1_0000 + c * 0x100 + d);
  }

  lemma SmallHalves(p6: nat, p7: nat, v: nat)
    requires p6 < Ipv6.HEXTET && p7 < Ipv6.HEXTET && v == p6 * Ipv6.HEXTET + p7
    ensures v < TWO32
    ensures v / 0x100_0000 % 256 == p6 / 0x100 && v / 0x1_0000 % 256 == p6 % 256
    ensures v / 0x100 % 256 == p7 / 0x100 && v % 256 == p7 % 256
  {
    var a, b, c, d := p6 / 0x100, p6 % 0x100, p7 / 0x100, p7 % 0x100;
    assert p6 == a * 0x100 + b && p7 == c * 0x100 + d;
    OctetsOf(a, b, c, d);
    LowOctet(v / 0x1_0000, a, b);
    LowOctet(v / 0x100, a * 0x100 + b, c);
    LowOctet(v / 0x100_0000, 0, a);
  }

  lemma LowOctet(x: nat, high: nat, low: nat)
    requires x == high * 0x100 + low && low < 0x100
    ensures x % 256 == low
  {
  }

  lemma HighOfHalf(p: nat, shifted: nat, octet: int)
    requires p < Ipv6.HEXTET && shifted == p / 0x100 && octet == shifted % 256
    ensures octet == p / 0x100
  {
  }

  lemma HighOctet(p: nat)
    requires p < Ipv6.HEXTET
    ensures Ipv4.Octet(p, 8) == p / 0x100
  {
    Pow32();
    ShiftRightDivides(p, 8);
    Ipv4.OctetIs(p, 8);
    HighOfHalf(p, ShiftRight(p, 8), Ipv4.Octet(p, 8));
  }

  lemma HalfOctets(p: nat)
    requires p < Ipv6.HEXTET
    ensures Ipv4.Octet(p, 8) == p / 0x100 && And(p, 255) == p % 256
  {
    HighOctet(p);
    Ipv4.And255(p);
  }

  lemma QuadOfHalves(p6: nat, p7: nat, v: nat)
    requires p6 < Ipv6.HEXTET && p7 < Ipv6.HEXTET && v == p6 * Ipv6.HEXTET + p7
    ensures v < TWO32 && QuadOf(p6, p7) == Ipv4.NumberToIpv4(v)
  {
    SmallHalves(p6, p7, v);
    HalfOctets(p6);
    HalfOctets(p7);
    assert QuadOf(p6, p7) == Join(Ipv4.Quad(v), '.');
    Ipv4.PrintedQuad(v);
  }

  lemma ParsedQuad(p6: nat, p7: nat, v: nat)
    requires p6 < Ipv6.HEXTET && p7 < Ipv6.HEXTET && v == p6 * Ipv6.HEXTET + p7
    ensures Ipv4.Parse(QuadOf(p6, p7)) == Some(v) && v < TWO32
  {
    QuadOfHalves(p6, p7, v);
    Ipv4.PrintThenParse(v);
  }

  /** The text a mapped address is turned into denotes the same IPv4 address. */
  lemma MappedText(parts: Option<seq<nat>>, quad: Option<nat>, dotted: string)
    requires MappedQuad(parts) == Some(dotted) && Ipv6.Hextets(parts.value)
    ensures var a := Meaning(parts, quad);
      a.Ip4? && a.value < TWO32 && Ipv4.Parse(dotted) == Some(a.value)
  {
    ParsedQuad(parts.value[6], parts.value[7], Meaning(parts, quad).value);
  }

  lemma Range6IsPrefixEquality(value: nat, base: nat, prefix: nat)
    requires value < Pow2(128) && base < Pow2(128) && prefix <= 128
    ensures UnderMask6(value, base, prefix) <==> ShiftRight(value, 128 - prefix) == ShiftRight(base, 128 - prefix)
  {
    if prefix == 0 {
      ShiftedOut(value, 128);
      ShiftedOut(base, 128);
    } else {
      MaskedEqual(value, base, prefix, 128 - prefix);
    }
  }

  /** The address is of the rule's family and agrees with its base in the top `prefix` bits. */
  predicate Matches(a: Address, rule: Rule)
    requires ValidRule(rule)
  {
    match rule
    case V4(base, prefix) => a.Ip4? && ShiftRight(a.value, 32 - prefix) == ShiftRight(base, 32 - prefix)
    case V6(base, prefix) => a.Ip6? && ShiftRight(a.value, 128 - prefix) == ShiftRight(base, 128 - prefix)
  }

  lemma Rule4Is(value: nat, base: nat, prefix: nat, printed: string)
    requires prefix <= 32 && Ipv4.Parse(printed) == Some(base)
    ensures Ipv4.InRange(value, printed, prefix) <==> Ipv4.UnderMask(value, base, prefix)
  {
  }

  lemma Rule4Matches(value: nat, base: nat, prefix: nat)
    requires value < TWO32 && ValidRule(V4(base, prefix))
    ensures Rule4(Some(value), base, prefix) <==> Matches(Ip4(value), V4(base, prefix))
  {
    Ipv4.PrintThenParse(base);
    Rule4Is(value, base, prefix, Ipv4.NumberToIpv4(base));
    Ipv4.RangeIsPrefixEquality(value, base, prefix);
  }

  lemma Rule6Is(value: nat, base: nat, prefix: nat, printed: string)
    requires prefix <= 128 && Ipv6.Parse(printed) == Some(base)
    ensures IsIpv6InRange(value, printed, prefix) <==> UnderMask6(value, base, prefix)
  {
  }

  lemma Rule6Matches(value: nat, base: nat, prefix: nat)
    requires value < Pow2(128) && ValidRule(V6(base, prefix))
    ensures Rule6(Some(value), base, prefix) <==> Matches(Ip6(value), V6(base, prefix))
  {
    Ipv6.PrintThenParse(base);
    Rule6Is(value, base, prefix, Ipv6.Print(base));
    Range6IsPrefixEquality(value, base, prefix);
  }

  /**
    For every text and every valid rule, membership is prefix equality of what the text
    denotes; so a mapped address is matched by IPv4 rules only.
   */
  lemma MembershipIsPrefixEquality(address: string, rule: Rule)
    requires ValidRule(rule)
    ensures IsIpInCidr(address, rule) <==> Matches(Denotes(address), rule)
  {
    var parts, quad := Ipv6.Parts(address), Ipv4.Parse(address);
    if quad.Some? {
      NotIpv6(address);
      Ipv4.ParsedIsSmall(address);
    }
    if parts.Some? {
      Ipv6.ParsedParts(address);
    }
    if MappedQuad(parts).Some? {
      MappedText(parts, quad, MappedQuad(parts).value);
      NotIpv6(MappedQuad(parts).value);
    }
    match rule
    case V4(base, prefix) =>
      if Denotes(address).Ip4? { Rule4Matches(Denotes(address).value, base, prefix); }
    case V6(base, prefix) =>
      if Denotes(address).Ip6? { Rule6Matches(Denotes(address).value, base, prefix); }
  }

  // ---- By the grammar alone ----

  ghost predicate SixSpelled(address: string, a: Address) {
    exists sp, parts :: Ipv6.Spells(sp, NormalizeHostname(address), parts) && a == MeaningOf(parts)
  }

  ghost predicate FourSpelled(address: string, a: Address) {
    exists quad, v :: Ipv4.Spells(quad, address, v) && a == Ip4(v)
  }

  /** The text is a spelling of the address: eight parts after normalizing, or four octets as they stand. */
  ghost predicate Means(address: string, a: Address) { SixSpelled(address, a) || FourSpelled(address, a) }

  lemma SixSpelledIff(address: string, a: Address)
    ensures SixSpelled(address, a) <==> Ipv6.Parts(address).Some? && a == MeaningOf(Ipv6.Parts(address).value)
  {
    var parts := Ipv6.Parts(address);
    if parts.Some? {
      Ipv6.PartsIff(address, parts.value);
    }
    if sp, ps :| Ipv6.Spells(sp, NormalizeHostname(address), ps) && a == MeaningOf(ps) {
      Ipv6.PartsIff(address, ps);
    }
  }

  lemma FourSpelledIff(address: string, a: Address)
    ensures FourSpelled(address, a) <==> Ipv4.Parse(address).Some? && a == Ip4(Ipv4.Parse(address).value)
  {
    var v := Ipv4.Parse(address);
    if v.Some? {
      Ipv4.ParseIff(address, v.value);
    }
    if quad, n :| Ipv4.Spells(quad, address, n) && a == Ip4(n) {
      Ipv4.ParseIff(address, n);
    }
  }

  /** The parsers make of a text exactly what it spells. */
  lemma DenotesIff(address: string, a: Address)
    requires a != NotAnAddress
    ensures Denotes(address) == a <==> Means(address, a)
  {
    SixSpelledIff(address, a);
    FourSpelledIff(address, a);
    if Ipv4.Parse(address).Some? { NotIpv6(address); }
  }

  /** A text is in a range if and only if it spells an address of that family with the range's prefix. */
  lemma MembershipIff(address: string, rule: Rule)
    requires ValidRule(rule)
    ensures IsIpInCidr(address, rule) <==> exists a :: Means(address, a) && Matches(a, rule)
  {
    MembershipIsPrefixEquality(address, rule);
    if Denotes(address) != NotAnAddress { DenotesIff(address, Denotes(address)); }
    if a :| Means(address, a) && Matches(a, rule) { DenotesIff(address, a); }
  }

  // ---- By value ----

  lemma {:induction false} FoldIsZero(hs: seq<nat>)
    ensures Fold0(hs) <==> forall i | 0 <= i < |hs| :: hs[i] == 0
  {
    if hs != [] { FoldIsZero(hs[..|hs| - 1]); }
  }

  predicate Fold0(hs: seq<nat>) { Ipv6.Fold(hs) == 0 }

  lemma FoldOfLast(hs: seq<nat>, last: nat)
    ensures Ipv6.Fold(hs + [last]) == Ipv6.HEXTET * Ipv6.Fold(hs) + last
  {
    assert (hs + [last])[..|hs|] == hs;
  }

  /** A value in three parts: all but 48 bits, one hextet, and the low 32 bits. */
  lemma FoldOfEight(parts: seq<nat>)
    requires |parts| == 8 && Ipv6.Hextets(parts)
    ensures Ipv6.Fold(parts) ==
      (Ipv6.HEXTET * Ipv6.Fold(parts[..5]) + parts[5]) * TWO32 + (parts[6] * Ipv6.HEXTET + parts[7])
  {
    assert parts[..6] == parts[..5] + [parts[5]];
    assert parts[..7] == parts[..6] + [parts[6]];
    assert parts == parts[..7] + [parts[7]];
    FoldOfLast(parts[..5], parts[5]);
    FoldOfLast(parts[..6], parts[6]);
    FoldOfLast(parts[..7], parts[7]);
  }

  /** Eight parts mean an IPv4 address exactly when their value is that address below the prefix ::ffff:0:0/96. */
  lemma MappedByValue(parts: seq<nat>, v: nat)
    requires |parts| == 8 && Ipv6.Hextets(parts)
    ensures MeaningOf(parts) == Ip4(v) <==> v < 0x1_0000_0000 && Ipv6.Fold(parts) == 0xffff * 0x1_0000_0000 + v
    ensures MeaningOf(parts) == Ip6(v) <==> Ipv6.Fold(parts) == v && v / 0x1_0000_0000 != 0xffff
  {
    var top, low := Ipv6.HEXTET * Ipv6.Fold(parts[..5]) + parts[5], parts[6] * Ipv6.HEXTET + parts[7];
    FoldOfEight(parts);
    FoldIsZero(parts[..5]);
    assert IsMapped(parts) <==> top == 0xffff;
    DivModUnique(Ipv6.Fold(parts), TWO32, top, low);
    if v < TWO32 { DivModUnique(0xffff * TWO32 + v, TWO32, 0xffff, v); }
  }

  /** The value a text has as an IPv4 address, dotted or mapped. */
  predicate HasValue4(address: string, v: nat) {
    Ipv4.Parse(address) == Some(v) || (v < 0x1_0000_0000 && Ipv6.Parse(address) == Some(0xffff * 0x1_0000_0000 + v))
  }

  predicate HasValue6(address: string, v: nat) {
    Ipv6.Parse(address) == Some(v) && v / 0x1_0000_0000 != 0xffff
  }

  lemma MeaningByValue(parts: Option<seq<nat>>, quad: Option<nat>, v: nat)
    requires parts.Some? ==> quad.None? && |parts.value| == 8 && Ipv6.Hextets(parts.value)
    ensures var six := if parts.Some? then Some(Ipv6.Fold(parts.value)) else None;
      && (Meaning(parts, quad) == Ip4(v) <==>
            quad == Some(v) || (v < 0x1_0000_0000 && six == Some(0xffff * 0x1_0000_0000 + v)))
      && (Meaning(parts, quad) == Ip6(v) <==> six == Some(v) && v / 0x1_0000_0000 != 0xffff)
  {
    if parts.Some? { MappedByValue(parts.value, v); }
  }

  lemma DenotesByValue(address: string, v: nat)
    ensures Denotes(address) == Ip4(v) <==> HasValue4(address, v)
    ensures Denotes(address) == Ip6(v) <==> HasValue6(address, v)
  {
    if Ipv4.Parse(address).Some? { NotIpv6(address); }
    if Ipv6.Parts(address).Some? { Ipv6.ParsedParts(address); }
    MeaningByValue(Ipv6.Parts(address), Ipv4.Parse(address), v);
  }

  /** Membership by the numbers the two parsers give. */
  lemma MembershipByValueIff(address: string, rule: Rule)
    requires ValidRule(rule)
    ensures IsIpInCidr(address, rule) <==>
      match rule
      case V4(base, prefix) =>
        exists v :: HasValue4(address, v) && ShiftRight(v, 32 - prefix) == ShiftRight(base, 32 - prefix)
      case V6(base, prefix) =>
        exists v :: HasValue6(address, v) && ShiftRight(v, 128 - prefix) == ShiftRight(base, 128 - prefix)
  {
    MembershipIsPrefixEquality(address, rule);
    forall v ensures Denotes(address) == Ip4(v) <==> HasValue4(address, v) { DenotesByValue(address, v); }
    forall v ensures Denotes(address) == Ip6(v) <==> HasValue6(address, v) { DenotesByValue(address, v); }
    if Denotes(address).Ip4? { assert HasValue4(address, Denotes(address).value); }
    if Denotes(address).Ip6? { assert HasValue6(address, Denotes(address).value); }
  }

  // ---- Mapped addresses as text ----

  lemma FoldOfThree(values: seq<nat>, top: nat, high: nat, low: nat)
    requires values == [top, high, low] && Ipv6.Hextets(values)
    ensures Ipv6.Fold(Ipv6.Filled([], values)) == top * TWO32 + (high * Ipv6.HEXTET + low)
  {
    var parts := Ipv6.Filled([], values);
    assert parts[..5] == Ipv6.Zeros(5);
    FoldIsZero(Ipv6.Zeros(5));
    FoldOfEight(parts);
  }

  lemma FoldOfMapped(values: seq<nat>, v: nat)
    requires values == [0xffff] + Ipv6.Halves(v) && v < TWO32
    ensures |values| == 3 && Ipv6.Fold(Ipv6.Filled([], values)) == 0xffff * TWO32 + v
  {
    FoldOfThree(values, 0xffff, v / Ipv6.HEXTET, v % Ipv6.HEXTET);
  }

  lemma MappedValues(group: string, quad: string, v: nat)
    requires IsHextet(group) && HexValue(group) == 0xffff && Ipv4.Parse(quad) == Some(v)
    ensures Ipv6.Groups([group] + [quad])
    ensures Ipv6.Values([group] + [quad]) == [0xffff] + Ipv6.Halves(v)
  {
    assert Ipv6.HextetValues([group]) == [0xffff];
    Ipv6.QuadIsNoHextet(quad);
    Ipv6.OneMoreValue([group], quad);
  }

  lemma LeadingDouble(groups: seq<string>, values: seq<nat>)
    requires Ipv6.Groups(groups) && Ipv6.Values(groups) == values && |values| <= 7
    ensures Ipv6.Parse("::" + Join(groups, ':')) == Some(Ipv6.Fold(Ipv6.Filled([], values)))
  {
    Ipv6.CompressionExpands([], groups);
    NothingBefore(Join(groups, ':'));
  }

  lemma NothingBefore(text: string)
    ensures Join([], ':') + "::" + text == "::" + text
  {
  }

  lemma MappedSpelling(groups: seq<string>, group: string, quad: string, v: nat)
    requires groups == [group] + [quad] && v < TWO32
    requires IsHextet(group) && HexValue(group) == 0xffff && Ipv4.Parse(quad) == Some(v)
    ensures Ipv6.Parse("::" + Join(groups, ':')) == Some(0xffff * TWO32 + v)
  {
    MappedValues(group, quad, v);
    var values := Ipv6.Values(groups);
    FoldOfMapped(values, v);
    LeadingDouble(groups, values);
  }

  lemma HexFfff()
    ensures IsHextet("ffff") && HexValue("ffff") == 0xffff
  {
    assert "ffff"[..3] == "fff" && "fff"[..2] == "ff" && "ff"[..1] == "f" && "f"[..0] == "";
  }

  lemma MappedTextIs(quad: string)
    ensures "::ffff:" + quad == "::" + Join(["ffff"] + [quad], ':')
  {
  }

  lemma MappedTextValue(v: nat)
    requires v < TWO32
    ensures Ipv6.Parse("::ffff:" + Ipv4.NumberToIpv4(v)) == Some(0xffff * TWO32 + v)
  {
    var quad := Ipv4.NumberToIpv4(v);
    Ipv4.PrintThenParse(v);
    HexFfff();
    MappedSpelling(["ffff"] + [quad], "ffff", quad, v);
    MappedTextIs(quad);
  }

  lemma OneValue4(address: string, v: nat, u: nat)
    requires HasValue4(address, v)
    ensures HasValue4(address, u) <==> u == v
    ensures !HasValue6(address, u)
  {
    DenotesByValue(address, v);
    DenotesByValue(address, u);
  }

  lemma ValueDecides(address: string, v: nat, rule: Rule)
    requires HasValue4(address, v) && ValidRule(rule)
    ensures IsIpInCidr(address, rule) <==>
      rule.V4? && ShiftRight(v, 32 - rule.prefix) == ShiftRight(rule.base, 32 - rule.prefix)
  {
    MembershipByValueIff(address, rule);
    forall u ensures (HasValue4(address, u) <==> u == v) && !HasValue6(address, u) { OneValue4(address, v, u); }
  }

  /**
    An IPv4 address is in an IPv4 range exactly when their top bits agree, and in no IPv6
    range, whether it is written as a dotted quad or mapped.
   */
  lemma MappedTextMembership(v: nat, rule: Rule)
    requires v < 0x1_0000_0000 && ValidRule(rule)
    ensures var inside := rule.V4? && ShiftRight(v, 32 - rule.prefix) == ShiftRight(rule.base, 32 - rule.prefix);
      && (IsIpInCidr(Ipv4.NumberToIpv4(v), rule) <==> inside)
      && (IsIpInCidr("::ffff:" + Ipv4.NumberToIpv4(v), rule) <==> inside)
  {
    Ipv4.PrintThenParse(v);
    ValueDecides(Ipv4.NumberToIpv4(v), v, rule);
    MappedTextValue(v);
    ValueDecides("::ffff:" + Ipv4.NumberToIpv4(v), v, rule);
  }

  /** A printed IPv6 address that is not mapped is in an IPv6 range exactly when their top bits agree. */
  lemma PrintedMembership(v: nat, rule: Rule)
    requires v < Pow2(128) && v / 0x1_0000_0000 != 0xffff && ValidRule(rule)
    ensures IsIpInCidr(Ipv6.Print(v), rule) <==>
      rule.V6? && ShiftRight(v, 128 - rule.prefix) == ShiftRight(rule.base, 128 - rule.prefix)
  {
    var address := Ipv6.Print(v);
    Ipv6.PrintThenParse(v);
    DenotesByValue(address, v);
    MembershipIsPrefixEquality(address, rule);
  }
}
