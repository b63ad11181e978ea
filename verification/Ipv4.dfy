/** Dotted-quad addresses (apps/api/src/common/outbound-probe-safety.ts). */
module Ipv4 {
  import opened Options
  import opened Bits
  import opened Strings
  import Decimal

  predicate IsOctet(part: string) { Decimal.Numeral(part) && Decimal.Value(part) <= 255 }

  predicate IsQuad(parts: seq<string>) { |parts| == 4 && forall i | 0 <= i < |parts| :: IsOctet(parts[i]) }

  function QuadValue(parts: seq<string>): (v: nat)
    requires forall i | 0 <= i < |parts| :: IsOctet(parts[i])
  {
    if parts == [] then 0
    else
      assert IsOctet(parts[|parts| - 1]);
      256 * QuadValue(parts[..|parts| - 1]) + Decimal.Value(parts[|parts| - 1])
  }

  /** The 32-bit number a dotted quad denotes. */
  function Parse(address: string): Option<nat> {
    var parts := Split(address, '.');
    if IsQuad(parts) then Some(QuadValue(parts)) else None
  }

  predicate Spells(quad: seq<string>, text: string, v: nat) {
    IsQuad(quad) && Join(quad, '.') == text && QuadValue(quad) == v
  }

  /** A text is parsed if and only if it is four octets with dots between them. */
  lemma ParseIff(address: string, v: nat)
    ensures Parse(address) == Some(v) <==> exists quad :: Spells(quad, address, v)
  {
    if Parse(address) == Some(v) {
      JoinOfSplit(address, '.');
      assert Spells(Split(address, '.'), address, v);
    }
    if quad :| Spells(quad, address, v) {
      forall i | 0 <= i < |quad| ensures '.' !in quad[i] { assert IsOctet(quad[i]); }
      SplitOfJoin(quad, '.');
    }
  }

  lemma QuadIsSmall(parts: seq<string>)
    requires |parts| <= 4 && forall i | 0 <= i < |parts| :: IsOctet(parts[i])
    ensures QuadValue(parts) < Pow2(8 * |parts|) <= TWO32
  {
    Pow2Grows(8 * |parts|, 32);
    Pow32();
    QuadBound(parts);
  }

  lemma {:induction false} QuadBound(parts: seq<string>)
    requires forall i | 0 <= i < |parts| :: IsOctet(parts[i])
    ensures QuadValue(parts) < Pow2(8 * |parts|)
  {
    if parts != [] {
      QuadBound(parts[..|parts| - 1]);
      assert IsOctet(parts[|parts| - 1]);
      Pow2Adds(8, 8 * (|parts| - 1));
      assert Pow2(8) == 256;
    }
  }

  lemma OneMoreOctet(parts: seq<string>, i: nat, result: int)
    requires i < |parts| <= 4 && IsOctet(parts[i]) && forall k | 0 <= k < i :: IsOctet(parts[k])
    requires ToUint32(result) == QuadValue(parts[..i])
    ensures ToUint32(Shl(result, 8) + Decimal.Value(parts[i])) == QuadValue(parts[..i + 1])
  {
    var octet := Decimal.Value(parts[i]);
    assert parts[..i + 1][..i] == parts[..i];
    QuadIsSmall(parts[..i + 1]);
    assert QuadValue(parts[..i + 1]) == 256 * QuadValue(parts[..i]) + octet;
    AppendSmall(result, QuadValue(parts[..i]), octet);
  }

  lemma AppendSmall(result: int, value: nat, octet: nat)
    requires ToUint32(result) == value && octet <= 255 && 256 * value + octet < TWO32
    ensures ToUint32(Shl(result, 8) + octet) == 256 * value + octet
  {
    AppendOctet(result, octet);
  }

  /** The accumulator loop: shifts and additions on signed 32-bit numbers, made unsigned at the end. */
  method Ipv4ToNumber(address: string) returns (r: Option<int>)
    ensures r.Some? <==> Parse(address).Some?
    ensures r.Some? ==> r.value == Parse(address).value
  {
    var parts := Split(address, '.');
    if |parts| != 4 {
      return None;
    }
    var result: int := 0;
    for i := 0 to |parts|
      invariant forall k | 0 <= k < i :: IsOctet(parts[k])
      invariant ToUint32(result) == QuadValue(parts[..i])
    {
      if !Decimal.Numeral(parts[i]) {
        return None;
      }
      var octet := Decimal.Value(parts[i]);
      if octet > 255 {
        return None;
      }
      OneMoreOctet(parts, i, result);
      result := Shl(result, 8) + octet;
    }
    assert parts[..|parts|] == parts;
    assert Pow2(0) == 1;
    return Some(Shr(result, 0));
  }

  function Octet(value: int, shift: nat): int { And(Shr(value, shift), 255) }

  function NumberToIpv4(value: int): string {
    Join([Digits(Octet(value, 24)), Digits(Octet(value, 16)), Digits(Octet(value, 8)), Digits(And(value, 255))], '.')
  }

  /** `String(n)` for the non-negative numbers that occur. */
  function Digits(n: int): string { if n >= 0 then Decimal.Print(n) else "-" + Decimal.Print(-n) }

  lemma And255(x: nat)
    requires x < TWO32
    ensures And(x, 255) == x % 256
  {
    Pow32();
    AndLow(x, 8, 256);
  }

  lemma OctetIs(value: nat, shift: nat)
    requires value < TWO32 && shift < 32
    ensures Octet(value, shift) == ShiftRight(value, shift) % 256
  {
    ShrIs(value, shift);
    And255(ShiftRight(value, shift));
  }

  /** The four octets of a 32-bit number rebuild it. */
  lemma OctetsRebuild(v: nat)
    requires v < TWO32
    ensures 256 * (256 * (256 * (v / 0x100_0000 % 256) + v / 0x1_0000 % 256) + v / 0x100 % 256) + v % 256 == v
  {
    var a, b, c := v / 0x100, v / 0x1_0000, v / 0x100_0000;
    assert v == 256 * a + v % 256;
    assert a == 256 * b + a % 256;
    assert b == 256 * c + b % 256;
    assert c % 256 == c;
  }

  function Quad(v: nat): seq<string> {
    [Decimal.Print(v / 0x100_0000 % 256), Decimal.Print(v / 0x1_0000 % 256),
     Decimal.Print(v / 0x100 % 256), Decimal.Print(v % 256)]
  }

  lemma PrintedQuad(v: nat)
    requires v < TWO32
    ensures NumberToIpv4(v) == Join(Quad(v), '.')
  {
    Pow32();
    OctetIs(v, 24);
    OctetIs(v, 16);
    OctetIs(v, 8);
    ShiftRightDivides(v, 24);
    ShiftRightDivides(v, 16);
    ShiftRightDivides(v, 8);
    And255(v);
  }

  lemma QuadParts(v: nat)
    ensures IsQuad(Quad(v)) && forall i | 0 <= i < 4 :: '.' !in Quad(v)[i]
    ensures Decimal.Value(Quad(v)[0]) == v / 0x100_0000 % 256 && Decimal.Value(Quad(v)[1]) == v / 0x1_0000 % 256
    ensures Decimal.Value(Quad(v)[2]) == v / 0x100 % 256 && Decimal.Value(Quad(v)[3]) == v % 256
  {
    Decimal.PrintThenParse(v / 0x100_0000 % 256);
    Decimal.PrintThenParse(v / 0x1_0000 % 256);
    Decimal.PrintThenParse(v / 0x100 % 256);
    Decimal.PrintThenParse(v % 256);
  }

  /** Parsing a printed address gives the number back. */
  lemma PrintThenParse(v: nat)
    requires v < TWO32
    ensures Parse(NumberToIpv4(v)) == Some(v)
  {
    PrintedQuad(v);
    QuadParts(v);
    SplitOfJoin(Quad(v), '.');
    QuadValueOfFour(Quad(v));
    OctetsRebuild(v);
  }

  lemma QuadValueOfFour(parts: seq<string>)
    requires IsQuad(parts)
    ensures QuadValue(parts) == 256 * (256 * (256 * Decimal.Value(parts[0]) + Decimal.Value(parts[1]))
      + Decimal.Value(parts[2])) + Decimal.Value(parts[3])
  {
    assert parts[..3][..2] == parts[..2] && parts[..2][..1] == parts[..1] && parts[..1][..0] == [];
    assert QuadValue(parts[..1]) == Decimal.Value(parts[0]);
    assert QuadValue(parts[..2]) == 256 * QuadValue(parts[..1]) + Decimal.Value(parts[1]);
    assert QuadValue(parts[..3]) == 256 * QuadValue(parts[..2]) + Decimal.Value(parts[2]);
  }

  lemma ParsedIsSmall(address: string)
    requires Parse(address).Some?
    ensures Parse(address).value < TWO32
  {
    QuadIsSmall(Split(address, '.'));
  }

  /** A dotted quad consists of digits and dots, and both ends are digits. */
  lemma QuadText(address: string)
    requires Parse(address).Some?
    ensures forall x | x in address :: x == '.' || '0' <= x <= '9'
    ensures address != "" && address[0] != '.' && address[|address| - 1] != '.' && '.' in address
  {
    var parts := Split(address, '.');
    forall x | x in address && x != '.' ensures '0' <= x <= '9' {
      SplitChars(address, x, '.');
      var i :| 0 <= i < |parts| && x in parts[i];
      assert IsOctet(parts[i]);
    }
    SplitEnds(address, '.');
    assert IsOctet(parts[0]) && IsOctet(parts[3]);
    if '.' !in address { SplitNone(address, '.'); }
  }

  lemma QuadNormalized(address: string)
    requires Parse(address).Some?
    ensures AddressText(address) && Lower(address) == address && NormalizeHostname(address) == address
  {
    QuadText(address);
    forall i | 0 <= i < |address| ensures '0' <= address[i] <= '9' || address[i] == '.' {
      assert address[i] in address;
    }
    NormalizingLowers(address);
  }

  // ---- Prefixes ----

  /** `isIpv4InRange` on the already parsed base. */
  predicate UnderMask(value: int, base: int, prefix: nat)
    requires prefix <= 32
  {
    var mask := if prefix == 0 then 0 else Shr(Shl(0xffff_ffff, 32 - prefix), 0);
    And(value, mask) == And(base, mask)
  }

  predicate InRange(value: int, baseAddress: string, prefix: nat)
    requires prefix <= 32
  {
    var base := Parse(baseAddress);
    base.Some? && UnderMask(value, base.value, prefix)
  }

  /** Membership is equality of the top `prefix` bits, whatever the signs of the masked numbers. */
  lemma RangeIsPrefixEquality(value: nat, base: nat, prefix: nat)
    requires value < TWO32 && base < TWO32 && prefix <= 32
    ensures UnderMask(value, base, prefix) <==> ShiftRight(value, 32 - prefix) == ShiftRight(base, 32 - prefix)
  {
    Pow32();
    if prefix == 0 {
      ShiftedOut(value, 32);
      ShiftedOut(base, 32);
      AndAgrees(value, base, 0);
    } else {
      PrefixMask32(prefix);
      AndAgrees(value, base, Ones(prefix, 32 - prefix));
      MaskedEqual(value, base, prefix, 32 - prefix);
    }
  }
}
