/**
  JavaScript strings as sequences of UTF-16 code units, with the `<` order that
  string comparison uses and the white space that `trim` removes.
 */
module Text {
  newtype Unit = x: int | 0 <= x < 0x10000
  type Text = seq<Unit>

  /** The code units `String.prototype.trim` strips (all of them lie in the basic plane). */
  predicate IsSpaceCode(u: int) {
    || 9 <= u <= 13 || u == 32 || u == 0xA0 || u == 0x1680 || 0x2000 <= u <= 0x200A
    || u == 0x2028 || u == 0x2029 || u == 0x202F || u == 0x205F || u == 0x3000 || u == 0xFEFF
  }

  predicate IsSpace(u: Unit) { IsSpaceCode(u as int) }

  /** `trim().length === 0` */
  predicate Blank(s: Text) { forall i | 0 <= i < |s| :: IsSpace(s[i]) }

  predicate Less(a: Text, b: Text) {
    b != [] && (a == [] || a[0] < b[0] || (a[0] == b[0] && Less(a[1..], b[1..])))
  }

  predicate LessEq(a: Text, b: Text) { a == b || Less(a, b) }

  lemma LessIrreflexive(a: Text)
    ensures !Less(a, a)
  {
  }

  lemma {:induction false} LessTransitive(a: Text, b: Text, c: Text)
    requires Less(a, b) && Less(b, c)
    ensures Less(a, c)
  {
    if a != [] && a[0] == b[0] == c[0] { LessTransitive(a[1..], b[1..], c[1..]); }
  }

  lemma {:induction false} LessTotal(a: Text, b: Text)
    ensures Less(a, b) || a == b || Less(b, a)
  {
    if a != [] && b != [] && a[0] == b[0] {
      LessTotal(a[1..], b[1..]);
      assert a == [a[0]] + a[1..] && b == [b[0]] + b[1..];
    }
  }

  /** The order of strings is decided at the first unit that differs; a proper prefix comes first. */
  lemma {:induction false} LessIff(a: Text, b: Text)
    ensures Less(a, b) <==>
      exists i :: 0 <= i <= |a| && i < |b| && a[..i] == b[..i] && (i < |a| ==> a[i] < b[i])
  {
    forall i | 0 < i <= |a| && i <= |b| && a[..i] == b[..i] ensures a[0] == b[0] {
      assert a[..i][0] == b[..i][0];
    }
    if a != [] && b != [] && a[0] == b[0] {
      LessIff(a[1..], b[1..]);
      if i :| 0 <= i <= |a[1..]| && i < |b[1..]| && a[1..][..i] == b[1..][..i]
              && (i < |a[1..]| ==> a[1..][i] < b[1..][i])
      {
        assert a[..i + 1] == [a[0]] + a[1..][..i] && b[..i + 1] == [b[0]] + b[1..][..i];
      }
      if i :| 0 <= i <= |a| && i < |b| && a[..i] == b[..i] && (i < |a| ==> a[i] < b[i]) {
        assert i > 0;
        assert a[1..][..i - 1] == a[..i][1..] && b[1..][..i - 1] == b[..i][1..];
      }
    } else if b != [] {
      assert a[..0] == b[..0];
      if i :| 0 <= i <= |a| && i < |b| && a[..i] == b[..i] && (i < |a| ==> a[i] < b[i]) {
        assert i == 0;
      }
    }
  }

  lemma LessIsATotalOrder()
    ensures forall a :: !Less(a, a)
    ensures forall a, b, c :: Less(a, b) && Less(b, c) ==> Less(a, c)
    ensures forall a, b :: Less(a, b) || a == b || Less(b, a)
  {
    forall a ensures !Less(a, a) { LessIrreflexive(a); }
    forall a, b, c | Less(a, b) && Less(b, c) ensures Less(a, c) { LessTransitive(a, b, c); }
    forall a, b ensures Less(a, b) || a == b || Less(b, a) { LessTotal(a, b); }
  }
}
