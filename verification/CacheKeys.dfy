/** Permission cache keys and the patterns that invalidate them (packages/auth-core/src/permission-cache.ts). */
module CacheKeys {
  import opened Options
  import opened Strings
  import Utf8

  /** The six components, versions already printed. */
  datatype CacheKey = CacheKey(
    tenant: string, user: string, userVersion: string, space: string, spaceVersion: string, hash: string)

  function Components(k: CacheKey): seq<string> { [k.tenant, k.user, k.userVersion, k.space, k.spaceVersion, k.hash] }

  function SanitizeAll(cs: seq<string>): seq<string> { seq(|cs|, i requires 0 <= i < |cs| => Utf8.Sanitize(cs[i])) }

  /** Everything after `perm:`. */
  function Tail(k: CacheKey): string { Join(SanitizeAll(Components(k)), ':') }

  /** `buildPermissionCacheKey` */
  function Build(k: CacheKey): string { "perm:" + Tail(k) }

  /** Text without separators or characters that mean something in a pattern. */
  predicate Plain(s: string) { forall i | 0 <= i < |s| :: s[i] !in ":*?[]\\" }

  lemma SanitizedIsPlain(s: string)
    ensures Plain(Utf8.Sanitize(s)) && ':' !in Utf8.Sanitize(s)
  {
    Utf8.SanitizeIsSanitized(s);
  }

  lemma SanitizeIsInjective(s: string, t: string)
    ensures Utf8.Sanitize(s) == Utf8.Sanitize(t) <==> s == t
  {
    Utf8.SanitizeThenDesanitize(s);
    Utf8.SanitizeThenDesanitize(t);
  }

  predicate AllPlain(parts: seq<string>) { forall i | 0 <= i < |parts| :: Plain(parts[i]) && ':' !in parts[i] }

  lemma ComponentsArePlain(k: CacheKey)
    ensures AllPlain(SanitizeAll(Components(k)))
  {
    forall i | 0 <= i < 6 ensures Plain(SanitizeAll(Components(k))[i]) && ':' !in SanitizeAll(Components(k))[i] {
      SanitizedIsPlain(Components(k)[i]);
    }
  }

  /** Two keys have the same text only if all six components agree. */
  lemma BuildIsInjective(k: CacheKey, l: CacheKey)
    ensures Build(k) == Build(l) <==> k == l
  {
    if Build(k) == Build(l) {
      assert Tail(k) == Build(k)[5..] && Tail(l) == Build(l)[5..];
      ComponentsArePlain(k);
      ComponentsArePlain(l);
      SplitOfJoin(SanitizeAll(Components(k)), ':');
      SplitOfJoin(SanitizeAll(Components(l)), ':');
      forall i | 0 <= i < 6 ensures Components(k)[i] == Components(l)[i] {
        assert SanitizeAll(Components(k))[i] == SanitizeAll(Components(l))[i];
        SanitizeIsInjective(Components(k)[i], Components(l)[i]);
      }
      SameComponents(k, l);
    }
  }

  lemma SameComponents(k: CacheKey, l: CacheKey)
    requires forall i | 0 <= i < 6 :: Components(k)[i] == Components(l)[i]
    ensures k == l
  {
    assert Components(k)[0] == Components(l)[0] && Components(k)[1] == Components(l)[1];
    assert Components(k)[2] == Components(l)[2] && Components(k)[3] == Components(l)[3];
    assert Components(k)[4] == Components(l)[4] && Components(k)[5] == Components(l)[5];
  }

  // ---- Glob patterns ----

  /** The store's matcher, on patterns without bracket classes. */
  predicate Match(p: string, s: string)
    requires '[' !in p
    decreases |p| + |s|
  {
    if p == "" then s == ""
    else if p[0] == '*' then Match(p[1..], s) || (s != "" && Match(p, s[1..]))
    else if p[0] == '?' then s != "" && Match(p[1..], s[1..])
    else if p[0] == '\\' && |p| >= 2 then s != "" && s[0] == p[1] && Match(p[2..], s[1..])
    else s != "" && s[0] == p[0] && Match(p[1..], s[1..])
  }

  /** `escapeRedisGlobPattern` */
  function EscapeGlob(s: string): string {
    if s == "" then "" else (if s[0] in "\\*?[]" then ['\\', s[0]] else [s[0]]) + EscapeGlob(s[1..])
  }

  lemma {:induction false} EscapingPlain(s: string)
    requires Plain(s)
    ensures EscapeGlob(s) == s
  {
    if s != "" {
      EscapingPlain(s[1..]);
      assert s[0] !in ":*?[]\\";
      assert s == [s[0]] + s[1..];
    }
  }

  /** A pattern component matches itself literally: sanitized text needs no escaping. */
  function Literal(s: string): (p: string)
    ensures p == Utf8.Sanitize(s) && Plain(p) && ':' !in p
  {
    SanitizedIsPlain(s);
    EscapingPlain(Utf8.Sanitize(s));
    EscapeGlob(Utf8.Sanitize(s))
  }

  predicate Starts(s: string, a: string) { |a| <= |s| && s[..|a|] == a }

  lemma {:induction false} MatchPlain(a: string, p: string, s: string)
    requires Plain(a) && '[' !in p
    ensures Match(a + p, s) <==> Starts(s, a) && Match(p, s[|a|..])
  {
    if a == "" {
      assert a + p == p && s[0..] == s;
    } else {
      assert a[0] !in ":*?[]\\";
      assert (a + p)[1..] == a[1..] + p;
      if s != "" {
        MatchPlain(a[1..], p, s[1..]);
        assert Starts(s, a) <==> s[0] == a[0] && Starts(s[1..], a[1..]);
        assert |s| >= |a| ==> s[1..][|a| - 1..] == s[|a|..];
      }
    }
  }

  lemma MatchColon(p: string, s: string)
    requires '[' !in p
    ensures Match(":" + p, s) <==> s != "" && s[0] == ':' && Match(p, s[1..])
  {
    assert (":" + p)[1..] == p;
  }

  lemma {:induction false} StarTakesAll(s: string)
    ensures Match("*", s)
  {
    if s != "" { StarTakesAll(s[1..]); } else { assert "*"[1..] == ""; }
  }

  /** `a:p` */
  function Then(a: string, p: string): string { a + ":" + p }

  /** A literal component matches exactly the first part. */
  lemma MatchFirst(a: string, p: string, parts: seq<string>)
    requires Plain(a) && ':' !in a && '[' !in p && AllPlain(parts) && parts != []
    ensures Match(Then(a, p), Join(parts, ':')) <==> |parts| >= 2 && parts[0] == a && Match(p, Join(parts[1..], ':'))
  {
    var j := Join(parts, ':');
    assert Then(a, p) == a + (":" + p);
    MatchPlain(a, ":" + p, j);
    if Starts(j, a) { MatchColon(p, j[|a|..]); }
    if |parts| >= 2 {
      SameFirst(a, parts[0], j, Join(parts[1..], ':'));
    }
  }

  /** Up to its first colon, a text reads in one way only. */
  lemma SameFirst(a: string, b: string, j: string, rest: string)
    requires ':' !in a && ':' !in b && j == b + ":" + rest
    ensures Starts(j, a) && |a| < |j| && j[|a|] == ':' <==> a == b
    ensures j[|b| + 1..] == rest && Starts(j, b) && |b| < |j| && j[|b|] == ':'
  {
    assert j[|b|] == ':' && j[..|b|] == b;
    if Starts(j, a) && |a| < |j| && j[|a|] == ':' {
      var m := if |a| < |b| then |a| else |b|;
      assert j[..|a| + 1] == a + ":" && j[..|b| + 1] == b + ":";
      assert (a + ":")[m] == j[m] == (b + ":")[m];
      assert a == j[..m] == b;
    }
  }

  lemma {:induction false} SkipToColon(a: string, p: string, s: string)
    requires ':' !in a && '[' !in p
    ensures Match(Then("*", p), a + s) <==> Match(Then("*", p), s)
  {
    if a == "" {
      assert a + s == s;
    } else {
      var q := Then("*", p);
      assert q[1..] == ":" + p && (a + s)[1..] == a[1..] + s;
      MatchColon(p, a + s);
      SkipToColon(a[1..], p, s);
    }
  }

  /** The pattern matches after one of the colons. */
  predicate SomeTail(parts: seq<string>, p: string)
    requires '[' !in p
  {
    |parts| >= 2 && (Match(p, Join(parts[1..], ':')) || SomeTail(parts[1..], p))
  }

  /** A star component stands for one part or more. */
  lemma {:induction false} MatchStar(p: string, parts: seq<string>)
    requires '[' !in p && AllPlain(parts) && parts != []
    ensures Match(Then("*", p), Join(parts, ':')) <==> SomeTail(parts, p)
  {
    var q := Then("*", p);
    assert q[1..] == ":" + p;
    if |parts| == 1 {
      SkipToColon(parts[0], p, "");
      assert parts[0] + "" == parts[0];
      MatchColon(p, "");
    } else {
      var j := Join(parts[1..], ':');
      assert Join(parts, ':') == parts[0] + (":" + j);
      SkipToColon(parts[0], p, ":" + j);
      MatchColon(p, ":" + j);
      assert (":" + j)[1..] == j;
      MatchStar(p, parts[1..]);
    }
  }

  /** A component and a star: the part is there and is not the last. */
  lemma MatchEnd(a: string, parts: seq<string>)
    requires Plain(a) && ':' !in a && AllPlain(parts) && parts != []
    ensures Match(Then(a, "*"), Join(parts, ':')) <==> |parts| >= 2 && parts[0] == a
  {
    MatchFirst(a, "*", parts);
    StarTakesAll(if |parts| >= 2 then Join(parts[1..], ':') else "");
  }

  /** n star components, a literal one and a final star. */
  function Stars(n: nat, a: string): (p: string)
    requires Plain(a)
    ensures '[' !in p
  {
    if n == 0 then Then(a, "*") else Then("*", Stars(n - 1, a))
  }

  /** One of the parts from the n-th to the last but one is a. */
  predicate Between(parts: seq<string>, n: nat, a: string) { exists i | n <= i < |parts| - 1 :: parts[i] == a }

  lemma {:induction false} StarsIff(n: nat, a: string, parts: seq<string>)
    requires n >= 1 && Plain(a) && ':' !in a && AllPlain(parts) && parts != []
    ensures Match(Stars(n, a), Join(parts, ':')) <==> Between(parts, n, a)
    decreases n, |parts|, 1
  {
    MatchStar(Stars(n - 1, a), parts);
    TailsIff(n - 1, a, parts);
  }

  lemma {:induction false} TailsIff(n: nat, a: string, parts: seq<string>)
    requires Plain(a) && ':' !in a && AllPlain(parts) && parts != []
    ensures SomeTail(parts, Stars(n, a)) <==> Between(parts, n + 1, a)
    decreases n + 1, |parts|, 0
  {
    if |parts| >= 2 {
      var rest := parts[1..];
      TailsIff(n, a, rest);
      if n == 0 {
        MatchEnd(a, rest);
        assert Between(rest, 0, a) <==> (|rest| >= 2 && rest[0] == a) || Between(rest, 1, a);
      } else {
        StarsIff(n, a, rest);
        assert Between(rest, n + 1, a) ==> Between(rest, n, a);
      }
    }
  }

  // ---- The invalidation patterns ----

  function UserPattern(tenant: string, user: string): (p: string)
    ensures '[' !in p
  {
    Then("perm", Then(Literal(tenant), Then(Literal(user), "*")))
  }

  function SpacePattern(tenant: string, space: string): (p: string)
    ensures '[' !in p
  {
    Then("perm", Then(Literal(tenant), Stars(2, Literal(space))))
  }

  function UserPatternAcrossTenants(user: string): (p: string)
    ensures '[' !in p
  {
    Then("perm", Stars(1, Literal(user)))
  }

  function SpacePatternAcrossTenants(space: string): (p: string)
    ensures '[' !in p
  {
    Then("perm", Stars(3, Literal(space)))
  }

  /** The patterns as the source writes them. */
  lemma PatternTexts(tenant: string, user: string, space: string)
    ensures UserPattern(tenant, user) == "perm:" + Literal(tenant) + ":" + Literal(user) + ":*"
    ensures SpacePattern(tenant, space) == "perm:" + Literal(tenant) + ":*:*:" + Literal(space) + ":*"
    ensures UserPatternAcrossTenants(user) == "perm:*:" + Literal(user) + ":*"
    ensures SpacePatternAcrossTenants(space) == "perm:*:*:*:" + Literal(space) + ":*"
  {
    UserText(Literal(tenant), Literal(user));
    SpaceText(Literal(tenant), Literal(space));
    StarTexts(Literal(space));
    StarTexts(Literal(user));
    assert "perm" + ":" == "perm:";
    FlatText("perm:", "*:", Literal(user), ":*");
    FlatText("perm:", "*:*:*:", Literal(space), ":*");
    assert "perm:" + "*:" == "perm:*:" && "perm:" + "*:*:*:" == "perm:*:*:*:";
  }

  lemma FlatText(a: string, b: string, c: string, d: string)
    ensures a + (b + c + d) == a + b + c + d
  {
  }

  lemma UserText(t: string, u: string)
    ensures Then("perm", Then(t, Then(u, "*"))) == "perm:" + t + ":" + u + ":*"
  {
    assert "perm" + ":" == "perm:" && ":" + "*" == ":*";
    var end := Then(u, "*");
    assert end == u + ":*";
    FlatText("perm:", t, ":", end);
  }

  lemma SpaceText(t: string, s: string)
    requires Plain(s)
    ensures Then("perm", Then(t, Stars(2, s))) == "perm:" + t + ":*:*:" + s + ":*"
  {
    assert "perm" + ":" == "perm:" && ":" + "*:*:" == ":*:*:";
    StarTexts(s);
    FlatText("perm:", t, ":", "*:*:" + s + ":*");
    FlatText(":", "*:*:", s, ":*");
  }

  lemma OneStar(p: string)
    ensures Then("*", p) == "*:" + p
  {
    assert "*" + ":" == "*:";
  }

  lemma NoStars(a: string)
    requires Plain(a)
    ensures Stars(0, a) == a + ":*"
  {
    FlatEnd(a, ":", "*");
    assert ":" + "*" == ":*";
  }

  lemma FlatEnd(a: string, b: string, c: string)
    ensures a + b + c == a + (b + c)
  {
  }

  lemma StarTexts(a: string)
    requires Plain(a)
    ensures Stars(1, a) == "*:" + a + ":*" && Stars(2, a) == "*:*:" + a + ":*" && Stars(3, a) == "*:*:*:" + a + ":*"
  {
    NoStars(a);
    OneStar(Stars(0, a));
    MoreStars("", a);
    OneStar(Stars(1, a));
    MoreStars("*:", a);
    OneStar(Stars(2, a));
    MoreStars("*:*:", a);
  }

  lemma MoreStars(stars: string, a: string)
    ensures "*:" + (stars + a + ":*") == "*:" + stars + a + ":*"
    ensures "*:" + "" == "*:" && "" + a + ":*" == a + ":*" && "*:" + "*:" == "*:*:" && "*:" + "*:*:" == "*:*:*:"
  {
    assert "*:" + (stars + a + ":*") == "*:" + (stars + a) + ":*";
    assert "" + a == a;
  }

  function Sanitized(k: CacheKey): seq<string> { SanitizeAll(Components(k)) }

  /** The literal start of a pattern against the `perm` and tenant parts of a key. */
  lemma AfterPerm(p: string, k: CacheKey)
    requires '[' !in p
    ensures Match(Then("perm", p), Build(k)) <==> Match(p, Join(Sanitized(k), ':'))
  {
    ComponentsArePlain(k);
    var parts := ["perm"] + Sanitized(k);
    assert parts[1..] == Sanitized(k) && Build(k) == Join(parts, ':');
    MatchFirst("perm", p, parts);
  }

  lemma AfterTenant(tenant: string, p: string, k: CacheKey)
    requires '[' !in p
    ensures Match(Then("perm", Then(Literal(tenant), p)), Build(k)) <==>
      k.tenant == tenant && Match(p, Join(Sanitized(k)[1..], ':'))
  {
    AfterPerm(Then(Literal(tenant), p), k);
    ComponentsArePlain(k);
    MatchFirst(Literal(tenant), p, Sanitized(k));
    SanitizeIsInjective(tenant, k.tenant);
  }

  /** User invalidation hits exactly the keys of that tenant and user. */
  lemma UserPatternIff(tenant: string, user: string, k: CacheKey)
    ensures Match(UserPattern(tenant, user), Build(k)) <==> k.tenant == tenant && k.user == user
  {
    AfterTenant(tenant, Then(Literal(user), "*"), k);
    ComponentsArePlain(k);
    MatchEnd(Literal(user), Sanitized(k)[1..]);
    SanitizeIsInjective(user, k.user);
  }

  lemma BetweenComponents(k: CacheKey, from: nat, n: nat, a: string)
    requires from + n <= 5
    ensures Between(Sanitized(k)[from..], n, Utf8.Sanitize(a)) <==>
      exists i | from + n <= i < 5 :: Components(k)[i] == a
  {
    var parts, t := Sanitized(k)[from..], Utf8.Sanitize(a);
    forall i | 0 <= i < 6 ensures Sanitized(k)[i] == t <==> Components(k)[i] == a {
      SanitizeIsInjective(Components(k)[i], a);
    }
    if i :| n <= i < |parts| - 1 && parts[i] == t { assert Components(k)[from + i] == a; }
    if i :| from + n <= i < 5 && Components(k)[i] == a { assert parts[i - from] == t; }
  }

  /**
    Space invalidation hits every key of that tenant and space and none of another tenant; it
    also hits the tenant's keys whose space version happens to print like the space id.
   */
  lemma SpacePatternIff(tenant: string, space: string, k: CacheKey)
    ensures Match(SpacePattern(tenant, space), Build(k)) <==>
      k.tenant == tenant && (k.space == space || k.spaceVersion == space)
  {
    AfterTenant(tenant, Stars(2, Literal(space)), k);
    ComponentsArePlain(k);
    StarsIff(2, Literal(space), Sanitized(k)[1..]);
    BetweenComponents(k, 1, 2, space);
    assert Components(k)[3] == k.space && Components(k)[4] == k.spaceVersion;
  }

  /** Across tenants, a user id is looked for in every component but the tenant and the hash. */
  lemma UserPatternAcrossTenantsIff(user: string, k: CacheKey)
    ensures Match(UserPatternAcrossTenants(user), Build(k)) <==>
      k.user == user || k.userVersion == user || k.space == user || k.spaceVersion == user
  {
    AfterPerm(Stars(1, Literal(user)), k);
    ComponentsArePlain(k);
    StarsIff(1, Literal(user), Sanitized(k));
    BetweenComponents(k, 0, 1, user);
    assert Components(k)[1] == k.user && Components(k)[2] == k.userVersion;
    assert Components(k)[3] == k.space && Components(k)[4] == k.spaceVersion;
  }

  lemma SpacePatternAcrossTenantsIff(space: string, k: CacheKey)
    ensures Match(SpacePatternAcrossTenants(space), Build(k)) <==> k.space == space || k.spaceVersion == space
  {
    AfterPerm(Stars(3, Literal(space)), k);
    ComponentsArePlain(k);
    StarsIff(3, Literal(space), Sanitized(k));
    BetweenComponents(k, 0, 3, space);
    assert Components(k)[3] == k.space && Components(k)[4] == k.spaceVersion;
  }

  // ---- Deleting by pattern ----

  /** One full scan: pages of matching keys that together hold every matching key of the store. */
  predicate FullScan(store: set<string>, pattern: string, pages: seq<seq<string>>)
    requires '[' !in pattern
  {
    && (forall i, j | 0 <= i < |pages| && 0 <= j < |pages[i]| :: Match(pattern, pages[i][j]))
    && (forall key | key in store && Match(pattern, key) :: exists i | 0 <= i < |pages| :: key in pages[i])
  }

  /** `deleteByPattern`: pages may repeat keys or name keys already gone. */
  method DeleteByPattern(store: set<string>, pattern: string, pages: seq<seq<string>>) returns (left: set<string>)
    requires '[' !in pattern && FullScan(store, pattern, pages)
    ensures left == set key | key in store && !Match(pattern, key)
  {
    left := store;
    var cursor := 0;
    while cursor < |pages|
      invariant 0 <= cursor <= |pages|
      invariant forall key :: key in left <==> key in store && !exists i | 0 <= i < cursor :: key in pages[i]
    {
      left := left - set key | key in pages[cursor];
      cursor := cursor + 1;
    }
    forall key ensures key in left <==> key in store && !Match(pattern, key) {
      if i :| 0 <= i < |pages| && key in pages[i] {
        var j :| 0 <= j < |pages[i]| && pages[i][j] == key;
      }
    }
  }

  /** After `invalidateUserPermissions` the keys of that tenant and user are gone, and only they. */
  method InvalidateUserPermissions(store: set<string>, tenant: string, user: string, pages: seq<seq<string>>)
    returns (left: set<string>)
    requires FullScan(store, UserPattern(tenant, user), pages)
    ensures left <= store
    ensures forall k: CacheKey | Build(k) in store :: Build(k) !in left <==> k.tenant == tenant && k.user == user
  {
    left := DeleteByPattern(store, UserPattern(tenant, user), pages);
    forall k: CacheKey | Build(k) in store ensures Build(k) !in left <==> k.tenant == tenant && k.user == user {
      UserPatternIff(tenant, user, k);
    }
  }

  /** After `invalidateSpacePermissions` no key of that tenant and space is left, and no other tenant lost one. */
  method InvalidateSpacePermissions(store: set<string>, tenant: string, space: string, pages: seq<seq<string>>)
    returns (left: set<string>)
    requires FullScan(store, SpacePattern(tenant, space), pages)
    ensures left <= store
    ensures forall k: CacheKey | Build(k) in store ::
      Build(k) !in left <==> k.tenant == tenant && (k.space == space || k.spaceVersion == space)
  {
    left := DeleteByPattern(store, SpacePattern(tenant, space), pages);
    forall k: CacheKey | Build(k) in store
      ensures Build(k) !in left <==> k.tenant == tenant && (k.space == space || k.spaceVersion == space)
    {
      SpacePatternIff(tenant, space, k);
    }
  }
}
