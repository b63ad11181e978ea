/**
  The sliding-window rate limiter: a sorted set per key, trimmed and grown by one script
  (apps/api/src/bridge/bridge-rate-limit.guard.ts).
 */
module RateLimiter {
  import opened Options

  type Key = string

  /** A sorted set with its time to live; members are unique, so only the scores matter. */
  datatype Bucket = Bucket(scores: seq<nat>, expires: Option<int>)

  /** What the script is called with, and the time at the store when it is. */
  datatype Call = Call(now: nat, at: int)

  const NO_BUCKET := Bucket([], None)

  /** The scores above lo; `ZREMRANGEBYSCORE key 0 lo` leaves them. */
  function After(xs: seq<nat>, lo: int): seq<nat> {
    if xs == [] then []
    else After(xs[..|xs| - 1], lo) + if xs[|xs| - 1] > lo then [xs[|xs| - 1]] else []
  }

  /** A key is gone once the store's clock is past its time to live. */
  function Live(b: Bucket, at: int): Bucket { if b.expires.Some? && at > b.expires.value then NO_BUCKET else b }

  function Trimmed(b: Bucket, c: Call, window: nat): seq<nat> { After(Live(b, c.at).scores, c.now - window) }

  predicate Allowed(b: Bucket, c: Call, window: nat, limit: nat) { |Trimmed(b, c, window)| < limit }

  /** What the script leaves behind; a set that runs empty is deleted with its time to live. */
  function Evaluated(b: Bucket, c: Call, window: nat, limit: nat): Bucket {
    var kept := Trimmed(b, c, window);
    if |kept| < limit then Bucket(kept + [c.now], Some(c.at + window))
    else if kept == [] then NO_BUCKET
    else Bucket(kept, Live(b, c.at).expires)
  }

  // ---- Runs of one key ----

  /** The bucket, every score ever admitted, and the last admitted call. */
  datatype History = History(bucket: Bucket, admitted: seq<nat>, last: Option<Call>)

  function Extend(h: History, c: Call, window: nat, limit: nat): History {
    var b := Evaluated(h.bucket, c, window, limit);
    if Allowed(h.bucket, c, window, limit) then History(b, h.admitted + [c.now], Some(c)) else h.(bucket := b)
  }

  function Run(calls: seq<Call>, window: nat, limit: nat): History {
    if calls == [] then History(NO_BUCKET, [], None)
    else Extend(Run(calls[..|calls| - 1], window, limit), calls[|calls| - 1], window, limit)
  }

  /**
    An entry of a still counts for b in a window of the given length, although the time to live
    that a set has run out.
   */
  predicate Loses(a: Call, b: Call, window: nat, length: int) { b.now - a.now < length && window < b.at - a.at }

  /** The last admission is lost to c; every admission sets the time to live again. */
  predicate LosesLast(h: History, c: Call, window: nat, length: int) {
    h.last.Some? && Loses(h.last.value, c, window, length)
  }

  predicate Follows(calls: seq<Call>, c: Call) { calls != [] ==> calls[|calls| - 1].now <= c.now }

  /** The callers' clock does not go back, and no call finds the last admission before it lost. */
  predicate LastKept(calls: seq<Call>, window: nat, limit: nat, length: int) {
    calls == [] ||
    var before, c := calls[..|calls| - 1], calls[|calls| - 1];
    && LastKept(before, window, limit, length)
    && Follows(before, c)
    && !LosesLast(Run(before, window, limit), c, window, length)
  }

  /** The scores in the half-open window (lo, hi]. */
  function Within(xs: seq<nat>, lo: int, hi: int): seq<nat> {
    if xs == [] then []
    else Within(xs[..|xs| - 1], lo, hi) + if lo < xs[|xs| - 1] <= hi then [xs[|xs| - 1]] else []
  }

  lemma {:induction false} AfterAgain(xs: seq<nat>, lo: int, hi: int)
    requires lo <= hi
    ensures After(After(xs, lo), hi) == After(xs, hi)
  {
    if xs != [] {
      var front, x := xs[..|xs| - 1], xs[|xs| - 1];
      AfterAgain(front, lo, hi);
      if x > lo {
        assert After(xs, lo)[..|After(xs, lo)| - 1] == After(front, lo);
      } else {
        assert After(xs, lo) == After(front, lo);
      }
    }
  }

  lemma {:induction false} NoneAfter(xs: seq<nat>, lo: int)
    requires forall i | 0 <= i < |xs| :: xs[i] <= lo
    ensures After(xs, lo) == []
  {
    if xs != [] { NoneAfter(xs[..|xs| - 1], lo); }
  }

  lemma {:induction false} WithinIsAfter(xs: seq<nat>, lo: int, hi: int, lo': int)
    requires lo' <= lo
    ensures |Within(xs, lo, hi)| <= |After(xs, lo')|
  {
    if xs != [] { WithinIsAfter(xs[..|xs| - 1], lo, hi, lo'); }
  }

  lemma OneMoreOf(xs: seq<nat>, y: nat, x: nat)
    ensures multiset(xs + [y])[x] == multiset(xs)[x] + if x == y then 1 else 0
  {
  }

  lemma SomeOf(xs: seq<nat>, ys: seq<nat>, y: nat, counts: bool, x: nat)
    requires ys == xs + if counts then [y] else []
    ensures multiset(ys)[x] == multiset(xs)[x] + if counts && x == y then 1 else 0
  {
    if counts { OneMoreOf(xs, y, x); } else { assert ys == xs; }
  }

  /** The scores above lo, as often as they occur. */
  lemma {:induction false} AfterIs(xs: seq<nat>, lo: int, x: nat)
    ensures multiset(After(xs, lo))[x] == if x > lo then multiset(xs)[x] else 0
  {
    if xs != [] {
      var front, last := xs[..|xs| - 1], xs[|xs| - 1];
      AfterIs(front, lo, x);
      SomeOf(front, xs, last, true, x);
      SomeOf(After(front, lo), After(xs, lo), last, last > lo, x);
    }
  }

  lemma {:induction false} WithinIs(xs: seq<nat>, lo: int, hi: int, x: nat)
    ensures multiset(Within(xs, lo, hi))[x] == if lo < x <= hi then multiset(xs)[x] else 0
  {
    if xs != [] {
      var front, last := xs[..|xs| - 1], xs[|xs| - 1];
      WithinIs(front, lo, hi, x);
      SomeOf(front, xs, last, true, x);
      SomeOf(Within(front, lo, hi), Within(xs, lo, hi), last, lo < last <= hi, x);
    }
  }

  /**
    The script on one key: a set whose time to live has run out is empty; scores not newer than a window ago
    go; the call's own is added, and the time to live set again, if fewer than the limit stay.
   */
  lemma ScriptIs(b: Bucket, c: Call, window: nat, limit: nat, live: seq<nat>, kept: seq<nat>)
    requires live == (if b.expires.Some? && c.at > b.expires.value then [] else b.scores)
    requires kept == After(live, c.now - window)
    ensures Allowed(b, c, window, limit) <==> |kept| < limit
    ensures Evaluated(b, c, window, limit) ==
      if |kept| < limit then Bucket(kept + [c.now], Some(c.at + window))
      else if kept == [] then Bucket([], None)
      else Bucket(kept, b.expires)
  {
  }

  /** Above lo, the set holds exactly what was admitted. */
  predicate Exact(scores: seq<nat>, admitted: seq<nat>, lo: int) { After(scores, lo) == After(admitted, lo) }

  predicate EndsIn(xs: seq<nat>, n: int) { xs != [] && xs[|xs| - 1] == n }

  predicate UpTo(xs: seq<nat>, n: int) { forall i | 0 <= i < |xs| :: xs[i] <= n }

  /** The time to live belongs to the last admitted call, which no admission is newer than. */
  predicate Timed(h: History, window: nat) {
    && (h.last.None? ==> h.admitted == [] && h.bucket.expires.None?)
    && (h.last.Some? ==> UpTo(h.admitted, h.last.value.now) && EndsIn(h.admitted, h.last.value.now))
    && (h.bucket.expires.Some? ==> h.last.Some? && h.bucket.expires.value == h.last.value.at + window)
  }

  /** The state after a call d: within the length the set is exact. */
  predicate Inv(h: History, d: Call, window: nat, length: int) {
    && Exact(h.bucket.scores, h.admitted, d.now - length)
    && Timed(h, window)
    && (h.last.Some? ==> h.last.value.now <= d.now)
    && (h.bucket.expires.None? ==> h.bucket.scores == [])
  }

  lemma ExactLater(scores: seq<nat>, admitted: seq<nat>, lo: int, hi: int)
    requires Exact(scores, admitted, lo) && lo <= hi
    ensures Exact(scores, admitted, hi)
  {
    AfterAgain(scores, lo, hi);
    AfterAgain(admitted, lo, hi);
  }

  lemma TrimIsExact(scores: seq<nat>, admitted: seq<nat>, before: int, lo: int, hi: int)
    requires Exact(scores, admitted, before) && before <= hi && lo <= hi
    ensures Exact(After(scores, lo), admitted, hi)
  {
    ExactLater(scores, admitted, before, hi);
    AfterAgain(scores, lo, hi);
  }

  /** What runs out no longer counts. */
  lemma ExpiredIsPast(h: History, c: Call, window: nat, length: int)
    requires Timed(h, window) && h.bucket.expires.Some? && c.at > h.bucket.expires.value
    requires !LosesLast(h, c, window, length)
    ensures After(h.admitted, c.now - length) == []
  {
    NoneAfter(h.admitted, c.now - length);
  }

  /** Neither trimming nor the time to live drops an entry that counts. */
  lemma TrimmingIsExact(h: History, d: Call, c: Call, window: nat, length: int)
    requires Inv(h, d, window, length) && length <= window && d.now <= c.now
    requires !LosesLast(h, c, window, length)
    ensures Exact(Trimmed(h.bucket, c, window), h.admitted, c.now - length)
  {
    if h.bucket.expires.Some? && c.at > h.bucket.expires.value {
      ExpiredIsPast(h, c, window, length);
      assert Trimmed(h.bucket, c, window) == [];
    } else {
      TrimIsExact(h.bucket.scores, h.admitted, d.now - length, c.now - window, c.now - length);
    }
  }

  lemma AfterAppend(xs: seq<nat>, x: nat, lo: int)
    ensures After(xs + [x], lo) == After(xs, lo) + if x > lo then [x] else []
  {
    assert (xs + [x])[..|xs|] == xs;
  }

  lemma WithinAppend(xs: seq<nat>, x: nat, lo: int, hi: int)
    ensures Within(xs + [x], lo, hi) == Within(xs, lo, hi) + if lo < x <= hi then [x] else []
  {
    assert (xs + [x])[..|xs|] == xs;
  }

  lemma AdmittingIsExact(kept: seq<nat>, admitted: seq<nat>, x: nat, lo: int)
    requires Exact(kept, admitted, lo)
    ensures Exact(kept + [x], admitted + [x], lo)
  {
    AfterAppend(kept, x, lo);
    AfterAppend(admitted, x, lo);
  }

  lemma ExtendKeepsTimed(h: History, c: Call, window: nat, limit: nat)
    requires Timed(h, window) && (h.last.Some? ==> h.last.value.now <= c.now)
    ensures Timed(Extend(h, c, window, limit), window)
  {
  }

  lemma ExtendKeepsExact(h: History, c: Call, window: nat, limit: nat, kept: seq<nat>, lo: int)
    requires kept == Trimmed(h.bucket, c, window) && Exact(kept, h.admitted, lo)
    ensures var after := Extend(h, c, window, limit);
      Exact(after.bucket.scores, after.admitted, lo)
  {
    AdmittingIsExact(kept, h.admitted, c.now, lo);
  }

  lemma ExtendEmpties(h: History, c: Call, window: nat, limit: nat)
    requires h.bucket.expires.None? ==> h.bucket.scores == []
    ensures var after := Extend(h, c, window, limit).bucket;
      after.expires.None? ==> after.scores == []
  {
    assert Live(h.bucket, c.at).expires.None? ==> Trimmed(h.bucket, c, window) == [];
  }

  lemma ExtendKeepsInv(h: History, d: Call, c: Call, window: nat, limit: nat, length: int)
    requires Inv(h, d, window, length) && length <= window && d.now <= c.now
    requires !LosesLast(h, c, window, length)
    ensures Inv(Extend(h, c, window, limit), c, window, length)
  {
    TrimmingIsExact(h, d, c, window, length);
    ExtendKeepsExact(h, c, window, limit, Trimmed(h.bucket, c, window), c.now - length);
    ExtendKeepsTimed(h, c, window, limit);
    ExtendEmpties(h, c, window, limit);
    assert var last := Extend(h, c, window, limit).last; last == Some(c) || last == h.last;
  }

  const NOTHING := History(NO_BUCKET, [], None)

  lemma LastKeptSteps(calls: seq<Call>, window: nat, limit: nat, length: int, before: seq<Call>, c: Call)
    requires LastKept(calls, window, limit, length) && calls == before + [c]
    ensures LastKept(before, window, limit, length) && Follows(before, c)
    ensures !LosesLast(Run(before, window, limit), c, window, length)
    ensures Run(calls, window, limit) == Extend(Run(before, window, limit), c, window, limit)
  {
    assert calls[..|calls| - 1] == before;
  }

  lemma {:induction false} RunKeepsInv(calls: seq<Call>, window: nat, limit: nat, length: int, h: History)
    requires LastKept(calls, window, limit, length) && calls != [] && length <= window
    requires h == Run(calls, window, limit)
    ensures Inv(h, calls[|calls| - 1], window, length)
  {
    var before, c := calls[..|calls| - 1], calls[|calls| - 1];
    assert calls == before + [c];
    LastKeptSteps(calls, window, limit, length, before, c);
    if before == [] {
      FirstCall(c, window, limit, length);
    } else {
      var hb := Run(before, window, limit);
      RunKeepsInv(before, window, limit, length, hb);
      ExtendKeepsInv(hb, before[|before| - 1], c, window, limit, length);
    }
  }

  lemma FirstCall(c: Call, window: nat, limit: nat, length: int)
    ensures Inv(Extend(NOTHING, c, window, limit), c, window, length)
  {
  }

  lemma {:induction false} AfterIsShorter(xs: seq<nat>, lo: int)
    ensures |After(xs, lo)| <= |xs|
  {
    if xs != [] { AfterIsShorter(xs[..|xs| - 1], lo); }
  }

  lemma TrimmedTwice(b: Bucket, c: Call, window: nat)
    ensures After(Trimmed(b, c, window), c.now - window) == Trimmed(b, c, window)
  {
    AfterAgain(Live(b, c.at).scores, c.now - window, c.now - window);
  }

  /**
    While the last admission is kept, a call is admitted exactly when its own window has fewer
    than `limit` admissions.
   */
  lemma AdmittedIff(calls: seq<Call>, c: Call, window: nat, limit: nat, h: History)
    requires LastKept(calls, window, limit, window) && Follows(calls, c)
    requires h == Run(calls, window, limit) && !LosesLast(h, c, window, window)
    ensures Allowed(h.bucket, c, window, limit) <==> |After(h.admitted, c.now - window)| < limit
  {
    TrimmingIsExactIff(calls, c, window, limit, h);
    FindingCounts(h, c, window, limit);
  }

  lemma FindingCounts(h: History, c: Call, window: nat, limit: nat)
    requires Finds(h, c, window)
    ensures Allowed(h.bucket, c, window, limit) <==> |After(h.admitted, c.now - window)| < limit
  {
  }

  /** One more call keeps the bound of a window that ends at t. */
  lemma AdmissionKeepsTheBound(kept: seq<nat>, admitted: seq<nat>, c: Call, lo: int, limit: nat, from: int, t: int)
    requires Exact(kept, admitted, lo) && |kept| < limit && c.now - lo == t - from
    requires |Within(admitted, from, t)| <= limit
    ensures |Within(admitted + [c.now], from, t)| <= limit
  {
    WithinAppend(admitted, c.now, from, t);
    if c.now <= t {
      AfterIsShorter(kept, lo);
      WithinIsAfter(admitted, from, t, lo);
    }
  }

  lemma ExtendKeepsTheBound(h: History, c: Call, window: nat, limit: nat, lo: int, from: int, t: int)
    requires Exact(Trimmed(h.bucket, c, window), h.admitted, lo) && c.now - lo == t - from
    requires |Within(h.admitted, from, t)| <= limit
    ensures |Within(Extend(h, c, window, limit).admitted, from, t)| <= limit
  {
    if Allowed(h.bucket, c, window, limit) {
      AdmissionKeepsTheBound(Trimmed(h.bucket, c, window), h.admitted, c, lo, limit, from, t);
    }
  }

  /** The window bound, for one run and one half-open window. */
  predicate Bounded(calls: seq<Call>, window: nat, limit: nat, length: int, t: int) {
    |Within(Run(calls, window, limit).admitted, t - length, t)| <= limit
  }

  /** In every run that keeps its last admission for windows of the length, those are bounded. */
  lemma {:induction false} WindowsAreBounded(calls: seq<Call>, window: nat, limit: nat, length: int, t: int)
    requires LastKept(calls, window, limit, length) && length <= window
    ensures Bounded(calls, window, limit, length, t)
  {
    if calls != [] {
      var n := |calls| - 1;
      var before := calls[..n];
      WindowsAreBounded(before, window, limit, length, t);
      NextIsBounded(before, calls[n], window, limit, length, Run(before, window, limit), t - length, t);
    }
  }

  lemma NextIsBounded(
      calls: seq<Call>, c: Call, window: nat, limit: nat, length: int, h: History, from: int, t: int)
    requires LastKept(calls, window, limit, length) && Follows(calls, c) && length <= window
    requires h == Run(calls, window, limit) && !LosesLast(h, c, window, length) && t - from == length
    requires |Within(h.admitted, from, t)| <= limit
    ensures |Within(Extend(h, c, window, limit).admitted, from, t)| <= limit
  {
    if calls == [] {
      ExtendKeepsTheBound(h, c, window, limit, c.now - length, from, t);
    } else {
      RunKeepsInv(calls, window, limit, length, h);
      StepIsBounded(h, calls[|calls| - 1], c, window, limit, length, from, t);
    }
  }

  lemma StepIsBounded(
      h: History, d: Call, c: Call, window: nat, limit: nat, length: int, from: int, t: int)
    requires Inv(h, d, window, length) && length <= window && d.now <= c.now && !LosesLast(h, c, window, length)
    requires |Within(h.admitted, from, t)| <= limit && t - from == length
    ensures |Within(Extend(h, c, window, limit).admitted, from, t)| <= limit
  {
    TrimmingIsExact(h, d, c, window, length);
    ExtendKeepsTheBound(h, c, window, limit, c.now - length, from, t);
  }

  /** In every run that keeps its last admission, every half-open window holds at most `limit` admissions. */
  lemma EveryWindowIsBounded(calls: seq<Call>, window: nat, limit: nat, t: int)
    requires LastKept(calls, window, limit, window)
    ensures Bounded(calls, window, limit, window, t)
  {
    WindowsAreBounded(calls, window, limit, window, t);
  }

  // ---- Conditions on the calls alone ----

  predicate LosesNone(calls: seq<Call>, c: Call, window: nat, length: int) {
    forall i | 0 <= i < |calls| :: calls[i].now <= c.now && !Loses(calls[i], c, window, length)
  }

  /** The clock does not go back, and no call, admitted or not, is lost to a later one. */
  predicate LosesNothing(calls: seq<Call>, window: nat, length: int) {
    calls == [] ||
    (LosesNothing(calls[..|calls| - 1], window, length) &&
     LosesNone(calls[..|calls| - 1], calls[|calls| - 1], window, length))
  }

  /** The last admitted call is one of those made. */
  lemma {:induction false} LastIsACall(calls: seq<Call>, window: nat, limit: nat)
    ensures var h := Run(calls, window, limit); h.last.Some? ==> h.last.value in calls
  {
    if calls != [] { LastIsACall(calls[..|calls| - 1], window, limit); }
  }

  lemma {:induction false} LosingNothingKeepsTheLast(calls: seq<Call>, window: nat, limit: nat, length: int)
    requires LosesNothing(calls, window, length)
    ensures LastKept(calls, window, limit, length)
  {
    if calls != [] {
      var before := calls[..|calls| - 1];
      LosingNothingKeepsTheLast(before, window, limit, length);
      LastIsACall(before, window, limit);
    }
  }

  /** The callers' clock does not go back, and the store runs each script at most `delay` after the caller's clock. */
  predicate Delayed(calls: seq<Call>, delay: nat) {
    && (forall i | 0 <= i < |calls| :: 0 <= calls[i].at - calls[i].now <= delay)
    && (forall i, j | 0 <= i < j < |calls| :: calls[i].now <= calls[j].now)
  }

  /** However the delay varies up to a bound, every window shorter by that bound holds at most `limit` admissions. */
  lemma DelayShortensTheWindow(calls: seq<Call>, window: nat, limit: nat, delay: nat, length: int, t: int)
    requires Delayed(calls, delay) && length == window - delay
    ensures Bounded(calls, window, limit, length, t)
  {
    DelayLosesNothing(calls, window, delay, length);
    LosingNothingKeepsTheLast(calls, window, limit, length);
    WindowsAreBounded(calls, window, limit, length, t);
  }

  lemma {:induction false} DelayLosesNothing(calls: seq<Call>, window: nat, delay: nat, length: int)
    requires Delayed(calls, delay) && length == window - delay
    ensures LosesNothing(calls, window, length)
  {
    if calls != [] {
      var n := |calls| - 1;
      DelayLosesNothing(calls[..n], window, delay, length);
      forall i | 0 <= i < n
        ensures calls[..n][i].now <= calls[n].now && !Loses(calls[..n][i], calls[n], window, length)
      {
        assert calls[..n][i] == calls[i];
      }
    }
  }

  lemma SecondIsAdmitted(a: Call, b: Call, window: nat, limit: nat)
    requires limit > 1
    ensures Run([a], window, limit).last == Some(a) && Run([a, b], window, limit).last == Some(b)
  {
    var h := Extend(NOTHING, a, window, limit);
    RunOfTwo(a, b, window, limit);
    AfterIsShorter(Live(h.bucket, b.at).scores, b.now - window);
  }

  lemma LastKeptAppend(calls: seq<Call>, c: Call, window: nat, limit: nat, length: int)
    requires LastKept(calls, window, limit, length) && Follows(calls, c)
    requires !LosesLast(Run(calls, window, limit), c, window, length)
    ensures LastKept(calls + [c], window, limit, length)
  {
    assert (calls + [c])[..|calls|] == calls;
  }

  /** A second admission sets the time to live again, so what is lost of the first alone is found. */
  lemma RenewalKeepsTheLast(a: Call, b: Call, c: Call, window: nat, limit: nat)
    requires a.now <= b.now <= c.now && limit > 1
    requires !Loses(a, b, window, window) && !Loses(b, c, window, window)
    ensures LastKept([a, b, c], window, limit, window)
  {
    SecondIsAdmitted(a, b, window, limit);
    assert [] + [a] == [a] && [a] + [b] == [a, b] && [a, b] + [c] == [a, b, c];
    LastKeptAppend([], a, window, limit, window);
    LastKeptAppend([a], b, window, limit, window);
    LastKeptAppend([a, b], c, window, limit, window);
  }

  // ---- When expiry loses an entry ----

  /** What was admitted by a, alone in its bucket, is found by b. */
  predicate Kept(a: Call, b: Call, window: nat, limit: nat)
    requires limit > 0
  {
    a.now in Trimmed(Evaluated(NO_BUCKET, a, window, limit), b, window)
  }

  /** An entry is found exactly while it counts and its time to live has not run out. */
  lemma KeptIff(a: Call, b: Call, window: nat, limit: nat)
    requires limit > 0 && a.now <= b.now
    ensures Kept(a, b, window, limit) <==> b.now - a.now < window && b.at - a.at <= window
    ensures b.now - a.now < window ==> (Kept(a, b, window, limit) <==> !Loses(a, b, window, window))
  {
    AfterOne(a.now, b.now - window);
    assert Evaluated(NO_BUCKET, a, window, limit).scores == [a.now];
  }

  /** No window loses it while it counts if and only if the delay has grown by at most a millisecond. */
  lemma NeverLostIff(a: Call, b: Call)
    requires a.now <= b.now
    ensures (forall window: nat :: !Loses(a, b, window, window)) <==> b.at - a.at <= b.now - a.now + 1
  {
    if b.at - a.at > b.now - a.now + 1 {
      var window := b.now - a.now + 1;
      assert Loses(a, b, window, window);
    }
  }

  /** With this history c finds exactly the admissions of its window. */
  predicate Finds(h: History, c: Call, window: nat) {
    Trimmed(h.bucket, c, window) == After(h.admitted, c.now - window)
  }

  lemma FindsAllIff(h: History, d: Call, c: Call, window: nat)
    requires Inv(h, d, window, window) && d.now <= c.now
    ensures Finds(h, c, window) <==> !LosesLast(h, c, window, window)
  {
    if LosesLast(h, c, window, window) {
      LostIsMissed(h, d, c, window);
    } else {
      TrimmingIsExact(h, d, c, window, window);
      TrimmedTwice(h.bucket, c, window);
    }
  }

  lemma FindsNothing(c: Call, window: nat)
    ensures Finds(NOTHING, c, window) && !LosesLast(NOTHING, c, window, window)
  {
  }

  lemma LostIsMissed(h: History, d: Call, c: Call, window: nat)
    requires Inv(h, d, window, window) && d.now <= c.now && LosesLast(h, c, window, window)
    ensures !Finds(h, c, window)
  {
    assert After(h.admitted, d.now - window) != [];
    assert After(h.admitted, c.now - window) != [];
  }

  /**
    After a run that kept its last admission, the next call finds exactly the admissions of its
    window if and only if the last one is not lost to it.
   */
  lemma TrimmingIsExactIff(calls: seq<Call>, c: Call, window: nat, limit: nat, h: History)
    requires LastKept(calls, window, limit, window) && Follows(calls, c) && h == Run(calls, window, limit)
    ensures Finds(h, c, window) <==> !LosesLast(h, c, window, window)
  {
    if calls == [] {
      FindsNothing(c, window);
    } else {
      RunKeepsInv(calls, window, limit, window, h);
      FindsAllIff(h, calls[|calls| - 1], c, window);
    }
  }

  predicate AllFound(calls: seq<Call>, window: nat, limit: nat) {
    calls == [] ||
    (AllFound(calls[..|calls| - 1], window, limit) &&
     Finds(Run(calls[..|calls| - 1], window, limit), calls[|calls| - 1], window))
  }

  /**
    In every run in clock order, every call along it finds exactly the admissions of its window
    if and only if none finds the last admission before it lost.
   */
  lemma {:induction false} NothingIsLostIff(calls: seq<Call>, window: nat, limit: nat)
    requires InOrder(calls)
    ensures AllFound(calls, window, limit) <==> LastKept(calls, window, limit, window)
  {
    if calls != [] {
      var before, c := calls[..|calls| - 1], calls[|calls| - 1];
      NothingIsLostIff(before, window, limit);
      if LastKept(before, window, limit, window) {
        TrimmingIsExactIff(before, c, window, limit, Run(before, window, limit));
      }
    }
  }

  lemma RunAppend(calls: seq<Call>, c: Call, window: nat, limit: nat)
    ensures Run(calls + [c], window, limit) == Extend(Run(calls, window, limit), c, window, limit)
  {
    assert (calls + [c])[..|calls|] == calls;
  }

  lemma AfterOne(x: nat, lo: int)
    ensures After([x], lo) == if x > lo then [x] else []
  {
    AfterAppend([], x, lo);
    assert [] + [x] == [x];
  }

  /**
    With two calls in clock order, every window is bounded for every limit if and only if the
    first is not lost to the second.
   */
  lemma PairIsBoundedIff(a: Call, b: Call, window: nat)
    requires a.now <= b.now
    ensures (forall limit: nat, t: int :: Bounded([a, b], window, limit, window, t)) <==> !Loses(a, b, window, window)
  {
    if Loses(a, b, window, window) {
      LostPairBreaksTheBound(a, b, window);
    } else {
      KeptPairLosesNothing(a, b, window);
      forall limit: nat, t: int ensures Bounded([a, b], window, limit, window, t) {
        LosingNothingKeepsTheLast([a, b], window, limit, window);
        EveryWindowIsBounded([a, b], window, limit, t);
      }
    }
  }

  lemma KeptPairLosesNothing(a: Call, b: Call, window: nat)
    requires a.now <= b.now && !Loses(a, b, window, window)
    ensures LosesNothing([a, b], window, window)
  {
    assert [a, b][..1] == [a] && [a][..0] == [];
    assert LosesNone([a], b, window, window);
  }

  lemma LostPairBreaksTheBound(a: Call, b: Call, window: nat)
    requires Loses(a, b, window, window) && a.now <= b.now
    ensures !Bounded([a, b], window, 1, window, b.now)
  {
    RunOfTwo(a, b, window, 1);
    PairPasses(Extend(NOTHING, a, window, 1), a, b, window);
    AllWithin([a.now, b.now], b.now - window, b.now);
  }

  lemma PairPasses(h: History, a: Call, b: Call, window: nat)
    requires Loses(a, b, window, window) && a.now <= b.now
    requires h == Extend(NOTHING, a, window, 1)
    ensures Extend(h, b, window, 1).admitted == [a.now, b.now]
  {
    Passing(NOTHING, a, [], window, 1);
    assert Trimmed(h.bucket, b, window) == [];
    Passing(h, b, [], window, 1);
  }

  lemma RunOfTwo(a: Call, b: Call, window: nat, limit: nat)
    ensures Run([a], window, limit) == Extend(NOTHING, a, window, limit)
    ensures Run([a, b], window, limit) == Extend(Extend(NOTHING, a, window, limit), b, window, limit)
  {
    assert [] + [a] == [a] && [a] + [b] == [a, b];
    RunAppend([], a, window, limit);
    RunAppend([a], b, window, limit);
  }

  // ---- Runs that pass more than the limit ----

  function Then(calls: seq<Call>, c: Call, n: nat): seq<Call> {
    if n == 0 then calls else Then(calls, c, n - 1) + [c]
  }

  function Times(x: nat, n: nat): (xs: seq<nat>)
    ensures |xs| == n && forall i | 0 <= i < n :: xs[i] == x
  {
    if n == 0 then [] else Times(x, n - 1) + [x]
  }

  lemma {:induction false} AllAfter(xs: seq<nat>, lo: int)
    requires forall i | 0 <= i < |xs| :: lo < xs[i]
    ensures After(xs, lo) == xs
  {
    if xs != [] { AllAfter(xs[..|xs| - 1], lo); }
  }

  lemma {:induction false} AllWithin(xs: seq<nat>, lo: int, hi: int)
    requires forall i | 0 <= i < |xs| :: lo < xs[i] <= hi
    ensures Within(xs, lo, hi) == xs
  {
    if xs != [] { AllWithin(xs[..|xs| - 1], lo, hi); }
  }

  /** Where c finds nothing, it passes as often as the limit says. */
  lemma {:induction false} Repeated(calls: seq<Call>, c: Call, n: nat, window: nat, limit: nat)
    requires window > 0 && n <= limit
    requires Trimmed(Run(calls, window, limit).bucket, c, window) == []
    ensures var h := Run(Then(calls, c, n), window, limit);
      && h.admitted == Run(calls, window, limit).admitted + Times(c.now, n)
      && (n > 0 ==> h.bucket == Bucket(Times(c.now, n), Some(c.at + window)))
  {
    if n > 0 {
      Repeated(calls, c, n - 1, window, limit);
      RunAppend(Then(calls, c, n - 1), c, window, limit);
      OneMore(Run(Then(calls, c, n - 1), window, limit), c, Run(calls, window, limit).admitted, n, window, limit);
    }
  }

  lemma OneMore(h: History, c: Call, admitted: seq<nat>, n: nat, window: nat, limit: nat)
    requires window > 0 && 0 < n <= limit
    requires n == 1 ==> Trimmed(h.bucket, c, window) == []
    requires n > 1 ==> h.bucket == Bucket(Times(c.now, n - 1), Some(c.at + window))
    requires h.admitted == admitted + Times(c.now, n - 1)
    ensures var after := Extend(h, c, window, limit);
      && after.admitted == admitted + Times(c.now, n)
      && after.bucket == Bucket(Times(c.now, n), Some(c.at + window))
  {
    if n > 1 { FindsItsOwn(h.bucket, c, n - 1, window); }
    Passing(h, c, Times(c.now, n - 1), window, limit);
    assert Times(c.now, n) == Times(c.now, n - 1) + [c.now];
  }

  /** A call that finds less than the limit passes. */
  lemma Passing(h: History, c: Call, kept: seq<nat>, window: nat, limit: nat)
    requires Trimmed(h.bucket, c, window) == kept && |kept| < limit
    ensures var after := Extend(h, c, window, limit);
      && after.admitted == h.admitted + [c.now]
      && after.bucket == Bucket(kept + [c.now], Some(c.at + window))
  {
  }

  lemma FindsItsOwn(b: Bucket, c: Call, n: nat, window: nat)
    requires window > 0 && b == Bucket(Times(c.now, n), Some(c.at + window))
    ensures Trimmed(b, c, window) == Times(c.now, n)
  {
    AllAfter(Times(c.now, n), c.now - window);
  }

  /** The limit's worth of calls at once, and as many just before they leave the window. */
  function TwoBursts(window: nat, limit: nat): seq<Call>
    requires window > 0
  {
    Then(Then([], Call(0, 0), limit), Call(window - 1, window + 1), limit)
  }

  lemma BothBurstsPass(window: nat, limit: nat)
    requires window > 0
    ensures Run(TwoBursts(window, limit), window, limit).admitted == Times(0, limit) + Times(window - 1, limit)
  {
    var first := Then([], Call(0, 0), limit);
    Repeated([], Call(0, 0), limit, window, limit);
    Repeated(first, Call(window - 1, window + 1), limit, window, limit);
    assert [] + Times(0, limit) == Times(0, limit);
  }

  lemma BurstsShareAWindow(admitted: seq<nat>, window: nat, limit: nat)
    requires window > 0 && admitted == Times(0, limit) + Times(window - 1, limit)
    ensures |Within(admitted, -1, window - 1)| == 2 * limit
  {
    AllWithin(admitted, -1, window - 1);
  }

  /** With growing delay, calls in clock order can pass twice the limit in one window. */
  lemma GrowingDelayDoublesTheBound(window: nat, limit: nat)
    requires window > 0
    ensures InOrder(TwoBursts(window, limit))
    ensures |Within(Run(TwoBursts(window, limit), window, limit).admitted, -1, window - 1)| == 2 * limit
  {
    BothBurstsPass(window, limit);
    BurstsShareAWindow(Run(TwoBursts(window, limit), window, limit).admitted, window, limit);
    TwoBurstsAreInOrder(window, limit);
  }

  predicate InOrder(calls: seq<Call>) { forall i, j | 0 <= i < j < |calls| :: calls[i].now <= calls[j].now }

  lemma {:induction false} ThenKeepsOrder(calls: seq<Call>, c: Call, n: nat)
    requires InOrder(calls) && forall i | 0 <= i < |calls| :: calls[i].now <= c.now
    ensures var more := Then(calls, c, n);
      InOrder(more) && forall i | 0 <= i < |more| :: more[i].now <= c.now
  {
    if n > 0 { ThenKeepsOrder(calls, c, n - 1); }
  }

  lemma TwoBurstsAreInOrder(window: nat, limit: nat)
    requires window > 0
    ensures InOrder(TwoBursts(window, limit))
  {
    ThenKeepsOrder([], Call(0, 0), limit);
    ThenKeepsOrder(Then([], Call(0, 0), limit), Call(window - 1, window + 1), limit);
  }

  /** The limit's worth of calls, one a window later, and one that read its clock with the first. */
  function StaleRun(window: nat, limit: nat): seq<Call> {
    Then([], Call(0, 0), limit) + [Call(window, window + 1)] + [Call(0, window + 1)]
  }

  lemma LaterCallPasses(h: History, window: nat, limit: nat)
    requires window > 0 && limit > 1 && h.bucket.expires == Some(window)
    ensures var after := Extend(h, Call(window, window + 1), window, limit);
      after.admitted == h.admitted + [window] && after.bucket == Bucket([window], Some(window + 1 + window))
  {
    Passing(h, Call(window, window + 1), [], window, limit);
    assert [] + [window] == [window];
  }

  lemma StaleCallPasses(h: History, window: nat, limit: nat)
    requires window > 0 && limit > 1 && h.bucket == Bucket([window], Some(window + 1 + window))
    ensures Extend(h, Call(0, window + 1), window, limit).admitted == h.admitted + [0]
  {
    AfterOne(window, 0 - window);
    Passing(h, Call(0, window + 1), [window], window, limit);
  }

  lemma StaleCallsPass(window: nat, limit: nat)
    requires window > 0 && limit > 1
    ensures Run(StaleRun(window, limit), window, limit).admitted == Times(0, limit) + [window] + [0]
  {
    var first := Then([], Call(0, 0), limit);
    Repeated([], Call(0, 0), limit, window, limit);
    assert [] + Times(0, limit) == Times(0, limit);
    RunAppend(first, Call(window, window + 1), window, limit);
    LaterCallPasses(Run(first, window, limit), window, limit);
    RunAppend(first + [Call(window, window + 1)], Call(0, window + 1), window, limit);
    StaleCallPasses(Run(first + [Call(window, window + 1)], window, limit), window, limit);
  }

  /** When the clock goes back the bound fails too, for every limit above one. */
  lemma StaleCallsBreakTheBound(window: nat, limit: nat)
    requires window > 0 && limit > 1
    ensures !Bounded(StaleRun(window, limit), window, limit, window, 0)
  {
    StaleCallsPass(window, limit);
    WithinAppend(Times(0, limit) + [window], 0, 0 - window, 0);
    WithinAppend(Times(0, limit), window, 0 - window, 0);
    AllWithin(Times(0, limit), 0 - window, 0);
  }

  // ---- Many keys ----

  type Store = map<Key, Bucket>

  function At(store: Store, key: Key): Bucket { if key in store then store[key] else NO_BUCKET }

  /** The script run on one key of the store. */
  function Evaluate(store: Store, key: Key, c: Call, window: nat, limit: nat): Store {
    store[key := Evaluated(At(store, key), c, window, limit)]
  }

  datatype Op = Op(key: Key, call: Call, limit: nat)

  function RunStore(ops: seq<Op>, window: nat): Store {
    if ops == [] then map[]
    else
      var op := ops[|ops| - 1];
      Evaluate(RunStore(ops[..|ops| - 1], window), op.key, op.call, window, op.limit)
  }

  function CallsOn(ops: seq<Op>, key: Key): seq<Call> {
    if ops == [] then []
    else CallsOn(ops[..|ops| - 1], key) + if ops[|ops| - 1].key == key then [ops[|ops| - 1].call] else []
  }

  /** However the calls on different keys interleave, each key lives by its own calls. */
  lemma {:induction false} KeysAreIndependent(ops: seq<Op>, key: Key, window: nat, limit: nat)
    requires forall i | 0 <= i < |ops| && ops[i].key == key :: ops[i].limit == limit
    ensures At(RunStore(ops, window), key) == Run(CallsOn(ops, key), window, limit).bucket
  {
    if ops != [] {
      var before, op := ops[..|ops| - 1], ops[|ops| - 1];
      KeysAreIndependent(before, key, window, limit);
      if op.key == key {
        RunAppend(CallsOn(before, key), op.call, window, limit);
      } else {
        assert CallsOn(ops, key) == CallsOn(before, key);
      }
    }
  }
}
