/**
  The guard of the bridge: a request asks the sliding windows of three keys in turn, and other
  requests run their scripts in between (apps/api/src/bridge/bridge-rate-limit.guard.ts).
 */
module RateLimitGuard {
  import opened Options
  import opened RateLimiter

  const WINDOW := 60_000

  datatype Check = Check(key: Key, limit: nat)

  function Checks(ip: string, space: string): (checks: seq<Check>)
    ensures |checks| == 3
  {
    [ Check("bridge:ratelimit:global:60:1000", 1000),
      Check("bridge:ratelimit:ip:" + ip + ":60:100", 100),
      Check("bridge:ratelimit:space:" + space + ":60:200", 200) ]
  }

  lemma ChecksAreDistinct(ip: string, space: string, i: nat, j: nat)
    requires i < j < 3
    ensures Checks(ip, space)[i].key != Checks(ip, space)[j].key
  {
    var a, b, c := Checks(ip, space)[0].key, Checks(ip, space)[1].key, Checks(ip, space)[2].key;
    assert a[17] == 'g' && b[17] == 'i' && c[17] == 's';
  }

  /** A thousand requests a minute in all, a hundred from one address, two hundred on one space. */
  lemma RequestsAMinute(ip: string, space: string)
    ensures WINDOW == 60 * 1000
    ensures var checks := Checks(ip, space);
      && checks[0].limit == 1000 && checks[1].limit == 100 && checks[2].limit == 200
      && (forall i | 0 <= i < 3 :: LimitOf(checks[i].key) == checks[i].limit)
      && checks[1].key == "bridge:ratelimit:ip:" + ip + ":60:100"
      && checks[2].key == "bridge:ratelimit:space:" + space + ":60:200"
      && checks[0].key == "bridge:ratelimit:global:60:1000"
  {
    forall i | 0 <= i < 3 ensures LimitOf(Checks(ip, space)[i].key) == Checks(ip, space)[i].limit {
      DimensionOfCheck(ip, space, i);
    }
  }

  function Keys(checks: seq<Check>): set<Key>
    requires |checks| == 3
  {
    {checks[0].key, checks[1].key, checks[2].key}
  }

  /** How the store answers one `eval`: with a reply, or with an error before or after the script ran. */
  datatype Reply = Answered | LostBefore | LostAfter

  datatype Verdict = Passed | PassedOnFault | Limited(dimension: nat)

  /** Check i ends the guard's loop, going by the store as it was when the guard was called. */
  predicate StopsAt(store: Store, checks: seq<Check>, now: nat, ats: seq<int>, replies: seq<Reply>, i: nat)
    requires i < |checks| == |ats| == |replies|
  {
    !replies[i].Answered? || !Allowed(At(store, checks[i].key), Call(now, ats[i]), WINDOW, checks[i].limit)
  }

  /** The store after check i counted or refused the request. */
  predicate CheckedAt(store: Store, after: Store, checks: seq<Check>, now: nat, ats: seq<int>, i: nat)
    requires i < |checks| == |ats|
  {
    At(after, checks[i].key) == Evaluated(At(store, checks[i].key), Call(now, ats[i]), WINDOW, checks[i].limit)
  }

  predicate SameAt(store: Store, after: Store, key: Key) { At(after, key) == At(store, key) }

  lemma EvaluateTouches(store: Store, key: Key, c: Call, limit: nat)
    ensures At(Evaluate(store, key, c, WINDOW, limit), key) == Evaluated(At(store, key), c, WINDOW, limit)
    ensures forall other | other != key :: SameAt(store, Evaluate(store, key, c, WINDOW, limit), other)
  {
  }

  /**
    `canActivate` with its three checks, at store times `ats` and with the given replies. The
    request is counted under every key before the one that ends the loop, which is the
    first that refuses or fails; later keys are untouched; a fault lets the request pass.
   */
  method CanActivate(store: Store, ip: string, space: string, now: nat, ats: seq<int>, replies: seq<Reply>)
    returns (after: Store, verdict: Verdict, n: nat)
    requires |ats| == |replies| == 3
    ensures n <= 3 && (n < 3 ==> StopsAt(store, Checks(ip, space), now, ats, replies, n))
    ensures forall i | 0 <= i < n :: !StopsAt(store, Checks(ip, space), now, ats, replies, i)
    ensures verdict.Passed? <==> n == 3
    ensures verdict.Limited? <==> n < 3 && replies[n].Answered?
    ensures verdict.Limited? ==> verdict.dimension == n
    ensures forall i | 0 <= i < n :: CheckedAt(store, after, Checks(ip, space), now, ats, i)
    ensures n < 3 && !replies[n].LostBefore? ==> CheckedAt(store, after, Checks(ip, space), now, ats, n)
    ensures n < 3 && replies[n].LostBefore? ==> SameAt(store, after, Checks(ip, space)[n].key)
    ensures forall i | n < i < 3 :: SameAt(store, after, Checks(ip, space)[i].key)
    ensures forall key | key !in Keys(Checks(ip, space)) :: SameAt(store, after, key)
  {
    var checks := Checks(ip, space);
    forall i, j | 0 <= i < 3 && 0 <= j < 3 && i != j ensures checks[i].key != checks[j].key {
      ChecksAreDistinct(ip, space, if i < j then i else j, if i < j then j else i);
    }
    after := store;
    n := 0;
    while n < 3
      invariant n <= 3
      invariant forall i | 0 <= i < n :: !StopsAt(store, checks, now, ats, replies, i)
      invariant forall i | 0 <= i < n :: CheckedAt(store, after, checks, now, ats, i)
      invariant forall i | n <= i < 3 :: SameAt(store, after, checks[i].key)
      invariant forall key | key !in Keys(checks) :: SameAt(store, after, key)
    {
      var check, c := checks[n], Call(now, ats[n]);
      if replies[n].LostBefore? {
        return after, PassedOnFault, n;
      }
      assert SameAt(store, after, check.key);
      var allowed := Allowed(At(after, check.key), c, WINDOW, check.limit);
      ghost var before := after;
      EvaluateTouches(after, check.key, c, check.limit);
      after := Evaluate(after, check.key, c, WINDOW, check.limit);
      assert CheckedAt(store, after, checks, now, ats, n);
      forall i | 0 <= i < n ensures CheckedAt(store, after, checks, now, ats, i) {
        assert checks[i].key != check.key;
        assert CheckedAt(store, before, checks, now, ats, i);
        assert SameAt(before, after, checks[i].key);
      }
      if replies[n].LostAfter? {
        return after, PassedOnFault, n;
      }
      if !allowed {
        return after, Limited(n), n;
      }
      n := n + 1;
    }
    return after, Passed, n;
  }

  // ---- Interleaved requests ----

  type Id = nat

  /** A request, how many of its checks have let it through, and the verdict once there is one. */
  datatype Request = Request(ip: string, space: string, now: nat, through: nat, verdict: Option<Verdict>)

  /** The store, the requests, and as history every script run. */
  datatype Guards = Guards(store: Store, requests: map<Id, Request>, ops: seq<Op>)

  /** A request reads its clock, or gets the reply to its next check, whose script runs at the store time `at`. */
  datatype Step = Arrive(id: Id, ip: string, space: string, now: nat) | Ask(id: Id, at: int, reply: Reply)

  const START := Guards(map[], map[], [])

  predicate Waiting(s: Guards, id: Id) {
    id in s.requests && s.requests[id].verdict.None? && s.requests[id].through < 3
  }

  function Answered(r: Request, reply: Reply, allowed: bool): Request {
    if !reply.Answered? then r.(verdict := Some(PassedOnFault))
    else if !allowed then r.(verdict := Some(Limited(r.through)))
    else if r.through == 2 then r.(through := 3, verdict := Some(Passed))
    else r.(through := r.through + 1)
  }

  function NextOp(r: Request, at: int): Op
    requires r.through < 3
  {
    var check := Checks(r.ip, r.space)[r.through];
    Op(check.key, Call(r.now, at), check.limit)
  }

  predicate Allows(store: Store, op: Op) { Allowed(At(store, op.key), op.call, WINDOW, op.limit) }

  function Asked(s: Guards, id: Id, at: int, reply: Reply): Guards
    requires Waiting(s, id)
  {
    var r := s.requests[id];
    if reply.LostBefore? then s.(requests := s.requests[id := Answered(r, reply, false)])
    else
      var op := NextOp(r, at);
      Guards(Evaluate(s.store, op.key, op.call, WINDOW, op.limit),
             s.requests[id := Answered(r, reply, Allows(s.store, op))],
             s.ops + [op])
  }

  function Apply(s: Guards, step: Step): Option<Guards> {
    match step
    case Arrive(id, ip, space, now) =>
      if id in s.requests then None
      else Some(s.(requests := s.requests[id := Request(ip, space, now, 0, None)]))
    case Ask(id, at, reply) =>
      if Waiting(s, id) then Some(Asked(s, id, at, reply)) else None
  }

  function RunGuards(steps: seq<Step>): Option<Guards> {
    if steps == [] then Some(START)
    else
      var before := RunGuards(steps[..|steps| - 1]);
      if before.None? then None else Apply(before.value, steps[|steps| - 1])
  }

  /** Which of the three checks a key belongs to. */
  function Dimension(key: Key): (i: nat)
    ensures i < 3
  {
    if |key| > 17 && key[17] == 'g' then 0 else if |key| > 17 && key[17] == 'i' then 1 else 2
  }

  function LimitOf(key: Key): nat { if Dimension(key) == 0 then 1000 else if Dimension(key) == 1 then 100 else 200 }

  lemma DimensionOfCheck(ip: string, space: string, i: nat)
    requires i < 3
    ensures var check := Checks(ip, space)[i];
      Dimension(check.key) == i && LimitOf(check.key) == check.limit
  {
    var check := Checks(ip, space)[i];
    assert check.key[17] == if i == 0 then 'g' else if i == 1 then 'i' else 's';
  }

  predicate GotThrough(r: Request, key: Key) {
    Dimension(key) < r.through <= 3 && Checks(r.ip, r.space)[Dimension(key)].key == key
  }

  /** The requests that got through the check of a key, by their clocks. */
  function Through(requests: map<Id, Request>, key: Key, lo: int, hi: int): set<Id> {
    set id | id in requests && GotThrough(requests[id], key) && lo < requests[id].now <= hi
  }

  function AdmittedOn(ops: seq<Op>, key: Key): seq<nat> {
    Run(CallsOn(ops, key), WINDOW, LimitOf(key)).admitted
  }

  predicate Limits(ops: seq<Op>) { forall i | 0 <= i < |ops| :: ops[i].limit == LimitOf(ops[i].key) }

  predicate Passes(r: Request) { r.verdict == Some(Passed) ==> r.through == 3 }

  predicate Inv(s: Guards, key: Key, lo: int, hi: int) {
    && s.store == RunStore(s.ops, WINDOW)
    && Limits(s.ops)
    && (forall id | id in s.requests :: Passes(s.requests[id]))
    && |Through(s.requests, key, lo, hi)| <= |Within(AdmittedOn(s.ops, key), lo, hi)|
  }

  /**
    One reply to a waiting request: an error lets it pass at once, whether or not its script ran; a refusal
    limits it; after the third consent it has passed. The script counts under the key of its check only.
   */
  lemma AskIs(s: Guards, id: Id, at: int, reply: Reply)
    requires id in s.requests && s.requests[id].verdict.None? && s.requests[id].through < 3
    ensures Apply(s, Ask(id, at, reply)).Some?
    ensures var t, was := Apply(s, Ask(id, at, reply)).value, s.requests[id];
      var check := Checks(was.ip, was.space)[was.through];
      var allowed := Allowed(At(s.store, check.key), Call(was.now, at), WINDOW, check.limit);
      && t.requests.Keys == s.requests.Keys
      && (forall other | other in s.requests && other != id :: t.requests[other] == s.requests[other])
      && t.requests[id].through == (if reply.Answered? && allowed then was.through + 1 else was.through)
      && t.requests[id].now == was.now && t.requests[id].ip == was.ip && t.requests[id].space == was.space
      && t.requests[id].verdict ==
           (if !reply.Answered? then Some(PassedOnFault)
            else if !allowed then Some(Limited(was.through))
            else if was.through == 2 then Some(Passed)
            else None)
      && (forall key | key != check.key :: SameAt(s.store, t.store, key))
      && (if reply.LostBefore? then SameAt(s.store, t.store, check.key) && t.ops == s.ops
          else
            && At(t.store, check.key) == Evaluated(At(s.store, check.key), Call(was.now, at), WINDOW, check.limit)
            && t.ops == s.ops + [Op(check.key, Call(was.now, at), check.limit)])
  {
    var was := s.requests[id];
    var check := Checks(was.ip, was.space)[was.through];
    EvaluateTouches(s.store, check.key, Call(was.now, at), check.limit);
    AskedIs(s, id, at, reply, check);
  }

  lemma AskedIs(s: Guards, id: Id, at: int, reply: Reply, check: Check)
    requires Waiting(s, id) && check == Checks(s.requests[id].ip, s.requests[id].space)[s.requests[id].through]
    ensures var t, was := Asked(s, id, at, reply), s.requests[id];
      var allowed := Allowed(At(s.store, check.key), Call(was.now, at), WINDOW, check.limit);
      && t.requests == s.requests[id := Answered(was, reply, !reply.LostBefore? && allowed)]
      && if reply.LostBefore? then t.store == s.store && t.ops == s.ops
         else t.store == Evaluate(s.store, check.key, Call(was.now, at), WINDOW, check.limit)
              && t.ops == s.ops + [Op(check.key, Call(was.now, at), check.limit)]
  {
  }

  /** What another key's script admits is not this key's. */
  lemma OpOfAnotherKey(ops: seq<Op>, op: Op, key: Key)
    requires op.key != key
    ensures AdmittedOn(ops + [op], key) == AdmittedOn(ops, key)
  {
    assert (ops + [op])[..|ops|] == ops;
    assert CallsOn(ops, key) + [] == CallsOn(ops, key);
  }

  /** A script that allows its call admits it. */
  lemma OpOfTheKey(ops: seq<Op>, op: Op)
    requires Limits(ops) && op.limit == LimitOf(op.key)
    ensures AdmittedOn(ops + [op], op.key) ==
      AdmittedOn(ops, op.key) + if Allows(RunStore(ops, WINDOW), op) then [op.call.now] else []
  {
    var h := Run(CallsOn(ops, op.key), WINDOW, op.limit);
    KeysAreIndependent(ops, op.key, WINDOW, op.limit);
    RunAppend(CallsOn(ops, op.key), op.call, WINDOW, op.limit);
    CallsOnAppend(ops, op);
    ExtendAdmits(h, op.call, op.limit);
    assert Run(CallsOn(ops + [op], op.key), WINDOW, op.limit) == Extend(h, op.call, WINDOW, op.limit);
    assert Allows(RunStore(ops, WINDOW), op) == Allowed(h.bucket, op.call, WINDOW, op.limit);
  }

  lemma ExtendAdmits(h: History, c: Call, limit: nat)
    ensures Extend(h, c, WINDOW, limit).admitted ==
      h.admitted + if Allowed(h.bucket, c, WINDOW, limit) then [c.now] else []
  {
    assert h.admitted + [] == h.admitted;
  }

  lemma CallsOnAppend(ops: seq<Op>, op: Op)
    ensures CallsOn(ops + [op], op.key) == CallsOn(ops, op.key) + [op.call]
    ensures RunStore(ops + [op], WINDOW) == Evaluate(RunStore(ops, WINDOW), op.key, op.call, WINDOW, op.limit)
  {
    assert (ops + [op])[..|ops|] == ops;
  }

  lemma {:induction false} InvAlways(steps: seq<Step>, key: Key, lo: int, hi: int)
    requires RunGuards(steps).Some?
    ensures Inv(RunGuards(steps).value, key, lo, hi)
  {
    if steps != [] {
      InvAlways(steps[..|steps| - 1], key, lo, hi);
      StepKeepsInv(RunGuards(steps[..|steps| - 1]).value, steps[|steps| - 1], key, lo, hi);
    }
  }

  lemma StepKeepsInv(s: Guards, step: Step, key: Key, lo: int, hi: int)
    requires Inv(s, key, lo, hi) && Apply(s, step).Some?
    ensures Inv(Apply(s, step).value, key, lo, hi)
  {
    match step
    case Arrive(id, ip, space, now) =>
      var after := Apply(s, step).value;
      assert Through(after.requests, key, lo, hi) == Through(s.requests, key, lo, hi);
    case Ask(id, at, reply) =>
      AskKeepsInv(s, id, at, reply, key, lo, hi);
  }

  lemma AskKeepsInv(s: Guards, id: Id, at: int, reply: Reply, key: Key, lo: int, hi: int)
    requires Inv(s, key, lo, hi) && Waiting(s, id)
    ensures Inv(Asked(s, id, at, reply), key, lo, hi)
  {
    if reply.LostBefore? {
      StaysCounted(s.requests, id, Answered(s.requests[id], reply, false), key, lo, hi);
    } else {
      NextOpIsACheck(s.requests[id], at);
      ScriptKeepsInv(s, Asked(s, id, at, reply), id, NextOp(s.requests[id], at), reply, key, lo, hi);
    }
  }

  /** An op is the script of the request's next check. */
  predicate IsNextCheck(r: Request, op: Op) {
    && r.through < 3 && op.call.now == r.now
    && op.limit == LimitOf(op.key) && Dimension(op.key) == r.through
    && op.key == Checks(r.ip, r.space)[r.through].key
  }

  lemma NextOpIsACheck(r: Request, at: int)
    requires r.through < 3
    ensures IsNextCheck(r, NextOp(r, at))
  {
    DimensionOfCheck(r.ip, r.space, r.through);
  }

  lemma ScriptKeepsInv(s: Guards, t: Guards, id: Id, op: Op, reply: Reply, key: Key, lo: int, hi: int)
    requires Inv(s, key, lo, hi) && id in s.requests && IsNextCheck(s.requests[id], op)
    requires t.store == Evaluate(s.store, op.key, op.call, WINDOW, op.limit) && t.ops == s.ops + [op]
    requires t.requests == s.requests[id := Answered(s.requests[id], reply, Allows(s.store, op))]
    ensures Inv(t, key, lo, hi)
  {
    ScriptIsLogged(s.store, s.ops, op);
    AskKeepsCount(s.ops, s.requests, id, op, reply, Allows(s.store, op), key, lo, hi);
  }

  lemma ScriptIsLogged(store: Store, ops: seq<Op>, op: Op)
    requires store == RunStore(ops, WINDOW) && Limits(ops) && op.limit == LimitOf(op.key)
    ensures Evaluate(store, op.key, op.call, WINDOW, op.limit) == RunStore(ops + [op], WINDOW)
    ensures Limits(ops + [op])
  {
    CallsOnAppend(ops, op);
  }

  lemma AskKeepsCount(
      ops: seq<Op>, requests: map<Id, Request>, id: Id, op: Op, reply: Reply, allowed: bool, key: Key, lo: int, hi: int)
    requires Limits(ops) && op.limit == LimitOf(op.key) && allowed == Allows(RunStore(ops, WINDOW), op)
    requires id in requests && IsNextCheck(requests[id], op)
    requires |Through(requests, key, lo, hi)| <= |Within(AdmittedOn(ops, key), lo, hi)|
    ensures var after := requests[id := Answered(requests[id], reply, allowed)];
      |Through(after, key, lo, hi)| <= |Within(AdmittedOn(ops + [op], key), lo, hi)|
  {
    if op.key == key {
      OpOfTheKey(ops, op);
      WithinMaybe(AdmittedOn(ops, key), op.call.now, allowed, lo, hi);
      CountsOneMore(requests, id, reply, allowed, key, lo, hi);
    } else {
      OpOfAnotherKey(ops, op, key);
      StaysCounted(requests, id, Answered(requests[id], reply, allowed), key, lo, hi);
    }
  }

  lemma WithinMaybe(xs: seq<nat>, x: nat, more: bool, lo: int, hi: int)
    ensures |Within(xs + if more then [x] else [], lo, hi)| ==
      |Within(xs, lo, hi)| + if more && lo < x <= hi then 1 else 0
  {
    if more { WithinAppend(xs, x, lo, hi); } else { assert xs + [] == xs; }
  }

  /** A request that does not get through the key's check now counts as before. */
  lemma StaysCounted(requests: map<Id, Request>, id: Id, r: Request, key: Key, lo: int, hi: int)
    requires id in requests && r.now == requests[id].now
    requires GotThrough(r, key) <==> GotThrough(requests[id], key)
    ensures Through(requests[id := r], key, lo, hi) == Through(requests, key, lo, hi)
  {
  }

  lemma CountsOneMore(requests: map<Id, Request>, id: Id, reply: Reply, allowed: bool, key: Key, lo: int, hi: int)
    requires id in requests && requests[id].through < 3
    ensures var (r, after) := (requests[id], requests[id := Answered(requests[id], reply, allowed)]);
      |Through(after, key, lo, hi)| <= |Through(requests, key, lo, hi)| + if allowed && lo < r.now <= hi then 1 else 0
  {
    var r := requests[id];
    var after := requests[id := Answered(r, reply, allowed)];
    var some, more := Through(requests, key, lo, hi), Through(after, key, lo, hi);
    if allowed && lo < r.now <= hi {
      assert more <= some + {id};
      Smaller(more, some + {id});
    } else {
      assert more <= some;
      Smaller(more, some);
    }
  }

  lemma {:induction false} Smaller(a: set<Id>, b: set<Id>)
    requires a <= b
    ensures |a| <= |b|
  {
    if a != {} {
      var x :| x in a;
      Smaller(a - {x}, b - {x});
    }
  }

  /** The requests of a key that passed without a fault, by their clocks. */
  function PassedOn(requests: map<Id, Request>, key: Key, lo: int, hi: int): set<Id> {
    set id | id in requests && requests[id].verdict == Some(Passed) && lo < requests[id].now <= hi &&
      key in Keys(Checks(requests[id].ip, requests[id].space))
  }

  lemma PassedGotThrough(r: Request, key: Key)
    requires r.through == 3 && key in Keys(Checks(r.ip, r.space))
    ensures GotThrough(r, key)
  {
    var i :| 0 <= i < 3 && Checks(r.ip, r.space)[i].key == key;
    DimensionOfCheck(r.ip, r.space, i);
  }

  /** In every run, whoever passed without a fault was admitted under the key. */
  lemma PassedAreAdmitted(steps: seq<Step>, s: Guards, key: Key, lo: int, hi: int)
    requires RunGuards(steps) == Some(s)
    ensures |PassedOn(s.requests, key, lo, hi)| <= |Within(AdmittedOn(s.ops, key), lo, hi)|
  {
    InvAlways(steps, key, lo, hi);
    forall id | id in PassedOn(s.requests, key, lo, hi) ensures id in Through(s.requests, key, lo, hi) {
      PassedGotThrough(s.requests[id], key);
    }
    Smaller(PassedOn(s.requests, key, lo, hi), Through(s.requests, key, lo, hi));
  }

  /**
    However the guards of any number of requests interleave and fail: as long as no script of a
    key finds its last admission lost, at most the key's limit of requests pass in any window.
   */
  lemma PassedAreBounded(steps: seq<Step>, s: Guards, key: Key, t: int)
    requires RunGuards(steps) == Some(s) && LastKept(CallsOn(s.ops, key), WINDOW, LimitOf(key), WINDOW)
    ensures |PassedOn(s.requests, key, t - WINDOW, t)| <= LimitOf(key)
  {
    PassedAreAdmitted(steps, s, key, t - WINDOW, t);
    EveryWindowIsBounded(CallsOn(s.ops, key), WINDOW, LimitOf(key), t);
  }

  /** When every script runs at most `delay` after its request read the clock, windows shorter by that are bounded. */
  lemma DelayedPassesAreBounded(steps: seq<Step>, s: Guards, key: Key, delay: nat, length: int, t: int)
    requires RunGuards(steps) == Some(s) && Delayed(CallsOn(s.ops, key), delay) && length == WINDOW - delay
    ensures |PassedOn(s.requests, key, t - length, t)| <= LimitOf(key)
  {
    PassedAreAdmitted(steps, s, key, t - length, t);
    DelayShortensTheWindow(CallsOn(s.ops, key), WINDOW, LimitOf(key), delay, length, t);
  }
}
